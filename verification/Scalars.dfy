// The scalar values that recipes and search spaces hold, as Python compares them.
module Scalars {
  import opened Wrappers

  // A text comes with the number float() reads in it, if it reads one.
  datatype Scalar = Float(x: real) | Int(n: int) | Bool(flag: bool) | Text(text: string, numeral: Option<real>) | Nothing

  function Number(v: Scalar): Option<real> {
    match v
    case Float(x) => Some(x)
    case Int(n) => Some(n as real)
    case Bool(flag) => Some(if flag then 1.0 else 0.0)
    case _ => None
  }

  // float(value)
  function AsFloat(v: Scalar): Option<real> { if v.Text? then v.numeral else Number(v) }

  // The representative that Python's equality and hash see: numbers compare by value whatever their type, so
  // 1 == 1.0 == True.
  function Canonical(v: Scalar): Scalar {
    if Number(v).Some? then Float(Number(v).value) else v
  }

  predicate Same(v: Scalar, w: Scalar) { Canonical(v) == Canonical(w) }
}

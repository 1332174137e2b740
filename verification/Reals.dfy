// Exact arithmetic on real numbers, which stands for floating point throughout.
module Reals {

  function Abs(x: real): (r: real)
    ensures r >= 0.0
  {
    if x < 0.0 then -x else x
  }

  function Min(x: real, y: real): real { if x <= y then x else y }

  function Sum(xs: seq<real>): real {
    if xs == [] then 0.0 else xs[0] + Sum(xs[1..])
  }

  lemma {:induction false} SumConcat(xs: seq<real>, ys: seq<real>)
    ensures Sum(xs + ys) == Sum(xs) + Sum(ys)
  {
    if xs == [] {
      assert xs + ys == ys;
    } else {
      SumConcat(xs[1..], ys);
      assert (xs + ys)[1..] == xs[1..] + ys;
    }
  }

  /** Multiplying by a positive number keeps the order. */
  lemma ProductOrder(x: real, y: real, k: real)
    requires k > 0.0
    ensures x <= y <==> x * k <= y * k
  {
    if x <= y {
      assert (y - x) * k >= 0.0;
    } else {
      assert (x - y) * k > 0.0;
    }
  }

  lemma QuotientTimes(n: real, d: real)
    requires d != 0.0
    ensures n / d * d == n
  {
  }

  // ----- the order of summands -----

  // The first of xs, taken out of the same values in another order.
  lemma TakeOut(xs: seq<real>, ys: seq<real>) returns (i: nat)
    requires multiset(xs) == multiset(ys) && xs != []
    ensures i < |ys| && ys[i] == xs[0] && ys == ys[..i] + [xs[0]] + ys[i + 1..]
    ensures multiset(xs[1..]) == multiset(ys[..i] + ys[i + 1..])
  {
    var x := xs[0];
    assert x in multiset(ys);
    i :| 0 <= i < |ys| && ys[i] == x;
    var others := ys[..i] + ys[i + 1..];
    assert xs == [x] + xs[1..] && ys == ys[..i] + [x] + ys[i + 1..];
    assert multiset(xs) == multiset{x} + multiset(xs[1..]);
    assert multiset(ys) == multiset{x} + multiset(others);
    forall z ensures multiset(xs[1..])[z] == multiset(others)[z] {
      assert multiset(xs)[z] == multiset(ys)[z];
    }
  }

  lemma {:induction false} SumOfPermuted(xs: seq<real>, ys: seq<real>)
    requires multiset(xs) == multiset(ys)
    ensures Sum(xs) == Sum(ys)
    decreases |xs|
  {
    if xs == [] {
      assert |multiset(ys)| == 0;
    } else {
      var i := TakeOut(xs, ys);
      var x, rest, before, after := xs[0], xs[1..], ys[..i], ys[i + 1..];
      assert ys == before + ([x] + after);
      SumOfPermuted(rest, before + after);
      SumConcat(before, after);
      SumConcat(before, [x] + after);
      assert ([x] + after)[1..] == after;
    }
  }

  function Mean(xs: seq<real>): real
    requires xs != []
  {
    Sum(xs) / |xs| as real
  }

  // Where Python's max and a loop with a strict comparison stop: no element is higher, and no earlier one as high.
  predicate IsFirstMaximum(xs: seq<real>, k: nat) {
    && k < |xs|
    && (forall i :: 0 <= i < |xs| ==> xs[i] <= xs[k])
    && (forall i :: 0 <= i < k ==> xs[i] < xs[k])
  }

  // The one property of the square root that is used.
  ghost predicate IsSqrt(sqrt: real -> real) {
    forall x: real :: x >= 0.0 ==> sqrt(x) >= 0.0 && sqrt(x) * sqrt(x) == x
  }

  // What is used of the exponential: it is 1 at 0, and rises strictly where it is positive.  It may be 0 below some
  // point, as it is once a float underflows.
  ghost predicate IsExp(exp: real -> real) {
    && exp(0.0) == 1.0 && (forall x: real :: exp(x) >= 0.0)
    && (forall x: real, y: real :: x < y ==> exp(x) < exp(y) || exp(x) == exp(y) == 0.0)
  }

  // ----- products as terms of their own, so that proofs need not look inside them -----

  function Product(x: real, y: real): real { x * y }

  lemma ProductBetween(t: real, d: real)
    requires 0.0 <= t <= 1.0 && d >= 0.0
    ensures 0.0 <= Product(t, d) <= d
  {
    if d > 0.0 {
      ProductOrder(0.0, t, d);
      ProductOrder(t, 1.0, d);
    }
  }

  lemma ProductNegate(t: real, d: real)
    ensures Product(t, -d) == -Product(t, d)
  {
  }

  lemma ProductDifference(s: real, t: real, d: real)
    ensures Product(s, d) - Product(t, d) == Product(s - t, d)
  {
  }

  lemma ProductSigns(x: real, y: real)
    ensures x >= 0.0 && y >= 0.0 ==> Product(x, y) >= 0.0
    ensures x >= 0.0 && y <= 0.0 ==> Product(x, y) <= 0.0
    ensures x <= 0.0 && y >= 0.0 ==> Product(x, y) <= 0.0
    ensures Product(x, 0.0) == Product(0.0, y) == 0.0
  {
  }

  lemma SquareIsNonNegative(x: real)
    ensures Product(x, x) >= 0.0
  {
    if x < 0.0 {
      assert Product(x, x) == Product(-x, -x);
      ProductSigns(-x, -x);
    } else {
      ProductSigns(x, x);
    }
  }

  lemma ProductIsZero(x: real, y: real)
    requires Product(x, y) == 0.0
    ensures x == 0.0 || y == 0.0
  {
  }

  lemma SignOfFactor(x: real, y: real)
    requires Product(x, y) >= 0.0
    ensures y > 0.0 ==> x >= 0.0
    ensures y < 0.0 ==> x <= 0.0
  {
    if y > 0.0 {
      ProductOrder(0.0, x, y);
    } else if y < 0.0 {
      ProductOrder(x, 0.0, -y);
      assert x * (-y) == -(x * y);
    }
  }

  lemma AbsProduct(x: real, y: real)
    ensures Abs(Product(x, y)) == Product(Abs(x), Abs(y))
  {
  }

  lemma ProductBound(a: real, b: real, c: real, d: real)
    requires 0.0 <= a <= c && 0.0 <= b <= d
    ensures Product(a, b) <= Product(c, d)
  {
    if b > 0.0 {
      ProductOrder(a, c, b);
    }
    if c > 0.0 {
      ProductOrder(b, d, c);
    }
    assert a * b <= c * b;
    assert c * b <= c * d;
  }

  lemma ProductSpread(x: real, a: real, b: real)
    ensures Product(x, a + b) == Product(x, a) + Product(x, b)
  {
  }

  lemma QuotientBounds(n: real, d: real, low: real, high: real)
    requires d > 0.0 && Product(low, d) <= n <= Product(high, d)
    ensures low <= n / d <= high
  {
    QuotientTimes(n, d);
    ProductOrder(low, n / d, d);
    ProductOrder(n / d, high, d);
  }

  lemma {:induction false} SumBounds(xs: seq<real>, low: real, high: real)
    requires forall k :: 0 <= k < |xs| ==> low <= xs[k] <= high
    ensures Product(low, |xs| as real) <= Sum(xs) <= Product(high, |xs| as real)
  {
    if xs != [] {
      SumBounds(xs[1..], low, high);
      ProductSpread(low, |xs[1..]| as real, 1.0);
      ProductSpread(high, |xs[1..]| as real, 1.0);
    }
  }

  /** The mean lies within the range of the values. */
  lemma MeanInRange(xs: seq<real>, low: real, high: real)
    requires xs != [] && forall k :: 0 <= k < |xs| ==> low <= xs[k] <= high
    ensures low <= Mean(xs) <= high
  {
    SumBounds(xs, low, high);
    QuotientBounds(Sum(xs), |xs| as real, low, high);
  }
}

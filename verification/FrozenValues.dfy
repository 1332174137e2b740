// _freeze and _thaw of src/perovskite_bo/recipe.py: a recipe keeps its nested contexts deeply immutable and hands them
// out as plain JSON data.
module FrozenValues {
  import S = Scalars

  // A nested value: dictionaries are plain or frozen, sequences are lists or tuples.
  datatype Value =
    | Leaf(scalar: S.Scalar)
    | Dict(entries: map<string, Value>, frozen: bool)
    | Items(items: seq<Value>, tuple: bool)

  function Freeze(v: Value): Value {
    match v
    case Leaf(_) => v
    case Dict(entries, _) => Dict(map key | key in entries :: Freeze(entries[key]), true)
    case Items(items, _) => Items(seq(|items|, i requires 0 <= i < |items| => Freeze(items[i])), true)
  }

  // A list is returned as it is, whatever it holds.
  function Thaw(v: Value): Value {
    match v
    case Leaf(_) => v
    case Dict(entries, _) => Dict(map key | key in entries :: Thaw(entries[key]), false)
    case Items(items, tuple) =>
      if tuple then Items(seq(|items|, i requires 0 <= i < |items| => Thaw(items[i])), false) else v
  }

  // What Python's == sees: a frozen dictionary equals a plain one, a tuple never equals a list.
  function Compared(v: Value): Value {
    match v
    case Leaf(scalar) => Leaf(S.Canonical(scalar))
    case Dict(entries, _) => Dict(map key | key in entries :: Compared(entries[key]), false)
    case Items(items, tuple) => Items(seq(|items|, i requires 0 <= i < |items| => Compared(items[i])), tuple)
  }

  predicate Same(v: Value, w: Value) { Compared(v) == Compared(w) }

  // Every sequence inside is of the one kind.
  predicate AllSequences(v: Value, tuple: bool) {
    match v
    case Leaf(_) => true
    case Dict(entries, _) => forall key :: key in entries ==> AllSequences(entries[key], tuple)
    case Items(items, kind) => kind == tuple && forall i :: 0 <= i < |items| ==> AllSequences(items[i], tuple)
  }

  // Every dictionary inside is of the one kind.
  predicate AllDictionaries(v: Value, frozen: bool) {
    match v
    case Leaf(_) => true
    case Dict(entries, kind) => kind == frozen && forall key :: key in entries ==> AllDictionaries(entries[key], frozen)
    case Items(items, _) => forall i :: 0 <= i < |items| ==> AllDictionaries(items[i], frozen)
  }

  // Nothing inside can be changed.
  predicate IsFrozen(v: Value) { AllSequences(v, true) && AllDictionaries(v, true) }

  // What a JSON document holds.
  predicate IsPlain(v: Value) { AllSequences(v, false) && AllDictionaries(v, false) }

  /** Freezing reaches every level, and thawing what was frozen undoes it at every level. */
  lemma {:induction false} EveryLevel(v: Value)
    ensures IsFrozen(Freeze(v)) && IsPlain(Thaw(Freeze(v)))
  {
    match v
    case Leaf(_) =>
    case Dict(entries, _) =>
      forall key | key in entries ensures IsFrozen(Freeze(entries[key])) && IsPlain(Thaw(Freeze(entries[key]))) {
        EveryLevel(entries[key]);
      }
    case Items(items, _) =>
      forall i | 0 <= i < |items| ensures IsFrozen(Freeze(items[i])) && IsPlain(Thaw(Freeze(items[i]))) {
        EveryLevel(items[i]);
      }
  }

  /** Freezing sees the content only: it does not matter whether a value was thawed before. */
  lemma {:induction false} FreezeAfterThaw(v: Value)
    ensures Freeze(Thaw(v)) == Freeze(v)
  {
    match v
    case Leaf(_) =>
    case Dict(entries, _) =>
      forall key | key in entries ensures Freeze(Thaw(entries[key])) == Freeze(entries[key]) {
        FreezeAfterThaw(entries[key]);
      }
    case Items(items, _) =>
      forall i | 0 <= i < |items| ensures Freeze(Thaw(items[i])) == Freeze(items[i]) {
        FreezeAfterThaw(items[i]);
      }
  }

  /** A frozen value is its own frozen form. */
  lemma {:induction false} FrozenStays(v: Value)
    requires IsFrozen(v)
    ensures Freeze(v) == v
  {
    match v
    case Leaf(_) =>
    case Dict(entries, _) =>
      forall key | key in entries ensures Freeze(entries[key]) == entries[key] {
        FrozenStays(entries[key]);
      }
    case Items(items, _) =>
      forall i | 0 <= i < |items| ensures Freeze(items[i]) == items[i] {
        FrozenStays(items[i]);
      }
  }

  // Equal values have their sequences of the same kinds.
  lemma {:induction false} ComparedSequences(v: Value, tuple: bool)
    ensures AllSequences(Compared(v), tuple) <==> AllSequences(v, tuple)
  {
    match v
    case Leaf(_) =>
    case Dict(entries, _) =>
      forall key | key in entries
        ensures AllSequences(Compared(entries[key]), tuple) <==> AllSequences(entries[key], tuple)
      {
        ComparedSequences(entries[key], tuple);
      }
      assert forall key :: key in entries ==> Compared(v).entries[key] == Compared(entries[key]);
    case Items(items, kind) =>
      forall i | 0 <= i < |items| ensures AllSequences(Compared(items[i]), tuple) <==> AllSequences(items[i], tuple) {
        ComparedSequences(items[i], tuple);
      }
      assert forall i :: 0 <= i < |items| ==> Compared(v).items[i] == Compared(items[i]);
  }

  lemma {:induction false} ListsComeBack(v: Value)
    requires AllSequences(v, false)
    ensures Same(Thaw(Freeze(v)), v)
  {
    match v
    case Leaf(_) =>
    case Dict(entries, _) =>
      forall key | key in entries ensures Same(Thaw(Freeze(entries[key])), entries[key]) {
        ListsComeBack(entries[key]);
      }
    case Items(items, _) =>
      forall i | 0 <= i < |items| ensures Same(Thaw(Freeze(items[i])), items[i]) {
        ListsComeBack(items[i]);
      }
  }

  lemma {:induction false} TuplesComeBack(v: Value)
    requires AllSequences(v, true)
    ensures Same(Freeze(v), v)
  {
    match v
    case Leaf(_) =>
    case Dict(entries, _) =>
      forall key | key in entries ensures Same(Freeze(entries[key]), entries[key]) {
        TuplesComeBack(entries[key]);
      }
    case Items(items, _) =>
      forall i | 0 <= i < |items| ensures Same(Freeze(items[i]), items[i]) {
        TuplesComeBack(items[i]);
      }
  }

  /** As Python compares: a value equals its frozen and thawed form exactly when it holds no tuple, as JSON data does;
      and it equals its thawed and frozen form exactly when it holds no list, as a recipe's contexts do. */
  lemma {:induction false} RoundTrips(v: Value)
    ensures Same(Thaw(Freeze(v)), v) <==> AllSequences(v, false)
    ensures Same(Freeze(Thaw(v)), v) <==> AllSequences(v, true)
  {
    EveryLevel(v);
    FreezeAfterThaw(v);
    ComparedSequences(v, false);
    ComparedSequences(v, true);
    ComparedSequences(Thaw(Freeze(v)), false);
    ComparedSequences(Freeze(v), true);
    if AllSequences(v, false) {
      ListsComeBack(v);
    }
    if AllSequences(v, true) {
      TuplesComeBack(v);
    }
  }
}

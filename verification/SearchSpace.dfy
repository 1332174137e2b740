// The search space of src/perovskite_bo/search_space.py, and the two things src/perovskite_bo/strategies.py
// derives from it: the bounded grid of its points, and the encoding of a point as a vector of numbers.
module SearchSpace {
  import opened Reals
  import opened Scalars
  import opened Wrappers

  // A recipe value.
  type Value = Scalar

  datatype Parameter =
    | FloatParameter(name: string, lower: real, upper: real)
    | IntegerParameter(name: string, lowest: int, highest: int)
    | ChoiceParameter(name: string, choices: seq<Value>)
    | OtherParameter(name: string, accepts: Value -> bool)

  type Point = map<string, Value>

  datatype Failure = OutsideSpace | RecipeRejected | NotANumber | NoUntriedRecipe | DivisionByZero

  // What the constructors of the parameters and of the search space check.
  predicate ParameterValid(p: Parameter) {
    match p
    case FloatParameter(_, lower, upper) => lower <= upper
    case IntegerParameter(_, lowest, highest) => lowest <= highest
    case ChoiceParameter(_, choices) => choices != []
    case OtherParameter(_, _) => true
  }

  predicate SpaceValid(space: seq<Parameter>) {
    && (forall i :: 0 <= i < |space| ==> ParameterValid(space[i]))
    && (forall i, j :: 0 <= i < j < |space| ==> space[i].name != space[j].name)
  }

  predicate IsChoice(choices: seq<Value>, v: Value) {
    exists i :: 0 <= i < |choices| && Same(choices[i], v)
  }

  predicate Contains(p: Parameter, v: Value) {
    match p
    case FloatParameter(_, lower, upper) => (v.Float? || v.Int?) && lower <= Number(v).value <= upper
    case IntegerParameter(_, lowest, highest) => v.Int? && lowest <= v.n <= highest
    case ChoiceParameter(_, choices) => IsChoice(choices, v)
    case OtherParameter(_, accepts) => accepts(v)
  }

  function Names(space: seq<Parameter>): set<string> {
    set i | 0 <= i < |space| :: space[i].name
  }

  // A value for every parameter, which is what a recipe's dictionary has.
  predicate Covers(space: seq<Parameter>, values: Point) {
    forall i :: 0 <= i < |space| ==> space[i].name in values
  }

  // Every parameter has a value it contains; there may be more fields than the parameters.
  predicate Admits(space: seq<Parameter>, values: Point) {
    forall i :: 0 <= i < |space| ==> space[i].name in values && Contains(space[i], values[space[i].name])
  }

  // SearchSpace.validate
  predicate InSpace(space: seq<Parameter>, values: Point) {
    values.Keys == Names(space) && Admits(space, values)
  }

  // ----- the grid -----

  function Options(p: Parameter): (options: seq<Value>)
    requires ParameterValid(p)
    ensures !p.OtherParameter? ==> options != []
  {
    match p
    case FloatParameter(_, lower, upper) => [Float(lower), Float((lower + upper) / 2.0), Float(upper)]
    case IntegerParameter(_, lowest, highest) => seq(highest - lowest + 1, i => Int(lowest + i))
    case ChoiceParameter(_, choices) => choices
    case OtherParameter(_, _) => []
  }

  function AllOptions(space: seq<Parameter>): seq<seq<Value>>
    requires SpaceValid(space)
  {
    seq(|space|, i requires 0 <= i < |space| => Options(space[i]))
  }

  function Times(m: nat, n: nat): nat { m * n }

  function Count<T>(options: seq<seq<T>>): nat {
    if options == [] then 1 else Times(Count(options[..|options| - 1]), |options[|options| - 1]|)
  }

  // The k-th of the tuples extended by every option, the option varying fastest.
  function Extended<T>(tuples: seq<seq<T>>, options: seq<T>, k: nat): seq<T>
    requires k < Times(|tuples|, |options|)
  {
    SplitInRange(k, |tuples|, |options|);
    tuples[k / |options|] + [options[k % |options|]]
  }

  lemma ExtendedLength<T>(tuples: seq<seq<T>>, options: seq<T>, k: nat, width: nat)
    requires k < Times(|tuples|, |options|) && forall i :: 0 <= i < |tuples| ==> |tuples[i]| == width
    ensures |Extended(tuples, options, k)| == width + 1
  {
    SplitInRange(k, |tuples|, |options|);
  }

  function Extend<T>(tuples: seq<seq<T>>, options: seq<T>): (r: seq<seq<T>>)
    ensures |r| == Times(|tuples|, |options|)
    ensures forall k :: 0 <= k < |r| ==> r[k] == Extended(tuples, options, k)
  {
    var n := Times(|tuples|, |options|);
    seq(n, k requires 0 <= k < n => Extended(tuples, options, k))
  }

  lemma SplitInRange(k: nat, m: nat, n: nat)
    requires k < Times(m, n)
    ensures n > 0 && k / n < m && k % n < n
  {
    if n > 0 && k >= n * (k / n) {
      QuotientOrder(m, k / n, n);
    }
  }

  lemma QuotientOrder(m: nat, q: nat, n: nat)
    ensures m <= q ==> m * n <= q * n
  {
  }

  lemma SplitIs(k: nat, n: nat)
    requires n > 0
    ensures Times(k / n, n) + k % n == k
  {
  }

  lemma TimesStep(q: nat, n: nat)
    ensures Times(q + 1, n) == Times(q, n) + n
  {
  }

  lemma TimesOrder(a: nat, b: nat, n: nat)
    requires a <= b
    ensures Times(a, n) <= Times(b, n)
  {
  }

  lemma JoinInRange(q: nat, r: nat, m: nat, n: nat)
    requires q < m && r < n
    ensures Times(q, n) + r < Times(m, n)
    ensures (Times(q, n) + r) / n == q && (Times(q, n) + r) % n == r
  {
    TimesStep(q, n);
    TimesOrder(q + 1, m, n);
    QuotientIs(q, r, n);
  }

  lemma QuotientIs(q: nat, r: nat, n: nat)
    requires r < n
    ensures (Times(q, n) + r) / n == q && (Times(q, n) + r) % n == r
  {
    var k := Times(q, n) + r;
    assert k == n * (k / n) + k % n;
    var d := k / n - q;
    assert n * d == r - k % n;
    assert d >= 1 ==> n * d >= n;
    assert d <= -1 ==> n * d + n <= 0;
  }

  // itertools.product
  function Tuples<T>(options: seq<seq<T>>): (r: seq<seq<T>>)
    ensures |r| == Count(options)
  {
    if options == [] then [[]] else Extend(Tuples(options[..|options| - 1]), options[|options| - 1])
  }

  lemma {:induction false} TupleLength<T>(options: seq<seq<T>>)
    ensures forall k :: 0 <= k < |Tuples(options)| ==> |Tuples(options)[k]| == |options|
  {
    if options != [] {
      var front := options[..|options| - 1];
      TupleLength(front);
      forall k | 0 <= k < |Tuples(options)| ensures |Tuples(options)[k]| == |options| {
        ExtendedLength(Tuples(front), options[|options| - 1], k, |front|);
      }
    }
  }

  predicate IsIndex<T>(options: seq<seq<T>>, index: seq<nat>) {
    |index| == |options| && forall i :: 0 <= i < |index| ==> index[i] < |options[i]|
  }

  function Pick<T>(options: seq<seq<T>>, index: seq<nat>): (tuple: seq<T>)
    requires IsIndex(options, index)
  {
    seq(|options|, i requires 0 <= i < |options| => options[i][index[i]])
  }

  // The place of an index tuple among all of them.
  function Rank<T>(options: seq<seq<T>>, index: seq<nat>): nat
    requires |index| == |options|
  {
    if options == [] then 0
    else
      var last := |options| - 1;
      Times(Rank(options[..last], index[..last]), |options[last]|) + index[last]
  }

  lemma {:induction false} RankInRange<T>(options: seq<seq<T>>, index: seq<nat>)
    requires IsIndex(options, index)
    ensures Rank(options, index) < Count(options)
  {
    if options != [] {
      var last := |options| - 1;
      RankInRange(options[..last], index[..last]);
      JoinInRange(Rank(options[..last], index[..last]), index[last], Count(options[..last]), |options[last]|);
    }
  }

  lemma PickSplits<T>(options: seq<seq<T>>, index: seq<nat>)
    requires IsIndex(options, index) && options != []
    ensures var last := |options| - 1;
      Pick(options, index) == Pick(options[..last], index[..last]) + [options[last][index[last]]]
  {
  }

  // The tuple in that place is the one of the options before, extended by the last choice.
  lemma {:induction false} LastTupleAtRank<T>(options: seq<seq<T>>, index: seq<nat>)
    requires IsIndex(options, index) && options != []
    requires var last := |options| - 1; Rank(options[..last], index[..last]) < Count(options[..last])
    requires Rank(options, index) < Count(options)
    ensures var last := |options| - 1;
      Tuples(options)[Rank(options, index)]
      == Tuples(options[..last])[Rank(options[..last], index[..last])] + [options[last][index[last]]]
  {
    var last := |options| - 1;
    JoinInRange(Rank(options[..last], index[..last]), index[last], Count(options[..last]), |options[last]|);
  }

  lemma {:induction false} TupleAtRank<T>(options: seq<seq<T>>, index: seq<nat>)
    requires IsIndex(options, index) && Rank(options, index) < Count(options)
    ensures Tuples(options)[Rank(options, index)] == Pick(options, index)
  {
    if options != [] {
      var last := |options| - 1;
      RankInRange(options[..last], index[..last]);
      TupleAtRank(options[..last], index[..last]);
      LastTupleAtRank(options, index);
      PickSplits(options, index);
    }
  }

  lemma {:induction false} RankIsInjective<T>(options: seq<seq<T>>, i: seq<nat>, j: seq<nat>)
    requires IsIndex(options, i) && IsIndex(options, j) && Rank(options, i) == Rank(options, j)
    ensures i == j
  {
    if options != [] {
      var last := |options| - 1;
      RankInRange(options[..last], i[..last]);
      RankInRange(options[..last], j[..last]);
      JoinInRange(Rank(options[..last], i[..last]), i[last], Count(options[..last]), |options[last]|);
      JoinInRange(Rank(options[..last], j[..last]), j[last], Count(options[..last]), |options[last]|);
      RankIsInjective(options[..last], i[..last], j[..last]);
      assert i == i[..last] + [i[last]] && j == j[..last] + [j[last]];
    }
  }

  lemma {:induction false} RankIsOnto<T>(options: seq<seq<T>>, k: nat) returns (index: seq<nat>)
    requires k < Count(options)
    ensures IsIndex(options, index) && Rank(options, index) == k
  {
    if options == [] {
      index := [];
    } else {
      var last := |options| - 1;
      var n := |options[last]|;
      SplitInRange(k, Count(options[..last]), n);
      SplitIs(k, n);
      var q, r := k / n, k % n;
      var front := RankIsOnto(options[..last], q);
      index := front + [r];
      assert index[..last] == front;
    }
  }

  ghost predicate IsRanked<T>(options: seq<seq<T>>, k: nat) {
    exists index :: IsIndex(options, index) && Rank(options, index) == k
  }

  /** The tuples are the choices of one option per parameter: every index tuple has its own place among them, and
      every place belongs to one. */
  lemma {:induction false} EachIndexOnce<T>(options: seq<seq<T>>)
    ensures |Tuples(options)| == Count(options)
    ensures forall i :: IsIndex(options, i) ==>
      Rank(options, i) < |Tuples(options)| && Tuples(options)[Rank(options, i)] == Pick(options, i)
    ensures forall i, j :: IsIndex(options, i) && IsIndex(options, j) && i != j ==> Rank(options, i) != Rank(options, j)
    ensures forall k :: 0 <= k < |Tuples(options)| ==> IsRanked(options, k)
  {
    forall i | IsIndex(options, i)
      ensures Rank(options, i) < |Tuples(options)| && Tuples(options)[Rank(options, i)] == Pick(options, i)
    {
      RankInRange(options, i);
      TupleAtRank(options, i);
    }
    forall i, j | IsIndex(options, i) && IsIndex(options, j) && i != j ensures Rank(options, i) != Rank(options, j) {
      if Rank(options, i) == Rank(options, j) {
        RankIsInjective(options, i, j);
      }
    }
    forall k: nat | k < |Tuples(options)| ensures IsRanked(options, k) {
      var index := RankIsOnto(options, k);
    }
  }

  // Values by parameter name.
  function PointOf(space: seq<Parameter>, tuple: seq<Value>): Point
    requires |tuple| == |space|
  {
    map i | 0 <= i < |space| && LastNamed(space, i) :: space[i].name := tuple[i]
  }

  // No later parameter takes the name over; in a valid space that is always so.
  predicate LastNamed(space: seq<Parameter>, i: nat) {
    i < |space| && forall j :: i < j < |space| ==> space[j].name != space[i].name
  }

  function Grid(space: seq<Parameter>, limit: int): (grid: seq<Point>)
    requires SpaceValid(space)
  {
    if Refused(space, limit) then []
    else TupleLength(AllOptions(space)); Points(space, Tuples(AllOptions(space)))
  }

  // A parameter of an unknown kind, or more points than the limit; a space without parameters is never too large.
  predicate Refused(space: seq<Parameter>, limit: int)
    requires SpaceValid(space)
  {
    (exists i :: 0 <= i < |space| && space[i].OtherParameter?) || (space != [] && Count(AllOptions(space)) > limit)
  }

  lemma {:induction false} CountGrows<T>(options: seq<seq<T>>, k: nat)
    requires k <= |options| && forall i :: k <= i < |options| ==> options[i] != []
    ensures Count(options[..k]) <= Count(options)
    decreases |options|
  {
    if k == |options| {
      assert options[..k] == options;
    } else {
      var front := options[..|options| - 1];
      CountGrows(front, k);
      assert front[..k] == options[..k];
      TimesGrows(Count(front), |options[|options| - 1]|);
    }
  }

  lemma TimesGrows(m: nat, n: nat)
    requires n > 0
    ensures m <= Times(m, n)
  {
  }

  lemma PrefixOfOptions(space: seq<Parameter>, limit: int, k: nat)
    requires SpaceValid(space) && 0 < k <= |space| && Count(AllOptions(space)[..k]) > limit
    ensures Refused(space, limit)
  {
    if forall i :: 0 <= i < |space| ==> !space[i].OtherParameter? {
      CountGrows(AllOptions(space), k);
    }
  }

  // The options of the first k parameters.
  function FirstOptions(space: seq<Parameter>, k: nat): seq<seq<Value>>
    requires SpaceValid(space) && k <= |space|
  {
    AllOptions(space)[..k]
  }

  lemma NextOptions(space: seq<Parameter>, k: nat)
    requires SpaceValid(space) && k < |space|
    ensures FirstOptions(space, k + 1) == FirstOptions(space, k) + [Options(space[k])]
    ensures Count(FirstOptions(space, k + 1)) == Times(Count(FirstOptions(space, k)), |Options(space[k])|)
  {
    assert FirstOptions(space, k + 1)[..k] == FirstOptions(space, k);
  }

  lemma LastOptions(space: seq<Parameter>)
    requires SpaceValid(space)
    ensures FirstOptions(space, |space|) == AllOptions(space)
  {
  }

  // The loop of _grid_values, with its early returns as None.
  method CollectOptions(space: seq<Parameter>, limit: int) returns (collected: Option<seq<seq<Value>>>)
    requires SpaceValid(space)
    ensures collected.None? <==> Refused(space, limit)
    ensures collected.Some? ==> collected.value == AllOptions(space)
  {
    var valueOptions: seq<seq<Value>> := [];
    var total := 1;
    for k := 0 to |space|
      invariant valueOptions == FirstOptions(space, k) && total == Count(FirstOptions(space, k))
      invariant forall i :: 0 <= i < k ==> !space[i].OtherParameter?
      invariant k > 0 ==> total <= limit
    {
      if space[k].OtherParameter? {
        return None;
      }
      var options := Options(space[k]);
      NextOptions(space, k);
      total := Times(total, |options|);
      if total > limit {
        PrefixOfOptions(space, limit, k + 1);
        return None;
      }
      valueOptions := valueOptions + [options];
    }
    LastOptions(space);
    collected := Some(valueOptions);
  }

  // _grid_values
  method GridValues(space: seq<Parameter>, limit: int) returns (grid: seq<Point>)
    requires SpaceValid(space)
    ensures grid == Grid(space, limit)
  {
    var valueOptions := CollectOptions(space, limit);
    if valueOptions.None? {
      return [];
    }
    TupleLength(valueOptions.value);
    grid := Points(space, Tuples(valueOptions.value));
  }

  function Points(space: seq<Parameter>, tuples: seq<seq<Value>>): (points: seq<Point>)
    requires forall k :: 0 <= k < |tuples| ==> |tuples[k]| == |space|
    ensures |points| == |tuples| && forall k :: 0 <= k < |points| ==> points[k] == PointOf(space, tuples[k])
  {
    seq(|tuples|, k requires 0 <= k < |tuples| => PointOf(space, tuples[k]))
  }

  lemma PointOfHas(space: seq<Parameter>, tuple: seq<Value>)
    requires SpaceValid(space) && |tuple| == |space|
    ensures PointOf(space, tuple).Keys == Names(space)
    ensures forall i :: 0 <= i < |space| ==>
      space[i].name in PointOf(space, tuple) && PointOf(space, tuple)[space[i].name] == tuple[i]
  {
    forall i | 0 <= i < |space| ensures space[i].name in PointOf(space, tuple) {
      assert LastNamed(space, i);
    }
  }

  lemma OptionsAreInside(p: Parameter, k: nat)
    requires ParameterValid(p) && k < |Options(p)|
    ensures Contains(p, Options(p)[k])
  {
    if p.ChoiceParameter? {
      assert Same(p.choices[k], Options(p)[k]);
    }
  }

  // The entry at the place of an index tuple gives every parameter the option the tuple picks.
  ghost predicate GridHas(space: seq<Parameter>, limit: int, index: seq<nat>)
    requires SpaceValid(space) && IsIndex(AllOptions(space), index)
  {
    var k := Rank(AllOptions(space), index);
    && k < |Grid(space, limit)|
    && (forall j :: 0 <= j < |space| ==>
          && space[j].name in Grid(space, limit)[k]
          && Grid(space, limit)[k][space[j].name] == AllOptions(space)[j][index[j]])
  }

  lemma {:induction false} EntryAt(space: seq<Parameter>, limit: int, index: seq<nat>)
    requires SpaceValid(space) && !Refused(space, limit) && IsIndex(AllOptions(space), index)
    ensures GridHas(space, limit, index)
  {
    var o := AllOptions(space);
    RankInRange(o, index);
    TupleAtRank(o, index);
    PointOfHas(space, Pick(o, index));
  }

  lemma {:induction false} EntryIsInSpace(space: seq<Parameter>, limit: int, k: nat)
    requires SpaceValid(space) && k < |Grid(space, limit)|
    ensures InSpace(space, Grid(space, limit)[k])
  {
    var o := AllOptions(space);
    var index := RankIsOnto(o, k);
    TupleAtRank(o, index);
    PointOfHas(space, Pick(o, index));
    forall j | 0 <= j < |space| ensures Contains(space[j], Pick(o, index)[j]) {
      OptionsAreInside(space[j], index[j]);
    }
  }

  /** The grid is empty exactly when it is refused; otherwise it has one entry for every index tuple, the point that
      tuple picks, and every entry is a point of the space. */
  lemma GridListsEachIndexOnce(space: seq<Parameter>, limit: int)
    requires SpaceValid(space)
    ensures Grid(space, limit) == [] <==> Refused(space, limit)
    ensures !Refused(space, limit) ==>
      && |Grid(space, limit)| == Count(AllOptions(space))
      && (forall k :: 0 <= k < |Grid(space, limit)| ==> IsRanked(AllOptions(space), k))
      && (forall i :: IsIndex(AllOptions(space), i) ==> GridHas(space, limit, i))
    ensures forall k :: 0 <= k < |Grid(space, limit)| ==> InSpace(space, Grid(space, limit)[k])
  {
    if !Refused(space, limit) {
      EachIndexOnce(AllOptions(space));
      CountGrows(AllOptions(space), 0);
      forall i | IsIndex(AllOptions(space), i) ensures GridHas(space, limit, i) {
        EntryAt(space, limit, i);
      }
    }
    forall k: nat | k < |Grid(space, limit)| ensures InSpace(space, Grid(space, limit)[k]) {
      EntryIsInSpace(space, limit, k);
    }
  }

  // The lower bound, the middle and the upper bound; every integer in range; or one of the choices.
  predicate IsOption(p: Parameter, v: Value) {
    match p
    case FloatParameter(_, lower, upper) => v.Float? && (v.x == lower || v.x + v.x == lower + upper || v.x == upper)
    case IntegerParameter(_, lowest, highest) => v.Int? && lowest <= v.n <= highest
    case ChoiceParameter(_, choices) => v in choices
    case OtherParameter(_, _) => false
  }

  lemma OptionsAre(p: Parameter, v: Value)
    requires ParameterValid(p)
    ensures v in Options(p) <==> IsOption(p, v)
    ensures |Options(p)|
         == match p
            case FloatParameter(_, _, _) => 3
            case IntegerParameter(_, lowest, highest) => highest - lowest + 1
            case ChoiceParameter(_, choices) => |choices|
            case OtherParameter(_, _) => 0
  {
    match p {
      case FloatParameter(_, lower, upper) =>
        assert Options(p)[0] == Float(lower) && Options(p)[1] == Float((lower + upper) / 2.0);
        assert Options(p)[2] == Float(upper);
      case IntegerParameter(_, lowest, highest) =>
        if IsOption(p, v) {
          assert Options(p)[v.n - lowest] == v;
        }
      case _ =>
    }
  }

  lemma IndexOf(space: seq<Parameter>, values: Point) returns (index: seq<nat>)
    requires SpaceValid(space) && Covers(space, values)
    requires forall j :: 0 <= j < |space| ==> values[space[j].name] in Options(space[j])
    ensures IsIndex(AllOptions(space), index)
    ensures forall j :: 0 <= j < |space| ==> AllOptions(space)[j][index[j]] == values[space[j].name]
  {
    index := [];
    for k := 0 to |space|
      invariant |index| == k
      invariant forall j :: 0 <= j < k ==>
        index[j] < |Options(space[j])| && Options(space[j])[index[j]] == values[space[j].name]
    {
      var n :| 0 <= n < |Options(space[k])| && Options(space[k])[n] == values[space[k].name];
      index := index + [n];
    }
  }

  lemma SamePoint(space: seq<Parameter>, v: Point, w: Point)
    requires v.Keys == Names(space) == w.Keys
    requires forall j :: 0 <= j < |space| ==>
      space[j].name in v && space[j].name in w && v[space[j].name] == w[space[j].name]
    ensures v == w
  {
    forall name | name in v ensures name in w && v[name] == w[name] {
      var j :| 0 <= j < |space| && space[j].name == name;
    }
  }

  lemma {:induction false} GridPointPicks(space: seq<Parameter>, limit: int, k: nat, j: nat)
    requires SpaceValid(space) && k < |Grid(space, limit)| && j < |space|
    ensures space[j].name in Grid(space, limit)[k] && Grid(space, limit)[k][space[j].name] in Options(space[j])
  {
    var o := AllOptions(space);
    var index := RankIsOnto(o, k);
    TupleAtRank(o, index);
    PointOfHas(space, Pick(o, index));
    assert Grid(space, limit)[k][space[j].name] == o[j][index[j]];
  }

  lemma {:induction false} PointIsOnGrid(space: seq<Parameter>, limit: int, values: Point)
    requires SpaceValid(space) && !Refused(space, limit) && values.Keys == Names(space) && Covers(space, values)
    requires forall j :: 0 <= j < |space| ==> values[space[j].name] in Options(space[j])
    ensures values in Grid(space, limit)
  {
    var index := IndexOf(space, values);
    EntryAt(space, limit, index);
    var k := Rank(AllOptions(space), index);
    EntryIsInSpace(space, limit, k);
    SamePoint(space, values, Grid(space, limit)[k]);
  }

  /** A grid that is not refused has exactly the points that take every parameter's value from its options: the ends and
      the middle of a range of reals, each integer of a range, each choice. */
  lemma {:induction false} GridIsFactorial(space: seq<Parameter>, limit: int, values: Point)
    requires SpaceValid(space) && !Refused(space, limit) && values.Keys == Names(space) && Covers(space, values)
    ensures values in Grid(space, limit) <==> forall j :: 0 <= j < |space| ==> IsOption(space[j], values[space[j].name])
  {
    if values in Grid(space, limit) {
      var k :| 0 <= k < |Grid(space, limit)| && Grid(space, limit)[k] == values;
      forall j | 0 <= j < |space| ensures IsOption(space[j], values[space[j].name]) {
        GridPointPicks(space, limit, k, j);
        OptionsAre(space[j], values[space[j].name]);
      }
    }
    if forall j :: 0 <= j < |space| ==> IsOption(space[j], values[space[j].name]) {
      forall j | 0 <= j < |space| ensures values[space[j].name] in Options(space[j]) {
        OptionsAre(space[j], values[space[j].name]);
      }
      PointIsOnGrid(space, limit, values);
    }
  }

  /** Of two grid points, the one that is behind in the first parameter on which they differ comes first. */
  lemma {:induction false} GridIsOrdered<T>(options: seq<seq<T>>, i: seq<nat>, j: seq<nat>, first: nat)
    requires IsIndex(options, i) && IsIndex(options, j)
    requires first < |options| && i[..first] == j[..first] && i[first] < j[first]
    ensures Rank(options, i) < Rank(options, j)
  {
    var last := |options| - 1;
    var n := |options[last]|;
    if first < last {
      assert i[..last][..first] == i[..first] && j[..last][..first] == j[..first];
      GridIsOrdered(options[..last], i[..last], j[..last], first);
      var q, r := Rank(options[..last], i[..last]), Rank(options[..last], j[..last]);
      TimesStep(q, n);
      TimesOrder(q + 1, r, n);
    }
  }

  // ----- the encoding -----

  function OneHot(choices: seq<Value>, v: Value): seq<real> {
    seq(|choices|, i requires 0 <= i < |choices| => if Same(v, choices[i]) then 1.0 else 0.0)
  }

  function Scaled(lower: real, upper: real, v: Value): Result<seq<real>, Failure> {
    if upper == lower then Ok([0.0])
    else if AsFloat(v).None? then Err(NotANumber)
    else Ok([(AsFloat(v).value - lower) / (upper - lower)])
  }

  function Segment(p: Parameter, v: Value): Result<seq<real>, Failure> {
    match p
    case FloatParameter(_, lower, upper) => Scaled(lower, upper, v)
    case IntegerParameter(_, lowest, highest) => Scaled(lowest as real, highest as real, v)
    case ChoiceParameter(_, choices) => if IsChoice(choices, v) then Ok(OneHot(choices, v)) else Err(OutsideSpace)
    case OtherParameter(_, _) => Ok([0.0])
  }

  function Encode(space: seq<Parameter>, values: Point): Result<seq<real>, Failure>
    requires Covers(space, values)
  {
    if space == [] then Ok([])
    else
      var last := |space| - 1;
      var front := Encode(space[..last], values);
      var segment := Segment(space[last], values[space[last].name]);
      if front.Err? then front else if segment.Err? then segment else Ok(front.value + segment.value)
  }

  // _encode_values
  method EncodeValues(space: seq<Parameter>, values: Point) returns (encoded: Result<seq<real>, Failure>)
    requires Covers(space, values)
    ensures encoded == Encode(space, values)
  {
    var vector: seq<real> := [];
    for k := 0 to |space|
      invariant Encode(space[..k], values) == Ok(vector)
    {
      assert space[..k + 1][..k] == space[..k];
      var segment := Segment(space[k], values[space[k].name]);
      if segment.Err? {
        ErrorStays(space, values, k + 1);
        return segment;
      }
      vector := vector + segment.value;
    }
    assert space[..|space|] == space;
    encoded := Ok(vector);
  }

  lemma {:induction false} ErrorStays(space: seq<Parameter>, values: Point, k: nat)
    requires Covers(space, values) && k <= |space| && Encode(space[..k], values).Err?
    ensures Encode(space, values) == Encode(space[..k], values)
    decreases |space|
  {
    if k == |space| {
      assert space[..k] == space;
    } else {
      var front := space[..|space| - 1];
      assert front[..k] == space[..k];
      ErrorStays(front, values, k);
    }
  }

  function Width(p: Parameter): nat { if p.ChoiceParameter? then |p.choices| else 1 }

  function TotalWidth(space: seq<Parameter>): nat {
    if space == [] then 0 else TotalWidth(space[..|space| - 1]) + Width(space[|space| - 1])
  }

  lemma {:induction false} EncodeLength(space: seq<Parameter>, values: Point)
    requires Covers(space, values) && Encode(space, values).Ok?
    ensures |Encode(space, values).value| == TotalWidth(space)
  {
    if space != [] {
      EncodeLength(space[..|space| - 1], values);
    }
  }

  // A number by its place in the range, 0 when the range is a point; a choice by a 1 in each place it equals.
  predicate IsSegment(p: Parameter, v: Value, segment: seq<real>) {
    match p
    case FloatParameter(_, lower, upper) => IsPlace(segment, lower, upper, v)
    case IntegerParameter(_, lowest, highest) => IsPlace(segment, lowest as real, highest as real, v)
    case ChoiceParameter(_, choices) =>
      && |segment| == |choices| && IsChoice(choices, v)
      && forall i :: 0 <= i < |segment| ==> segment[i] == if Same(choices[i], v) then 1.0 else 0.0
    case OtherParameter(_, _) => segment == [0.0]
  }

  predicate IsPlace(segment: seq<real>, lower: real, upper: real, v: Value) {
    && |segment| == 1
    && if lower == upper then segment[0] == 0.0
       else AsFloat(v).Some? && lower + Product(segment[0], upper - lower) == AsFloat(v).value
  }

  lemma ScaledIs(lower: real, upper: real, v: Value)
    requires Scaled(lower, upper, v).Ok?
    ensures IsPlace(Scaled(lower, upper, v).value, lower, upper, v)
  {
    if lower != upper {
      QuotientTimes(AsFloat(v).value - lower, upper - lower);
    }
  }

  lemma SegmentIs(p: Parameter, v: Value)
    requires Segment(p, v).Ok?
    ensures IsSegment(p, v, Segment(p, v).value) && |Segment(p, v).value| == Width(p)
  {
    match p {
      case FloatParameter(_, lower, upper) => ScaledIs(lower, upper, v);
      case IntegerParameter(_, lowest, highest) => ScaledIs(lowest as real, highest as real, v);
      case _ =>
    }
  }

  // Where the numbers of a parameter begin.
  function Offset(space: seq<Parameter>, i: nat): nat
    requires i <= |space|
  {
    TotalWidth(space[..i])
  }

  lemma SliceOfFront(a: seq<real>, b: seq<real>, o: nat, w: nat)
    requires o + w <= |a|
    ensures (a + b)[o..o + w] == a[o..o + w]
  {
  }

  lemma SliceAtEnd(a: seq<real>, b: seq<real>)
    ensures (a + b)[|a|..|a| + |b|] == b
  {
  }

  // The numbers of a parameter.
  ghost predicate HasSegmentAt(encoded: seq<real>, o: nat, p: Parameter, v: Value) {
    o + Width(p) <= |encoded| && IsSegment(p, v, encoded[o..o + Width(p)])
  }

  lemma EncodingEnds(space: seq<Parameter>, values: Point)
    requires Covers(space, values) && Encode(space, values).Ok? && space != []
    ensures var last := space[|space| - 1];
      HasSegmentAt(Encode(space, values).value, TotalWidth(space[..|space| - 1]), last, values[last.name])
  {
    var front, last := space[..|space| - 1], space[|space| - 1];
    EncodeLength(front, values);
    SegmentIs(last, values[last.name]);
    SliceAtEnd(Encode(front, values).value, Segment(last, values[last.name]).value);
  }

  lemma EncodingKeeps(space: seq<Parameter>, values: Point, o: nat, p: Parameter, v: Value)
    requires Covers(space, values) && Encode(space, values).Ok? && space != []
    requires HasSegmentAt(Encode(space[..|space| - 1], values).value, o, p, v)
    ensures HasSegmentAt(Encode(space, values).value, o, p, v)
  {
    var front, last := space[..|space| - 1], space[|space| - 1];
    SliceOfFront(Encode(front, values).value, Segment(last, values[last.name]).value, o, Width(p));
  }

  /** The encoding puts the places of all parameters side by side, in order. */
  lemma {:induction false} EncodingIs(space: seq<Parameter>, values: Point, i: nat)
    requires Covers(space, values) && Encode(space, values).Ok? && i < |space|
    ensures HasSegmentAt(Encode(space, values).value, Offset(space, i), space[i], values[space[i].name])
  {
    if i < |space| - 1 {
      var front := space[..|space| - 1];
      EncodingIs(front, values, i);
      assert front[..i] == space[..i];
      EncodingKeeps(space, values, Offset(space, i), space[i], values[space[i].name]);
    } else {
      EncodingEnds(space, values);
    }
  }

  /** The call fails exactly where a value is no choice of its parameter, or a range that is no point needs a number and
      the value is none. */
  lemma {:induction false} EncodesWhen(space: seq<Parameter>, values: Point)
    requires Covers(space, values)
    ensures Encode(space, values).Ok? <==> forall i :: 0 <= i < |space| ==> HasSegment(space[i], values[space[i].name])
  {
    if space != [] {
      var last := |space| - 1;
      EncodesWhen(space[..last], values);
      assert Segment(space[last], values[space[last].name]).Ok? <==> HasSegment(space[last], values[space[last].name]);
      if forall i :: 0 <= i < last ==> HasSegment(space[..last][i], values[space[..last][i].name]) {
        assert forall i :: 0 <= i < last ==> HasSegment(space[i], values[space[i].name]);
      }
    }
  }

  predicate HasSegment(p: Parameter, v: Value) {
    match p
    case FloatParameter(_, lower, upper) => lower == upper || AsFloat(v).Some?
    case IntegerParameter(_, lowest, highest) => lowest == highest || AsFloat(v).Some?
    case ChoiceParameter(_, choices) => IsChoice(choices, v)
    case OtherParameter(_, _) => true
  }

  predicate InUnitCube(vector: seq<real>) {
    forall i :: 0 <= i < |vector| ==> 0.0 <= vector[i] <= 1.0
  }

  lemma ScaledInUnit(lower: real, upper: real, x: real)
    requires lower <= x <= upper && lower < upper
    ensures 0.0 <= (x - lower) / (upper - lower) <= 1.0
  {
    var n, d := x - lower, upper - lower;
    QuotientTimes(n, d);
    ProductOrder(0.0, n / d, d);
    ProductOrder(n / d, 1.0, d);
  }

  lemma SegmentInUnitCube(p: Parameter, v: Value)
    requires ParameterValid(p) && Contains(p, v)
    ensures Segment(p, v).Ok? && InUnitCube(Segment(p, v).value)
  {
    if p.FloatParameter? && p.lower < p.upper {
      ScaledInUnit(p.lower, p.upper, Number(v).value);
    } else if p.IntegerParameter? && p.lowest < p.highest {
      ScaledInUnit(p.lowest as real, p.highest as real, Number(v).value);
    }
  }

  /** A point the space admits encodes, and into the unit cube. */
  lemma {:induction false} EncodesIntoUnitCube(space: seq<Parameter>, values: Point)
    requires SpaceValid(space) && Admits(space, values)
    ensures Encode(space, values).Ok? && InUnitCube(Encode(space, values).value)
  {
    if space != [] {
      var last := |space| - 1;
      EncodesIntoUnitCube(space[..last], values);
      SegmentInUnitCube(space[last], values[space[last].name]);
    }
  }

  // The encoding does not look at the value of such a parameter.
  predicate Blind(p: Parameter) {
    match p
    case FloatParameter(_, lower, upper) => lower == upper
    case IntegerParameter(_, lowest, highest) => lowest == highest
    case ChoiceParameter(_, _) => false
    case OtherParameter(_, _) => true
  }

  predicate AgreeOn(p: Parameter, v: Point, w: Point)
    requires p.name in v && p.name in w
  {
    Blind(p) || if p.ChoiceParameter? then Same(v[p.name], w[p.name]) else AsFloat(v[p.name]) == AsFloat(w[p.name])
  }

  lemma ScaledAgree(lower: real, upper: real, v: Value, w: Value)
    requires lower < upper && Scaled(lower, upper, v).Ok? && Scaled(lower, upper, w).Ok?
    ensures Scaled(lower, upper, v) == Scaled(lower, upper, w) <==> AsFloat(v) == AsFloat(w)
  {
    var d := upper - lower;
    var x, y := AsFloat(v).value - lower, AsFloat(w).value - lower;
    QuotientTimes(x, d);
    QuotientTimes(y, d);
    if Scaled(lower, upper, v) == Scaled(lower, upper, w) {
      assert Scaled(lower, upper, v).value[0] == Scaled(lower, upper, w).value[0];
      assert x / d * d == y / d * d;
      assert AsFloat(v).value == AsFloat(w).value;
    }
  }

  lemma OneHotAgree(choices: seq<Value>, v: Value, w: Value)
    requires IsChoice(choices, v)
    ensures OneHot(choices, v) == OneHot(choices, w) <==> Same(v, w)
  {
    var i :| 0 <= i < |choices| && Same(choices[i], v);
    assert OneHot(choices, v)[i] == 1.0;
    assert OneHot(choices, w)[i] == 1.0 <==> Same(w, choices[i]);
  }

  lemma SegmentsAgree(p: Parameter, v: Point, w: Point)
    requires ParameterValid(p) && p.name in v && p.name in w
    requires Segment(p, v[p.name]).Ok? && Segment(p, w[p.name]).Ok?
    ensures Segment(p, v[p.name]) == Segment(p, w[p.name]) <==> AgreeOn(p, v, w)
    ensures |Segment(p, v[p.name]).value| == Width(p)
  {
    if !Blind(p) {
      match p
      case FloatParameter(_, lower, upper) => ScaledAgree(lower, upper, v[p.name], w[p.name]);
      case IntegerParameter(_, lowest, highest) =>
        ScaledAgree(lowest as real, highest as real, v[p.name], w[p.name]);
      case ChoiceParameter(_, choices) => OneHotAgree(choices, v[p.name], w[p.name]);
    }
  }

  lemma ConcatAgrees(a: seq<real>, b: seq<real>, c: seq<real>, d: seq<real>)
    requires |a| == |c|
    ensures a + b == c + d <==> a == c && b == d
  {
    if a + b == c + d {
      assert a == (a + b)[..|a|] && c == (c + d)[..|a|];
      assert b == (a + b)[|a|..] && d == (c + d)[|a|..];
    }
  }

  /** Two encodings are equal exactly when the points agree on every parameter the encoding looks at. */
  lemma {:induction false} EncodingsAgree(space: seq<Parameter>, v: Point, w: Point)
    requires SpaceValid(space) && Covers(space, v) && Covers(space, w)
    requires Encode(space, v).Ok? && Encode(space, w).Ok?
    ensures Encode(space, v) == Encode(space, w) <==> forall i :: 0 <= i < |space| ==> AgreeOn(space[i], v, w)
  {
    if space != [] {
      var last := |space| - 1;
      var front := space[..last];
      EncodingsAgree(front, v, w);
      EncodeLength(front, v);
      EncodeLength(front, w);
      SegmentsAgree(space[last], v, w);
      ConcatAgrees(Encode(front, v).value, Segment(space[last], v[space[last].name]).value,
                   Encode(front, w).value, Segment(space[last], w[space[last].name]).value);
      assert (forall i :: 0 <= i < |space| ==> AgreeOn(space[i], v, w))
        <==> (forall i :: 0 <= i < |front| ==> AgreeOn(front[i], v, w)) && AgreeOn(space[last], v, w);
    }
  }

  // _recipe_key: the values of the parameters, as Python's tuple equality sees them.
  function Key(space: seq<Parameter>, values: Point): (key: seq<Value>)
    requires Covers(space, values)
  {
    seq(|space|, i requires 0 <= i < |space| => Canonical(values[space[i].name]))
  }

  lemma KeysAgree(space: seq<Parameter>, v: Point, w: Point)
    requires Covers(space, v) && Covers(space, w)
    ensures Key(space, v) == Key(space, w) <==> forall i :: 0 <= i < |space| ==> Same(v[space[i].name], w[space[i].name])
  {
    if Key(space, v) == Key(space, w) {
      forall i | 0 <= i < |space| ensures Same(v[space[i].name], w[space[i].name]) {
        assert Key(space, v)[i] == Key(space, w)[i];
      }
    }
  }

  lemma AgreeInside(p: Parameter, v: Point, w: Point)
    requires ParameterValid(p) && !p.OtherParameter? && p.name in v && p.name in w
    requires Contains(p, v[p.name]) && Contains(p, w[p.name])
    ensures AgreeOn(p, v, w) <==> Same(v[p.name], w[p.name])
  {
  }

  /** Within a space of the known kinds of parameter, the encoding is injective on keys, whatever other fields the
      dictionaries have. */
  lemma {:induction false} EncodingIsInjective(space: seq<Parameter>, v: Point, w: Point)
    requires SpaceValid(space) && Admits(space, v) && Admits(space, w)
    requires forall i :: 0 <= i < |space| ==> !space[i].OtherParameter?
    ensures Encode(space, v).Ok? && Encode(space, w).Ok?
    ensures Encode(space, v) == Encode(space, w) <==> Key(space, v) == Key(space, w)
  {
    EncodesIntoUnitCube(space, v);
    EncodesIntoUnitCube(space, w);
    EncodingsAgree(space, v, w);
    KeysAgree(space, v, w);
    forall i | 0 <= i < |space| ensures AgreeOn(space[i], v, w) <==> Same(v[space[i].name], w[space[i].name]) {
      AgreeInside(space[i], v, w);
    }
  }
}

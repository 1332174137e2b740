// The Bayesian strategy of src/perovskite_bo/strategies.py: which recipes become candidates, and how a candidate is
// scored against the completed and the failed experiments.
module Optimizer {
  import opened Reals
  import opened Scalars
  import opened SearchSpace
  import opened Wrappers

  datatype Status = Completed | Failed | Unfinished

  // An experiment: the recipe's dictionary, and its pce metric if it has one.
  datatype Record = Record(recipe: Point, status: Status, pce: Option<real>)

  // The strategy's settings; sqrt and exp stand for math.sqrt and math.exp.  exp may return 0, as it does once a
  // float underflows.
  datatype Strategy = Strategy(initialRandom: int, candidateCount: int, explorationWeight: real,
                               failurePenaltyRadius: real, sqrt: real -> real, exp: real -> real) {
    ghost predicate Valid() {
      IsSqrt(sqrt) && IsExp(exp)
    }
  }

  // DepositionRecipe: which values from_mapping accepts, and what else the dictionary of the recipe made of them holds.
  datatype Constructor = Constructor(accepts: Point -> bool, rest: Point -> Point) {
    // to_dict() of that recipe
    function ToDict(values: Point): Point { rest(values) + values }
  }

  // A recipe, by the values it is made of, and its encoding.
  datatype Candidate = Candidate(point: Point, vector: seq<real>)

  // Python's key is that of the recipe, which keeps the values it is made of.
  lemma RecipeKeepsKey(space: seq<Parameter>, make: Constructor, values: Point)
    requires Admits(space, values)
    ensures Admits(space, make.ToDict(values)) && Key(space, make.ToDict(values)) == Key(space, values)
  {
  }

  // ----- collecting candidates -----

  predicate AllInSpace(space: seq<Parameter>, offers: seq<Point>) {
    forall i :: 0 <= i < |offers| ==> InSpace(space, offers[i])
  }

  predicate AllAccepted(make: Constructor, offers: seq<Point>) {
    forall i :: 0 <= i < |offers| ==> make.accepts(offers[i])
  }

  // The ValueError of SearchSpace.validate, or that of the recipe's constructor.
  function Refusal(space: seq<Parameter>, make: Constructor, values: Point): Option<Failure> {
    if !InSpace(space, values) then Some(OutsideSpace)
    else if !make.accepts(values) then Some(RecipeRejected)
    else None
  }

  predicate Listed(space: seq<Parameter>, candidates: seq<Candidate>, key: seq<Value>)
    requires forall i :: 0 <= i < |candidates| ==> Covers(space, candidates[i].point)
  {
    exists i :: 0 <= i < |candidates| && Key(space, candidates[i].point) == key
  }

  // The offers that are neither observed nor a repetition, in order.
  function Collect(space: seq<Parameter>, observed: set<seq<Value>>, offers: seq<Point>): (r: seq<Candidate>)
    requires SpaceValid(space) && AllInSpace(space, offers)
    ensures forall i :: 0 <= i < |r| ==> Covers(space, r[i].point)
  {
    if offers == [] then []
    else
      var earlier := Collect(space, observed, offers[..|offers| - 1]);
      var values := offers[|offers| - 1];
      if Key(space, values) in observed || Listed(space, earlier, Key(space, values)) then earlier
      else
        EncodesIntoUnitCube(space, values);
        earlier + [Candidate(values, Encode(space, values).value)]
  }

  lemma CollectOneMore(space: seq<Parameter>, observed: set<seq<Value>>, offers: seq<Point>, values: Point)
    requires SpaceValid(space) && AllInSpace(space, offers) && InSpace(space, values)
    ensures AllInSpace(space, offers + [values]) && Encode(space, values).Ok?
    ensures var earlier := Collect(space, observed, offers);
      Collect(space, observed, offers + [values]) ==
      if Key(space, values) in observed || Listed(space, earlier, Key(space, values)) then earlier
      else earlier + [Candidate(values, Encode(space, values).value)]
  {
    assert (offers + [values])[..|offers|] == offers;
    EncodesIntoUnitCube(space, values);
  }

  // A candidate is an offer with its own encoding, and untried.
  ghost predicate IsUntried(space: seq<Parameter>, observed: set<seq<Value>>, offers: seq<Point>, c: Candidate) {
    && c.point in offers && InSpace(space, c.point) && Encode(space, c.point) == Ok(c.vector)
    && Key(space, c.point) !in observed
  }

  lemma StillListed(space: seq<Parameter>, earlier: seq<Candidate>, later: seq<Candidate>, key: seq<Value>)
    requires forall i :: 0 <= i < |later| ==> Covers(space, later[i].point)
    requires |earlier| <= |later| && forall i :: 0 <= i < |earlier| ==> later[i] == earlier[i]
    requires Listed(space, earlier, key)
    ensures Listed(space, later, key)
  {
    var i :| 0 <= i < |earlier| && Key(space, earlier[i].point) == key;
    assert Key(space, later[i].point) == key;
  }

  lemma {:induction false} EachIsUntried(space: seq<Parameter>, observed: set<seq<Value>>, offers: seq<Point>)
    requires SpaceValid(space) && AllInSpace(space, offers)
    ensures forall c :: c in Collect(space, observed, offers) ==> IsUntried(space, observed, offers, c)
  {
    if offers != [] {
      var front, values := offers[..|offers| - 1], offers[|offers| - 1];
      EachIsUntried(space, observed, front);
      EncodesIntoUnitCube(space, values);
      forall c | c in Collect(space, observed, offers) ensures IsUntried(space, observed, offers, c) {
        if c in Collect(space, observed, front) {
          assert c.point in front;
        }
      }
    }
  }

  predicate DistinctKeys(space: seq<Parameter>, candidates: seq<Candidate>)
    requires forall i :: 0 <= i < |candidates| ==> Covers(space, candidates[i].point)
  {
    forall i, j :: 0 <= i < j < |candidates| ==>
      Key(space, candidates[i].point) != Key(space, candidates[j].point)
  }

  lemma {:induction false} KeysAreDistinct(space: seq<Parameter>, observed: set<seq<Value>>, offers: seq<Point>)
    requires SpaceValid(space) && AllInSpace(space, offers)
    ensures DistinctKeys(space, Collect(space, observed, offers))
  {
    if offers != [] {
      KeysAreDistinct(space, observed, offers[..|offers| - 1]);
      var earlier, r := Collect(space, observed, offers[..|offers| - 1]), Collect(space, observed, offers);
      forall i, j | 0 <= i < j < |r| ensures Key(space, r[i].point) != Key(space, r[j].point) {
        assert r[i] == earlier[i];
        if j < |earlier| {
          assert r[j] == earlier[j];
          assert Key(space, earlier[i].point) != Key(space, earlier[j].point);
        } else {
          assert !Listed(space, earlier, Key(space, r[j].point));
          assert Key(space, earlier[i].point) != Key(space, r[j].point);
        }
      }
    }
  }

  lemma {:induction false} NoneIsLost(space: seq<Parameter>, observed: set<seq<Value>>, offers: seq<Point>, k: nat)
    requires SpaceValid(space) && AllInSpace(space, offers) && k < |offers| && Key(space, offers[k]) !in observed
    ensures Listed(space, Collect(space, observed, offers), Key(space, offers[k]))
    decreases |offers|
  {
    if k < |offers| - 1 {
      NoneIsLost(space, observed, offers[..|offers| - 1], k);
      ListedAfterwards(space, observed, offers, Key(space, offers[k]));
    } else {
      LastIsListed(space, observed, offers);
    }
  }

  lemma ListedAfterwards(space: seq<Parameter>, observed: set<seq<Value>>, offers: seq<Point>, key: seq<Value>)
    requires SpaceValid(space) && AllInSpace(space, offers) && offers != []
    requires Listed(space, Collect(space, observed, offers[..|offers| - 1]), key)
    ensures Listed(space, Collect(space, observed, offers), key)
  {
    StillListed(space, Collect(space, observed, offers[..|offers| - 1]), Collect(space, observed, offers), key);
  }

  lemma LastIsListed(space: seq<Parameter>, observed: set<seq<Value>>, offers: seq<Point>)
    requires SpaceValid(space) && AllInSpace(space, offers) && offers != []
    requires Key(space, offers[|offers| - 1]) !in observed
    ensures Listed(space, Collect(space, observed, offers), Key(space, offers[|offers| - 1]))
  {
    var key := Key(space, offers[|offers| - 1]);
    if Listed(space, Collect(space, observed, offers[..|offers| - 1]), key) {
      ListedAfterwards(space, observed, offers, key);
    } else {
      var r := Collect(space, observed, offers);
      assert Key(space, r[|r| - 1].point) == key;
    }
  }

  /** The candidates are untried points of the space, no two with the same key, and no untried offer is lost. */
  lemma {:induction false} CandidatesAreUntried(space: seq<Parameter>, observed: set<seq<Value>>, offers: seq<Point>)
    requires SpaceValid(space) && AllInSpace(space, offers)
    ensures var r := Collect(space, observed, offers);
      && (forall c :: c in r ==> IsUntried(space, observed, offers, c))
      && DistinctKeys(space, r)
      && (forall i :: 0 <= i < |offers| ==>
            Key(space, offers[i]) in observed || Listed(space, r, Key(space, offers[i])))
  {
    EachIsUntried(space, observed, offers);
    KeysAreDistinct(space, observed, offers);
    forall i: nat | i < |offers| && Key(space, offers[i]) !in observed
      ensures Listed(space, Collect(space, observed, offers), Key(space, offers[i]))
    {
      NoneIsLost(space, observed, offers, i);
    }
  }

  // The dictionary of candidates; a Python dictionary lists its keys in order of insertion.
  class CandidateTable {
    var keys: seq<seq<Value>>
    var entries: map<seq<Value>, Candidate>

    constructor ()
      ensures keys == [] && entries == map[]
    {
      keys, entries := [], map[];
    }

    // The table holds the candidates listed, in that order.
    ghost predicate Holds(space: seq<Parameter>, candidates: seq<Candidate>)
      reads this
    {
      && |keys| == |candidates| && (forall key :: key in entries <==> key in keys)
      && (forall i :: 0 <= i < |candidates| ==>
            && Covers(space, candidates[i].point) && keys[i] == Key(space, candidates[i].point)
            && keys[i] in entries && entries[keys[i]] == candidates[i])
    }

    // _add_candidate
    method AddCandidate(space: seq<Parameter>, make: Constructor, observed: set<seq<Value>>,
                        ghost offers: seq<Point>, values: Point)
      returns (failure: Option<Failure>)
      requires SpaceValid(space) && AllInSpace(space, offers) && Holds(space, Collect(space, observed, offers))
      modifies this
      ensures failure == Refusal(space, make, values)
      ensures failure.Some? ==> unchanged(this)
      ensures failure.None? ==>
        AllInSpace(space, offers + [values]) && Holds(space, Collect(space, observed, offers + [values]))
    {
      if !InSpace(space, values) {
        return Some(OutsideSpace);
      }
      if !make.accepts(values) {
        return Some(RecipeRejected);
      }
      failure := None;
      ghost var earlier := Collect(space, observed, offers);
      CollectOneMore(space, observed, offers, values);
      RecipeKeepsKey(space, make, values);
      var key := Key(space, make.ToDict(values));
      assert key in entries <==> Listed(space, earlier, key) by {
        KeysAreListed(space, earlier, key);
      }
      if key in observed || key in entries {
        return;
      }
      var vector := EncodeValues(space, values);
      Insert(space, earlier, key, Candidate(values, vector.value));
    }

    method Insert(space: seq<Parameter>, ghost candidates: seq<Candidate>, key: seq<Value>, c: Candidate)
      requires Holds(space, candidates) && key !in entries && Covers(space, c.point) && key == Key(space, c.point)
      modifies this
      ensures Holds(space, candidates + [c])
    {
      keys := keys + [key];
      entries := entries[key := c];
    }

    lemma KeysAreListed(space: seq<Parameter>, candidates: seq<Candidate>, key: seq<Value>)
      requires Holds(space, candidates)
      ensures key in entries <==> Listed(space, candidates, key)
    {
      if key in entries {
        var i :| 0 <= i < |keys| && keys[i] == key;
        assert Key(space, candidates[i].point) == key;
      }
    }

    // The candidates in order of insertion.
    method Values(space: seq<Parameter>, ghost candidates: seq<Candidate>) returns (r: seq<Candidate>)
      requires Holds(space, candidates)
      ensures r == candidates
    {
      r := [];
      for i := 0 to |keys|
        invariant r == candidates[..i]
      {
        r := r + [entries[keys[i]]];
      }
    }
  }

  lemma InSpaceConcat(space: seq<Parameter>, some: seq<Point>, others: seq<Point>)
    ensures AllInSpace(space, some + others) <==> AllInSpace(space, some) && AllInSpace(space, others)
  {
    if AllInSpace(space, some + others) {
      forall i | 0 <= i < |some| ensures InSpace(space, some[i]) {
        assert some[i] == (some + others)[i];
      }
      forall i | 0 <= i < |others| ensures InSpace(space, others[i]) {
        assert others[i] == (some + others)[|some| + i];
      }
    }
  }

  lemma RefusedOffer(space: seq<Parameter>, make: Constructor, offers: seq<Point>, i: nat)
    requires i < |offers| && Refusal(space, make, offers[i]).Some?
    ensures !(AllInSpace(space, offers) && AllAccepted(make, offers))
  {
  }

  lemma OfferTaken(space: seq<Parameter>, make: Constructor, offers: seq<Point>, i: nat)
    requires i < |offers| && Refusal(space, make, offers[i]).None? && AllAccepted(make, offers[..i])
    ensures offers[..i + 1] == offers[..i] + [offers[i]] && AllAccepted(make, offers[..i + 1])
  {
  }

  // The table takes the offers one by one, up to the first that is refused.
  method AddAll(table: CandidateTable, space: seq<Parameter>, make: Constructor, observed: set<seq<Value>>,
                offers: seq<Point>)
    returns (failure: Option<Failure>)
    requires SpaceValid(space) && table.keys == [] && table.entries == map[]
    modifies table
    ensures failure.None? <==> AllInSpace(space, offers) && AllAccepted(make, offers)
    ensures failure.None? ==> table.Holds(space, Collect(space, observed, offers))
  {
    for i := 0 to |offers|
      invariant AllInSpace(space, offers[..i]) && AllAccepted(make, offers[..i])
      invariant table.Holds(space, Collect(space, observed, offers[..i]))
    {
      ghost var taken := offers[..i];
      failure := table.AddCandidate(space, make, observed, taken, offers[i]);
      if failure.Some? {
        RefusedOffer(space, make, offers, i);
        return;
      }
      OfferTaken(space, make, offers, i);
    }
    failure := None;
    assert offers[..|offers|] == offers;
  }

  // _candidate_recipes: the grid, then candidate_count random draws.
  method CandidateRecipes(space: seq<Parameter>, make: Constructor, observed: set<seq<Value>>, limit: int,
                          draws: seq<Point>)
    returns (r: Result<seq<Candidate>, Failure>)
    requires SpaceValid(space)
    ensures r.Ok? <==> AllInSpace(space, draws) && AllAccepted(make, Grid(space, limit) + draws)
    ensures r.Ok? ==> AllInSpace(space, Grid(space, limit) + draws)
    ensures r.Ok? ==> r.value == Collect(space, observed, Grid(space, limit) + draws)
  {
    var grid := GridValues(space, limit);
    OffersInSpace(space, limit, draws);
    var table := new CandidateTable();
    var failure := AddAll(table, space, make, observed, grid + draws);
    if failure.Some? {
      return Err(failure.value);
    }
    var values := table.Values(space, Collect(space, observed, grid + draws));
    r := Ok(values);
  }

  lemma OffersInSpace(space: seq<Parameter>, limit: int, draws: seq<Point>)
    requires SpaceValid(space)
    ensures AllInSpace(space, Grid(space, limit) + draws) <==> AllInSpace(space, draws)
  {
    GridListsEachIndexOnce(space, limit);
    InSpaceConcat(space, Grid(space, limit), draws);
  }

  // ----- distance and feasibility -----

  // zip stops at the shorter vector.
  function SquaredDistance(a: seq<real>, b: seq<real>): (d: real)
    ensures d >= 0.0
  {
    if a == [] || b == [] then 0.0
    else
      SquareIsNonNegative(a[0] - b[0]);
      Product(a[0] - b[0], a[0] - b[0]) + SquaredDistance(a[1..], b[1..])
  }

  lemma {:induction false} ZeroDistance(a: seq<real>, b: seq<real>)
    requires |a| == |b|
    ensures SquaredDistance(a, b) == 0.0 <==> a == b
  {
    if a != [] {
      ZeroDistance(a[1..], b[1..]);
      assert a == b <==> a[0] == b[0] && a[1..] == b[1..] by {
        assert a == [a[0]] + a[1..] && b == [b[0]] + b[1..];
      }
      SquareIsNonNegative(a[0] - b[0]);
      if SquaredDistance(a, b) == 0.0 {
        ProductIsZero(a[0] - b[0], a[0] - b[0]);
      }
    }
  }

  function Distance(a: seq<real>, b: seq<real>, s: Strategy): (d: real)
    requires s.Valid()
    ensures d >= 0.0
  {
    s.sqrt(SquaredDistance(a, b))
  }

  lemma SqrtIsZero(sqrt: real -> real, x: real)
    requires IsSqrt(sqrt) && x >= 0.0
    ensures sqrt(x) == 0.0 <==> x == 0.0
  {
    ProductSigns(sqrt(x), sqrt(x));
    if x == 0.0 {
      ProductIsZero(sqrt(x), sqrt(x));
    }
  }

  function Nearest(candidate: seq<real>, vectors: seq<seq<real>>, s: Strategy): (d: real)
    requires s.Valid() && vectors != []
    ensures d >= 0.0
  {
    var d := Distance(candidate, vectors[0], s);
    if |vectors| == 1 then d else Min(d, Nearest(candidate, vectors[1..], s))
  }

  lemma {:induction false} NearestIs(candidate: seq<real>, vectors: seq<seq<real>>, s: Strategy)
    requires vectors != [] && s.Valid() && forall i :: 0 <= i < |vectors| ==> |vectors[i]| == |candidate|
    ensures Nearest(candidate, vectors, s) == 0.0 <==> candidate in vectors
  {
    ZeroDistance(candidate, vectors[0]);
    SqrtIsZero(s.sqrt, SquaredDistance(candidate, vectors[0]));
    if |vectors| > 1 {
      NearestIs(candidate, vectors[1..], s);
      assert vectors == [vectors[0]] + vectors[1..];
    }
  }

  // _feasibility
  function Feasibility(candidate: seq<real>, failed: seq<seq<real>>, s: Strategy): real
    requires s.Valid()
  {
    if failed == [] then 1.0
    else
      var nearest := Nearest(candidate, failed, s);
      if nearest == 0.0 then 0.0
      else if nearest >= s.failurePenaltyRadius then 1.0
      else nearest / s.failurePenaltyRadius
  }

  lemma ProperFraction(n: real, d: real)
    requires 0.0 < n < d
    ensures 0.0 < n / d < 1.0
  {
    QuotientTimes(n, d);
    ProductOrder(n / d, 0.0, d);
    ProductOrder(1.0, n / d, d);
  }

  /** Feasibility is a fraction, and 0 exactly when some failed experiment has the candidate's encoding. */
  lemma FeasibilityIsZero(candidate: seq<real>, failed: seq<seq<real>>, s: Strategy)
    requires s.Valid() && forall i :: 0 <= i < |failed| ==> |failed[i]| == |candidate|
    ensures 0.0 <= Feasibility(candidate, failed, s) <= 1.0
    ensures Feasibility(candidate, failed, s) == 0.0 <==> candidate in failed
  {
    if failed != [] {
      NearestIs(candidate, failed, s);
      var nearest, radius := Nearest(candidate, failed, s), s.failurePenaltyRadius;
      if 0.0 < nearest < radius {
        ProperFraction(nearest, radius);
      }
    }
  }

  predicate Encodable(space: seq<Parameter>, recipes: seq<Point>) {
    forall i :: 0 <= i < |recipes| ==> Covers(space, recipes[i]) && Encode(space, recipes[i]).Ok?
  }

  function Vectors(space: seq<Parameter>, recipes: seq<Point>): seq<seq<real>>
    requires Encodable(space, recipes)
  {
    seq(|recipes|, i requires 0 <= i < |recipes| => Encode(space, recipes[i]).value)
  }

  // The encoding tells the candidate from a failed recipe by none of the parameters.
  ghost predicate LooksFailed(space: seq<Parameter>, point: Point, failed: seq<Point>)
    requires Covers(space, point) && forall i :: 0 <= i < |failed| ==> Covers(space, failed[i])
  {
    exists i :: 0 <= i < |failed| && LooksLike(space, point, failed[i])
  }

  ghost predicate LooksLike(space: seq<Parameter>, v: Point, w: Point)
    requires Covers(space, v) && Covers(space, w)
  {
    forall j :: 0 <= j < |space| ==> AgreeOn(space[j], v, w)
  }

  /** A candidate is ruled out exactly when it agrees with some failed recipe on every parameter that has more than
      one value to tell apart. */
  lemma RuledOutWhen(space: seq<Parameter>, point: Point, failed: seq<Point>, s: Strategy)
    requires SpaceValid(space) && s.Valid() && Covers(space, point) && Encode(space, point).Ok?
    requires Encodable(space, failed)
    ensures Feasibility(Encode(space, point).value, Vectors(space, failed), s) == 0.0 <==> LooksFailed(space, point, failed)
  {
    var vectors := Vectors(space, failed);
    EncodeLength(space, point);
    forall i | 0 <= i < |failed|
      ensures |vectors[i]| == TotalWidth(space)
      ensures vectors[i] == Encode(space, point).value <==> LooksLike(space, point, failed[i])
    {
      EncodeLength(space, failed[i]);
      EncodingsAgree(space, point, failed[i]);
    }
    FeasibilityIsZero(Encode(space, point).value, vectors, s);
    if LooksFailed(space, point, failed) {
      var i :| 0 <= i < |failed| && LooksLike(space, point, failed[i]);
      assert vectors[i] == Encode(space, point).value;
    }
  }

  ghost predicate KnownKinds(space: seq<Parameter>) {
    forall i :: 0 <= i < |space| ==> !space[i].OtherParameter?
  }

  lemma NotFailed(space: seq<Parameter>, point: Point, failed: Point)
    requires SpaceValid(space) && KnownKinds(space) && Admits(space, point) && Admits(space, failed)
    requires Key(space, point) != Key(space, failed)
    ensures Encode(space, failed).Ok? && !LooksLike(space, point, failed)
  {
    EncodingIsInjective(space, point, failed);
    EncodingsAgree(space, point, failed);
  }

  /** If the space admits every failed recipe, whatever other fields those have, and their keys are observed, then no
      candidate is ruled out. */
  lemma {:induction false} NoCandidateIsRuledOut(space: seq<Parameter>, observed: set<seq<Value>>, offers: seq<Point>,
                                                 failed: seq<Point>, k: nat, s: Strategy)
    requires SpaceValid(space) && KnownKinds(space) && AllInSpace(space, offers) && s.Valid()
    requires forall i :: 0 <= i < |failed| ==> Admits(space, failed[i]) && Key(space, failed[i]) in observed
    requires k < |Collect(space, observed, offers)|
    ensures Encodable(space, failed)
    ensures Feasibility(Collect(space, observed, offers)[k].vector, Vectors(space, failed), s) > 0.0
  {
    EachIsUntried(space, observed, offers);
    var c := Collect(space, observed, offers)[k];
    assert IsUntried(space, observed, offers, c);
    forall i | 0 <= i < |failed| ensures Encode(space, failed[i]).Ok? && !LooksLike(space, c.point, failed[i]) {
      NotFailed(space, c.point, failed[i]);
    }
    RuledOutWhen(space, c.point, failed, s);
    FeasibilityIsFraction(space, c.point, failed, s);
  }

  lemma FeasibilityIsFraction(space: seq<Parameter>, point: Point, failed: seq<Point>, s: Strategy)
    requires SpaceValid(space) && s.Valid() && Covers(space, point) && Encode(space, point).Ok?
    requires Encodable(space, failed)
    ensures Feasibility(Encode(space, point).value, Vectors(space, failed), s) >= 0.0
  {
    EncodeLength(space, point);
    forall i | 0 <= i < |failed| ensures |Vectors(space, failed)[i]| == TotalWidth(space) {
      EncodeLength(space, failed[i]);
    }
    FeasibilityIsZero(Encode(space, point).value, Vectors(space, failed), s);
  }

  /** With a history of recipes the space admits, no candidate that the strategy collects has feasibility 0. */
  lemma AdmittedHistoryRulesNothingOut(space: seq<Parameter>, history: seq<Record>, offers: seq<Point>, k: nat, s: Strategy)
    requires SpaceValid(space) && KnownKinds(space) && AllInSpace(space, offers) && s.Valid()
    requires HistoryCovers(space, history) && forall i :: 0 <= i < |history| ==> Admits(space, history[i].recipe)
    requires k < |Collect(space, Observed(space, history), offers)|
    ensures Encodable(space, Recipes(FailedOf(history)))
    ensures Feasibility(Collect(space, Observed(space, history), offers)[k].vector,
                        Vectors(space, Recipes(FailedOf(history))), s) > 0.0
  {
    var failed := Recipes(FailedOf(history));
    forall i | 0 <= i < |failed| ensures Admits(space, failed[i]) && Key(space, failed[i]) in Observed(space, history) {
      var j :| 0 <= j < |history| && history[j] == FailedOf(history)[i];
    }
    NoCandidateIsRuledOut(space, Observed(space, history), offers, failed, k, s);
  }

  // A parameter the encoding does not look at makes no difference to it.
  lemma {:induction false} BlindToOne(space: seq<Parameter>, point: Point, i: nat, v: Value)
    requires SpaceValid(space) && Covers(space, point) && i < |space| && Blind(space[i])
    ensures Encode(space, point[space[i].name := v]) == Encode(space, point)
    decreases |space|
  {
    var last := |space| - 1;
    if i < last {
      BlindToOne(space[..last], point, i, v);
    } else {
      OthersAlike(space[..last], point, space[i].name, v);
      assert Segment(space[i], v) == Segment(space[i], point[space[i].name]);
    }
  }

  lemma {:induction false} OthersAlike(space: seq<Parameter>, point: Point, name: string, v: Value)
    requires Covers(space, point) && forall i :: 0 <= i < |space| ==> space[i].name != name
    ensures Encode(space, point[name := v]) == Encode(space, point)
  {
    if space != [] {
      OthersAlike(space[..|space| - 1], point, name, v);
    }
  }

  /** A history outside the space rules points out.  In every space with a parameter the encoding does not look at, such
      as a number whose bounds coincide, every point of the space is ruled out, although it is untried, by the failed
      recipe that differs from it in that parameter alone. */
  lemma OutsideHistoryRulesOut(space: seq<Parameter>, point: Point, i: nat, v: Value, s: Strategy)
    requires SpaceValid(space) && s.Valid() && InSpace(space, point)
    requires i < |space| && Blind(space[i]) && !Same(v, point[space[i].name])
    ensures var failed := point[space[i].name := v];
      && Covers(space, failed) && Key(space, point) != Key(space, failed)
      && Encodable(space, [failed]) && Encode(space, point).Ok?
      && Feasibility(Encode(space, point).value, Vectors(space, [failed]), s) == 0.0
  {
    var failed := point[space[i].name := v];
    EncodesIntoUnitCube(space, point);
    BlindToOne(space, point, i, v);
    assert Key(space, point)[i] != Key(space, failed)[i];
    EncodingsAgree(space, point, failed);
    assert LooksLike(space, point, [failed][0]);
    RuledOutWhen(space, point, [failed], s);
  }

  // ----- the acquisition score -----

  // The scores, each times its weight, summed up.
  function WeightedSum(weights: seq<real>, scores: seq<real>): real {
    if weights == [] || scores == [] then 0.0
    else Product(weights[0], scores[0]) + WeightedSum(weights[1..], scores[1..])
  }

  function Squares(scores: seq<real>, mean: real): seq<real> {
    seq(|scores|, i requires 0 <= i < |scores| => Product(scores[i] - mean, scores[i] - mean))
  }

  function Similarity(a: seq<real>, b: seq<real>, s: Strategy): (w: real)
    requires s.Valid()
    ensures w >= 0.0
  {
    var d := Distance(a, b, s);
    s.exp(-Product(d, d))
  }

  function Weights(candidate: seq<real>, vectors: seq<seq<real>>, s: Strategy): seq<real>
    requires s.Valid()
  {
    seq(|vectors|, i requires 0 <= i < |vectors| => Similarity(candidate, vectors[i], s))
  }

  // The weighted mean and variance of the scores; without any weight, the plain mean.
  function Estimate(weights: seq<real>, scores: seq<real>): (real, real)
    requires scores != []
  {
    if Sum(weights) == 0.0 then (Mean(scores), 0.0)
    else
      var mean := WeightedSum(weights, scores) / Sum(weights);
      (mean, WeightedSum(weights, Squares(scores, mean)) / Sum(weights))
  }

  lemma {:induction false} WeightsAreNonNegative(weights: seq<real>)
    requires forall i :: 0 <= i < |weights| ==> weights[i] >= 0.0
    ensures Sum(weights) >= 0.0
  {
    if weights != [] {
      WeightsAreNonNegative(weights[1..]);
    }
  }

  lemma {:induction false} WeightedSumBounds(weights: seq<real>, scores: seq<real>, low: real, high: real)
    requires |weights| == |scores| && forall i :: 0 <= i < |weights| ==> weights[i] >= 0.0
    requires forall i :: 0 <= i < |scores| ==> low <= scores[i] <= high
    ensures Product(low, Sum(weights)) <= WeightedSum(weights, scores) <= Product(high, Sum(weights))
  {
    if weights == [] {
      ProductSigns(low, 0.0);
      ProductSigns(high, 0.0);
    } else {
      WeightedSumBounds(weights[1..], scores[1..], low, high);
      Share(weights[0], scores[0], low, high);
      ProductSpread(low, weights[0], Sum(weights[1..]));
      ProductSpread(high, weights[0], Sum(weights[1..]));
    }
  }

  lemma Share(weight: real, score: real, low: real, high: real)
    requires weight >= 0.0 && low <= score <= high
    ensures Product(low, weight) <= Product(weight, score) <= Product(high, weight)
  {
    ProductSigns(score - low, weight);
    ProductSigns(high - score, weight);
    ProductDifference(score, low, weight);
    ProductDifference(high, score, weight);
    assert Product(weight, score) == Product(score, weight);
  }

  lemma SquareBound(x: real, r: real)
    requires -r <= x <= r
    ensures 0.0 <= Product(x, x) <= Product(r, r)
  {
    AbsProduct(x, x);
    ProductBound(Abs(x), Abs(x), r, r);
    ProductSigns(Abs(x), Abs(x));
  }

  /** Whatever the weights, the estimated mean lies within the range of the scores, and the variance within the square
      of that range. */
  lemma EstimateInRange(weights: seq<real>, scores: seq<real>, low: real, high: real)
    requires scores != [] && |weights| == |scores| && forall i :: 0 <= i < |weights| ==> weights[i] >= 0.0
    requires forall i :: 0 <= i < |scores| ==> low <= scores[i] <= high
    ensures low <= Estimate(weights, scores).0 <= high
    ensures 0.0 <= Estimate(weights, scores).1 <= Product(high - low, high - low)
  {
    var mean := Estimate(weights, scores).0;
    WeightsAreNonNegative(weights);
    assert low <= scores[0] <= high;
    ProductSigns(high - low, high - low);
    if Sum(weights) == 0.0 {
      MeanInRange(scores, low, high);
    } else {
      WeightedSumBounds(weights, scores, low, high);
      QuotientBounds(WeightedSum(weights, scores), Sum(weights), low, high);
      forall i | 0 <= i < |scores| ensures 0.0 <= Squares(scores, mean)[i] <= Product(high - low, high - low) {
        SquareBound(scores[i] - mean, high - low);
      }
      WeightedSumBounds(weights, Squares(scores, mean), 0.0, Product(high - low, high - low));
      QuotientBounds(WeightedSum(weights, Squares(scores, mean)), Sum(weights), 0.0, Product(high - low, high - low));
    }
  }

  lemma RootBounds(sqrt: real -> real, x: real, r: real)
    requires IsSqrt(sqrt) && x >= 0.0 && r >= 0.0
    ensures x <= Product(r, r) ==> sqrt(x) <= r
    ensures x >= Product(r, r) ==> sqrt(x) >= r
  {
    var y := sqrt(x);
    assert Product(y, y) == x;
    assert Product(y - r, y + r) == Product(y, y) - Product(r, r);
    if y > r {
      ProductOrder(0.0, y - r, y + r);
      ProductOrder(y - r, 0.0, y + r);
    } else if y < r {
      ProductOrder(y - r, 0.0, y + r);
      ProductOrder(0.0, y - r, y + r);
    }
  }

  // The spread of the scores, less the more weight there is.
  function Uncertainty(variance: real, weight: real, s: Strategy): (u: real)
    requires s.Valid() && weight >= 0.0
  {
    RootBounds(s.sqrt, 1.0 + weight, 1.0);
    s.sqrt(if variance < 0.0 then 0.0 else variance) / s.sqrt(1.0 + weight)
  }

  lemma UncertaintyBounds(variance: real, weight: real, s: Strategy, r: real)
    requires s.Valid() && weight >= 0.0 && r >= 0.0 && 0.0 <= variance <= Product(r, r)
    ensures 0.0 <= Uncertainty(variance, weight, s) <= r
  {
    RootBounds(s.sqrt, 1.0 + weight, 1.0);
    RootBounds(s.sqrt, variance, r);
    var root, d := s.sqrt(variance), s.sqrt(1.0 + weight);
    ProductSigns(r, d - 1.0);
    ProductDifference(d, 1.0, r);
    assert Product(r, d) >= r;
    ProductSigns(0.0, d);
    QuotientBounds(root, d, 0.0, r);
  }

  // _acquisition; without a completed experiment the plain mean divides by zero.
  function Acquisition(candidate: seq<real>, completed: seq<seq<real>>, scores: seq<real>, failed: seq<seq<real>>,
                       s: Strategy): Result<real, Failure>
    requires s.Valid() && |scores| == |completed|
  {
    if scores == [] then Err(DivisionByZero)
    else
      var weights := Weights(candidate, completed, s);
      WeightsAreNonNegative(weights);
      var (mean, variance) := Estimate(weights, scores);
      var bonus := Product(s.explorationWeight, Uncertainty(variance, Sum(weights), s));
      Ok(Product(mean + bonus, Feasibility(candidate, failed, s)))
  }

  lemma ScaledDown(x: real, f: real, low: real, high: real)
    requires low <= x <= high && 0.0 <= f <= 1.0
    ensures Min(low, 0.0) <= Product(x, f) <= (if high > 0.0 then high else 0.0)
  {
    ProductSigns(x, f);
    if x >= 0.0 {
      ProductBetween(f, x);
      assert Product(f, x) == Product(x, f);
    } else {
      ProductBetween(f, -x);
      ProductNegate(f, x);
      assert Product(f, x) == Product(x, f);
    }
  }

  /** With a non-negative exploration weight the score of a candidate is bounded by the completed scores: the mean never
      leaves their range, the exploration bonus is at most that range times the weight, and a feasibility below 1 only
      draws the score towards 0.  A candidate that is ruled out scores 0. */
  lemma AcquisitionInRange(candidate: seq<real>, completed: seq<seq<real>>, scores: seq<real>, failed: seq<seq<real>>,
                           s: Strategy, low: real, high: real)
    requires s.Valid() && scores != [] && |scores| == |completed| && s.explorationWeight >= 0.0
    requires forall i :: 0 <= i < |scores| ==> low <= scores[i] <= high
    requires forall i :: 0 <= i < |failed| ==> |failed[i]| == |candidate|
    ensures var a := Acquisition(candidate, completed, scores, failed, s);
      var top := high + Product(s.explorationWeight, high - low);
      && a.Ok? && Min(low, 0.0) <= a.value <= (if top > 0.0 then top else 0.0)
      && (candidate in failed ==> a.value == 0.0)
  {
    var weights := Weights(candidate, completed, s);
    WeightsAreNonNegative(weights);
    var (mean, variance) := Estimate(weights, scores);
    EstimateInRange(weights, scores, low, high);
    assert low <= scores[0] <= high;
    UncertaintyBounds(variance, Sum(weights), s, high - low);
    var u := Uncertainty(variance, Sum(weights), s);
    ProductBound(s.explorationWeight, u, s.explorationWeight, high - low);
    ProductSigns(s.explorationWeight, u);
    FeasibilityIsZero(candidate, failed, s);
    var total := mean + Product(s.explorationWeight, u);
    ScaledDown(total, Feasibility(candidate, failed, s), low, high + Product(s.explorationWeight, high - low));
    ProductSigns(total, 0.0);
  }

  // ----- suggesting -----

  function Recipes(history: seq<Record>): seq<Point> {
    seq(|history|, i requires 0 <= i < |history| => history[i].recipe)
  }

  function CompletedOf(history: seq<Record>): (r: seq<Record>)
    ensures forall i :: 0 <= i < |r| ==> r[i] in history && r[i].status == Completed && r[i].pce.Some?
  {
    if history == [] then []
    else (if history[0].status == Completed && history[0].pce.Some? then [history[0]] else []) + CompletedOf(history[1..])
  }

  function FailedOf(history: seq<Record>): (r: seq<Record>)
    ensures forall i :: 0 <= i < |r| ==> r[i] in history && r[i].status == Failed
  {
    if history == [] then []
    else (if history[0].status == Failed then [history[0]] else []) + FailedOf(history[1..])
  }

  function Scores(completed: seq<Record>): seq<real>
    requires forall i :: 0 <= i < |completed| ==> completed[i].pce.Some?
  {
    seq(|completed|, i requires 0 <= i < |completed| => completed[i].pce.value)
  }

  ghost predicate HistoryCovers(space: seq<Parameter>, history: seq<Record>) {
    forall i :: 0 <= i < |history| ==> Covers(space, history[i].recipe)
  }

  function Observed(space: seq<Parameter>, history: seq<Record>): set<seq<Value>>
    requires HistoryCovers(space, history)
  {
    set i | 0 <= i < |history| :: Key(space, history[i].recipe)
  }

  // The two sides of the history as _encode_recipe sees them.
  ghost predicate HistoryEncodable(space: seq<Parameter>, history: seq<Record>) {
    Encodable(space, Recipes(CompletedOf(history))) && Encodable(space, Recipes(FailedOf(history)))
  }

  // The score of a candidate against the history.
  function Score(c: Candidate, space: seq<Parameter>, history: seq<Record>, s: Strategy): (a: Result<real, Failure>)
    requires s.Valid() && HistoryEncodable(space, history)
    ensures a.Ok? <==> CompletedOf(history) != []
  {
    Acquisition(c.vector, Vectors(space, Recipes(CompletedOf(history))), Scores(CompletedOf(history)),
                Vectors(space, Recipes(FailedOf(history))), s)
  }

  function ScoresOf(candidates: seq<Candidate>, space: seq<Parameter>, history: seq<Record>, s: Strategy): seq<real>
    requires s.Valid() && HistoryEncodable(space, history) && CompletedOf(history) != []
  {
    seq(|candidates|, i requires 0 <= i < |candidates| => Score(candidates[i], space, history, s).value)
  }

  ghost predicate Exhausted(space: seq<Parameter>, observed: set<seq<Value>>, offers: seq<Point>) {
    forall i :: 0 <= i < |offers| ==> Covers(space, offers[i]) && Key(space, offers[i]) in observed
  }

  // Draw k is accepted and untried, and every earlier one is accepted and observed.
  ghost predicate IsFirstUntried(space: seq<Parameter>, make: Constructor, observed: set<seq<Value>>,
                                 draws: seq<Point>, k: nat)
  {
    && k < |draws| && Refusal(space, make, draws[k]).None? && Key(space, draws[k]) !in observed
    && (forall j :: 0 <= j < k ==> Refusal(space, make, draws[j]).None? && Key(space, draws[j]) in observed)
  }

  // _random_untried
  method RandomUntried(space: seq<Parameter>, make: Constructor, observed: set<seq<Value>>, draws: seq<Point>)
    returns (r: Result<Point, Failure>)
    ensures r.Ok? ==> exists k :: 0 <= k < |draws| && IsFirstUntried(space, make, observed, draws, k)
                                   && r.value == make.ToDict(draws[k])
    ensures r.Ok? ==> Admits(space, r.value) && Key(space, r.value) !in observed
    ensures r.Err? && AllInSpace(space, draws) && AllAccepted(make, draws) ==> Exhausted(space, observed, draws)
  {
    for i := 0 to |draws|
      invariant forall j :: 0 <= j < i ==> Refusal(space, make, draws[j]).None? && Key(space, draws[j]) in observed
    {
      if !InSpace(space, draws[i]) {
        return Err(OutsideSpace);
      }
      if !make.accepts(draws[i]) {
        return Err(RecipeRejected);
      }
      RecipeKeepsKey(space, make, draws[i]);
      if Key(space, make.ToDict(draws[i])) !in observed {
        assert IsFirstUntried(space, make, observed, draws, i);
        return Ok(make.ToDict(draws[i]));
      }
    }
    r := Err(NoUntriedRecipe);
  }

  method EncodeRecipes(space: seq<Parameter>, recipes: seq<Point>) returns (r: Result<seq<seq<real>>, Failure>)
    requires forall i :: 0 <= i < |recipes| ==> Covers(space, recipes[i])
    ensures r.Ok? <==> Encodable(space, recipes)
    ensures r.Ok? ==> r.value == Vectors(space, recipes)
  {
    var vectors: seq<seq<real>> := [];
    for i := 0 to |recipes|
      invariant |vectors| == i
      invariant forall j :: 0 <= j < i ==> Encode(space, recipes[j]) == Ok(vectors[j])
    {
      var vector := EncodeValues(space, recipes[i]);
      if vector.Err? {
        return Err(vector.error);
      }
      vectors := vectors + [vector.value];
    }
    r := Ok(vectors);
  }

  // The index at which Python's max stops.
  method Highest(scores: seq<real>) returns (best: nat)
    requires scores != []
    ensures IsFirstMaximum(scores, best)
  {
    best := 0;
    for i := 1 to |scores|
      invariant best < i && IsFirstMaximum(scores[..i], best)
    {
      if scores[i] > scores[best] {
        best := i;
      }
    }
    assert scores[..|scores|] == scores;
  }

  lemma NoCandidates(space: seq<Parameter>, observed: set<seq<Value>>, offers: seq<Point>)
    requires SpaceValid(space) && AllInSpace(space, offers)
    ensures Collect(space, observed, offers) == [] <==> Exhausted(space, observed, offers)
  {
    CandidatesAreUntried(space, observed, offers);
    var r := Collect(space, observed, offers);
    if r != [] {
      assert IsUntried(space, observed, offers, r[0]);
    }
  }

  lemma DrawsAreOffers(grid: seq<Point>, draws: seq<Point>)
    ensures forall i :: 0 <= i < |draws| ==> draws[i] == (grid + draws)[|grid| + i]
  {
  }

  // BayesianStrategy.suggest, given the points the random generator will draw.  A suggestion is an untried point of
  // the space; until enough experiments are completed it is the first untried draw, and then the first of the best
  // candidates; and the call fails only where the source raises.
  method Suggest(space: seq<Parameter>, make: Constructor, history: seq<Record>, draws: seq<Point>, s: Strategy)
    returns (r: Result<Point, Failure>)
    requires SpaceValid(space) && HistoryCovers(space, history) && s.Valid()
    ensures r.Ok? ==> Admits(space, r.value) && Key(space, r.value) !in Observed(space, history)
    ensures r.Ok? && |CompletedOf(history)| < s.initialRandom ==>
      exists k :: 0 <= k < |draws| && IsFirstUntried(space, make, Observed(space, history), draws, k)
                                && r.value == make.ToDict(draws[k])
    ensures r.Ok? && |CompletedOf(history)| >= s.initialRandom ==>
      AllInSpace(space, Grid(space, s.candidateCount) + draws) && IsSuggestion(r.value, space, make, history, draws, s)
    ensures r.Err? && AllInSpace(space, draws) && AllAccepted(make, Grid(space, s.candidateCount) + draws) ==>
      if |CompletedOf(history)| < s.initialRandom then Exhausted(space, Observed(space, history), draws)
      else
        || Exhausted(space, Observed(space, history), Grid(space, s.candidateCount) + draws)
        || !HistoryEncodable(space, history) || CompletedOf(history) == []
  {
    DrawsAreOffers(Grid(space, s.candidateCount), draws);
    var observed := Observed(space, history);
    var completed, failed := CompletedOf(history), FailedOf(history);
    if |completed| < s.initialRandom {
      r := RandomUntried(space, make, observed, draws);
      return;
    }
    var candidates := CandidateRecipes(space, make, observed, s.candidateCount, draws);
    if candidates.Err? {
      return Err(candidates.error);
    }
    ghost var offers := Grid(space, s.candidateCount) + draws;
    EachIsUntried(space, observed, offers);
    if candidates.value == [] {
      NoCandidates(space, observed, offers);
      return Err(NoUntriedRecipe);
    }
    var completedVectors := EncodeRecipes(space, Recipes(completed));
    if completedVectors.Err? {
      return Err(completedVectors.error);
    }
    var failedVectors := EncodeRecipes(space, Recipes(failed));
    if failedVectors.Err? {
      return Err(failedVectors.error);
    }
    if completed == [] {
      return Err(DivisionByZero);
    }
    var best := Highest(ScoresOf(candidates.value, space, history, s));
    assert IsUntried(space, observed, offers, candidates.value[best]);
    RecipeKeepsKey(space, make, candidates.value[best].point);
    r := Ok(make.ToDict(candidates.value[best].point));
  }

  // The recipe is made of the first of the best candidates.
  ghost predicate IsSuggestion(recipe: Point, space: seq<Parameter>, make: Constructor, history: seq<Record>,
                               draws: seq<Point>, s: Strategy)
    requires SpaceValid(space) && HistoryCovers(space, history) && s.Valid()
    requires AllInSpace(space, Grid(space, s.candidateCount) + draws)
  {
    var candidates := Collect(space, Observed(space, history), Grid(space, s.candidateCount) + draws);
    && HistoryEncodable(space, history) && CompletedOf(history) != []
    && exists k :: 0 <= k < |candidates| && make.ToDict(candidates[k].point) == recipe
                   && IsFirstMaximum(ScoresOf(candidates, space, history, s), k)
  }
}

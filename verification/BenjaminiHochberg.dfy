// The Benjamini-Hochberg step-up adjustment of src/web/jv_parser.py.
module BenjaminiHochberg {
  import opened Permutation
  import opened Reals
  import opened Sequences
  import opened Sorting
  import opened Wrappers

  // The comparison of one metric between a target group and the control group.
  datatype Comparison = Comparison(meanDifference: real, percentDifference: Option<real>, effectSize: Option<real>,
                                   pValue: Option<real>, adjustedPValue: Option<real>, test: Option<TestMethod>)

  datatype Entry = Entry(name: string, p: real)

  predicate ByP(a: Entry, b: Entry) { a.p <= b.p }

  // ----- the adjusted values, rank by rank -----

  // A p-value scaled by the number of tests over its rank.
  function ScaleP(p: real, m: nat, rank: nat): real
    requires rank > 0
  {
    p * m as real / rank as real
  }

  // The scaled p-values; the entry at index i has rank i + 1.
  function Scales(ps: seq<real>): (r: seq<real>)
    ensures |r| == |ps| && forall i :: 0 <= i < |ps| ==> r[i] == ScaleP(ps[i], |ps|, i + 1)
  {
    seq(|ps|, i requires 0 <= i < |ps| => ScaleP(ps[i], |ps|, i + 1))
  }

  // The running minimum, from the last element down to index i, started at 1.
  function LeastFrom(xs: seq<real>, i: nat): real
    requires i <= |xs|
    decreases |xs| - i
  {
    if i == |xs| then 1.0 else Min(LeastFrom(xs, i + 1), xs[i])
  }

  function StepUp(ps: seq<real>, i: nat): real
    requires i <= |ps|
  {
    LeastFrom(Scales(ps), i)
  }

  lemma {:induction false} LeastFromIsLeast(xs: seq<real>, i: nat)
    requires i <= |xs|
    ensures LeastFrom(xs, i) <= 1.0
    ensures forall k :: i <= k < |xs| ==> LeastFrom(xs, i) <= xs[k]
    ensures LeastFrom(xs, i) == 1.0 || exists k :: i <= k < |xs| && LeastFrom(xs, i) == xs[k]
    decreases |xs| - i
  {
    if i < |xs| {
      LeastFromIsLeast(xs, i + 1);
    }
  }

  /** The value at an index is the least of 1 and all the scaled p-values from there up. */
  lemma StepUpIsMinimum(ps: seq<real>, i: nat)
    requires i <= |ps|
    ensures StepUp(ps, i) <= 1.0
    ensures forall k :: i <= k < |ps| ==> StepUp(ps, i) <= Scales(ps)[k]
    ensures StepUp(ps, i) == 1.0 || exists k :: i <= k < |ps| && StepUp(ps, i) == Scales(ps)[k]
  {
    LeastFromIsLeast(Scales(ps), i);
  }

  ghost predicate PValues(ps: seq<real>) {
    Ascending(ps) && forall k :: 0 <= k < |ps| ==> 0.0 <= ps[k] <= 1.0
  }

  lemma ScaledBack(p: real, m: nat, rank: nat)
    requires rank > 0
    ensures ScaleP(p, m, rank) * rank as real == p * m as real
  {
  }

  lemma ScaleIsNoSmaller(p: real, m: nat, rank: nat)
    requires p >= 0.0 && 0 < rank <= m
    ensures p <= ScaleP(p, m, rank)
  {
    ScaledBack(p, m, rank);
    assert p * (m - rank) as real >= 0.0;
    ProductOrder(p, ScaleP(p, m, rank), rank as real);
  }

  lemma LaterScaleIsLess(p: real, m: nat, rank: nat)
    requires p >= 0.0 && rank > 0
    ensures ScaleP(p, m, rank + 1) <= ScaleP(p, m, rank)
  {
    var x, y := ScaleP(p, m, rank), ScaleP(p, m, rank + 1);
    ScaledBack(p, m, rank);
    ScaledBack(p, m, rank + 1);
    assert p * m as real >= 0.0;
    ProductOrder(0.0, y, (rank + 1) as real);
    assert y * (rank + 1) as real == y * rank as real + y;
    ProductOrder(y, x, rank as real);
  }

  lemma NoLeastBelow(xs: seq<real>, i: nat, c: real)
    requires i <= |xs| && c <= 1.0
    requires forall k :: i <= k < |xs| ==> c <= xs[k]
    ensures c <= LeastFrom(xs, i)
  {
    LeastFromIsLeast(xs, i);
  }

  /** Adjusting never lowers a p-value, and keeps their order. */
  lemma AdjustedIsNoSmaller(ps: seq<real>, i: nat)
    requires PValues(ps) && i < |ps|
    ensures ps[i] <= StepUp(ps, i) <= StepUp(ps, i + 1) <= 1.0
  {
    forall k | i <= k < |ps| ensures ps[i] <= Scales(ps)[k] {
      ScaleIsNoSmaller(ps[k], |ps|, k + 1);
    }
    NoLeastBelow(Scales(ps), i, ps[i]);
    LeastFromIsLeast(Scales(ps), i + 1);
  }

  lemma {:induction false} FlatRun(xs: seq<real>, i: nat, j: nat)
    requires i <= j < |xs| && forall k :: i <= k < j ==> xs[k + 1] <= xs[k]
    ensures LeastFrom(xs, i) == LeastFrom(xs, j)
    decreases j - i
  {
    if i < j {
      FlatRun(xs, i + 1, j);
      LeastFromIsLeast(xs, i + 1);
    }
  }

  /** Equal p-values get equal adjusted values, wherever the sort happened to put them. */
  lemma TiesAreEqual(ps: seq<real>, i: nat, j: nat)
    requires PValues(ps) && i <= j < |ps| && ps[i] == ps[j]
    ensures StepUp(ps, i) == StepUp(ps, j)
  {
    forall k | i <= k < j ensures Scales(ps)[k + 1] <= Scales(ps)[k] {
      assert ps[i] <= ps[k] <= ps[k + 1] <= ps[j];
      LaterScaleIsLess(ps[k], |ps|, k + 1);
    }
    FlatRun(Scales(ps), i, j);
  }

  // ----- the step-up procedure it stands for -----

  function CountUpTo(ps: seq<real>, q: real): nat {
    if ps == [] then 0 else (if ps[0] <= q then 1 else 0) + CountUpTo(ps[1..], q)
  }

  // q <= alpha * rank / m
  predicate AtLevel(q: real, m: nat, alpha: real, rank: nat) {
    q * m as real <= alpha * rank as real
  }

  // The step-up test rejects p at level alpha when some q no smaller than p is at that level, its rank
  // counting every p-value up to q.  No order of the p-values enters into it.
  ghost predicate Rejects(ps: seq<real>, alpha: real, p: real) {
    exists q :: q in ps && p <= q && AtLevel(q, |ps|, alpha, CountUpTo(ps, q))
  }

  lemma ScaleAtMost(p: real, m: nat, alpha: real, rank: nat)
    requires rank > 0
    ensures ScaleP(p, m, rank) <= alpha <==> AtLevel(p, m, alpha, rank)
  {
    ScaledBack(p, m, rank);
    ProductOrder(ScaleP(p, m, rank), alpha, rank as real);
  }

  lemma LaterRankIsEasier(p: real, m: nat, alpha: real, rank: nat, later: nat)
    requires p >= 0.0 && 0 < rank <= later && AtLevel(p, m, alpha, rank)
    ensures AtLevel(p, m, alpha, later)
  {
    assert p * m as real >= 0.0;
    ProductOrder(0.0, alpha, rank as real);
    assert alpha * (later - rank) as real >= 0.0;
    assert alpha * later as real == alpha * rank as real + alpha * (later - rank) as real;
  }

  lemma {:induction false} CountUpToBounds(ps: seq<real>, q: real, k: nat)
    requires Ascending(ps) && k <= |ps|
    requires forall i :: 0 <= i < k ==> ps[i] <= q
    ensures k <= CountUpTo(ps, q) <= |ps|
    ensures (forall i :: k <= i < |ps| ==> ps[i] > q) ==> CountUpTo(ps, q) == k
  {
    if ps != [] {
      if k > 0 {
        CountUpToBounds(ps[1..], q, k - 1);
      } else {
        CountUpToBounds(ps[1..], q, 0);
      }
    }
  }

  // The last index that holds the value ps[k].
  lemma LastOf(ps: seq<real>, k: nat) returns (last: nat)
    requires Ascending(ps) && k < |ps|
    ensures k <= last < |ps| && ps[last] == ps[k] && CountUpTo(ps, ps[k]) == last + 1
    ensures forall i :: last < i < |ps| ==> ps[k] < ps[i]
    decreases |ps| - k
  {
    if k + 1 < |ps| && ps[k + 1] == ps[k] {
      last := LastOf(ps, k + 1);
    } else {
      last := k;
      CountUpToBounds(ps, ps[k], k + 1);
    }
  }

  // The largest p-value is not scaled.
  lemma LastScale(ps: seq<real>)
    requires PValues(ps) && ps != []
    ensures Scales(ps)[|ps| - 1] <= 1.0
  {
    ScaleAtMost(ps[|ps| - 1], |ps|, 1.0, |ps|);
    ProductOrder(ps[|ps| - 1], 1.0, |ps| as real);
  }

  lemma RejectedWhenSmall(ps: seq<real>, i: nat, alpha: real)
    requires PValues(ps) && i < |ps| && StepUp(ps, i) <= alpha
    ensures Rejects(ps, alpha, ps[i])
  {
    StepUpIsMinimum(ps, i);
    LastScale(ps);
    var k :| i <= k < |ps| && Scales(ps)[k] <= alpha;
    ScaleAtMost(ps[k], |ps|, alpha, k + 1);
    var last := LastOf(ps, k);
    LaterRankIsEasier(ps[k], |ps|, alpha, k + 1, last + 1);
    assert ps[k] in ps && ps[i] <= ps[k];
  }

  lemma SmallWhenRejected(ps: seq<real>, i: nat, alpha: real)
    requires PValues(ps) && i < |ps| && Rejects(ps, alpha, ps[i])
    ensures StepUp(ps, i) <= alpha
  {
    var q :| q in ps && ps[i] <= q && AtLevel(q, |ps|, alpha, CountUpTo(ps, q));
    var k :| 0 <= k < |ps| && ps[k] == q;
    var last := LastOf(ps, k);
    ScaleAtMost(q, |ps|, alpha, last + 1);
    StepUpIsMinimum(ps, i);
    assert StepUp(ps, i) <= Scales(ps)[last];
  }

  /** For every alpha the adjusted value is at most alpha exactly when the step-up test rejects. */
  lemma AdjustedDecides(ps: seq<real>, i: nat, alpha: real)
    requires PValues(ps) && i < |ps|
    ensures StepUp(ps, i) <= alpha <==> Rejects(ps, alpha, ps[i])
  {
    if StepUp(ps, i) <= alpha {
      RejectedWhenSmall(ps, i, alpha);
    }
    if Rejects(ps, alpha, ps[i]) {
      SmallWhenRejected(ps, i, alpha);
    }
  }

  // ----- the dictionary the loop writes to -----

  function Available(names: seq<string>, rows: map<string, Option<Comparison>>): seq<Entry> {
    if names == [] then []
    else
      (if names[0] in rows && rows[names[0]].Some? && rows[names[0]].value.pValue.Some?
       then [Entry(names[0], rows[names[0]].value.pValue.value)] else [])
      + Available(names[1..], rows)
  }

  function Ranked(names: seq<string>, rows: map<string, Option<Comparison>>): (r: seq<Entry>) {
    SortBy(Available(names, rows), ByP)
  }

  function Ps(entries: seq<Entry>): (r: seq<real>)
    ensures |r| == |entries| && forall i :: 0 <= i < |r| ==> r[i] == entries[i].p
  {
    seq(|entries|, i requires 0 <= i < |entries| => entries[i].p)
  }

  // name has a p-value to adjust.
  predicate HasP(rows: map<string, Option<Comparison>>, name: string) {
    name in rows && rows[name].Some? && rows[name].value.pValue.Some?
  }

  predicate DistinctNames(entries: seq<Entry>) {
    forall i, j :: 0 <= i < j < |entries| ==> entries[i].name != entries[j].name
  }

  lemma {:induction false} AvailableHas(names: seq<string>, rows: map<string, Option<Comparison>>)
    ensures forall e :: e in Available(names, rows) <==>
      e.name in names && HasP(rows, e.name) && e.p == rows[e.name].value.pValue.value
  {
    if names != [] {
      AvailableHas(names[1..], rows);
      assert forall n :: n in names <==> n == names[0] || n in names[1..];
    }
  }

  lemma {:induction false} AvailableIsDistinct(names: seq<string>, rows: map<string, Option<Comparison>>)
    requires Distinct(names)
    ensures DistinctNames(Available(names, rows))
  {
    if names != [] {
      AvailableIsDistinct(names[1..], rows);
      AvailableHas(names[1..], rows);
      var rest := Available(names[1..], rows);
      forall j | 0 <= j < |rest| ensures rest[j].name != names[0] {
        assert rest[j] in rest;
      }
    }
  }

  lemma InsertMembers(e: Entry, s: seq<Entry>)
    ensures forall k :: 0 <= k < |Insert(e, s, ByP)| ==> Insert(e, s, ByP)[k] == e || Insert(e, s, ByP)[k] in s
  {
    var t := Insert(e, s, ByP);
    InsertPermutes(e, s, ByP);
    forall k | 0 <= k < |t| ensures t[k] == e || t[k] in s {
      assert t[k] in multiset(t);
      assert t[k] in [e] + s;
    }
  }

  lemma DistinctInFront(e: Entry, s: seq<Entry>)
    requires DistinctNames(s) && forall k :: 0 <= k < |s| ==> s[k].name != e.name
    ensures DistinctNames([e] + s)
  {
  }

  lemma {:induction false} InsertKeepsDistinct(e: Entry, s: seq<Entry>)
    requires DistinctNames(s) && forall k :: 0 <= k < |s| ==> s[k].name != e.name
    ensures DistinctNames(Insert(e, s, ByP))
  {
    if s == [] || ByP(e, s[0]) {
      DistinctInFront(e, s);
    } else {
      InsertKeepsDistinct(e, s[1..]);
      InsertMembers(e, s[1..]);
      DistinctInFront(s[0], Insert(e, s[1..], ByP));
    }
  }

  lemma {:induction false} RankedIsDistinct(s: seq<Entry>)
    requires DistinctNames(s)
    ensures DistinctNames(SortBy(s, ByP))
  {
    if s != [] {
      RankedIsDistinct(s[1..]);
      SameMembers(s[1..], ByP);
      var t := SortBy(s[1..], ByP);
      forall k | 0 <= k < |t| ensures t[k].name != s[0].name {
        assert t[k] in s[1..];
      }
      InsertKeepsDistinct(s[0], t);
    }
  }

  /** Each available comparison has one rank, the ranks ascend with the p-values, and nothing else is ranked. */
  lemma RankedIsExact(names: seq<string>, rows: map<string, Option<Comparison>>)
    requires Distinct(names)
    ensures var ranked := Ranked(names, rows);
      && DistinctNames(ranked)
      && Ascending(Ps(ranked))
      && (forall e :: e in ranked <==> e.name in names && HasP(rows, e.name) && e.p == rows[e.name].value.pValue.value)
  {
    var ranked := Ranked(names, rows);
    AvailableHas(names, rows);
    AvailableIsDistinct(names, rows);
    RankedIsDistinct(Available(names, rows));
    SameMembers(Available(names, rows), ByP);
    SortBySorts(Available(names, rows), ByP);
    forall i, j | 0 <= i < j < |ranked| ensures Ps(ranked)[i] <= Ps(ranked)[j] {
      assert ByP(ranked[i], ranked[j]);
    }
  }

  function WithAdjusted(row: Option<Comparison>, value: real): Option<Comparison> {
    if row.Some? then Some(row.value.(adjustedPValue := Some(value))) else None
  }

  // after is before with every ranked comparison, and no other, given its adjusted value.
  ghost predicate IsAdjustment(ranked: seq<Entry>, before: map<string, Option<Comparison>>,
                               after: map<string, Option<Comparison>>)
  {
    && after.Keys == before.Keys
    && (forall i :: 0 <= i < |ranked| ==>
         && ranked[i].name in before
         && after[ranked[i].name] == WithAdjusted(before[ranked[i].name], StepUp(Ps(ranked), i)))
    && (forall n :: n in before && (forall i :: 0 <= i < |ranked| ==> ranked[i].name != n) ==> after[n] == before[n])
  }

  function RankOf(ranked: seq<Entry>, name: string): Option<nat> {
    if ranked == [] then None
    else if ranked[|ranked| - 1].name == name then Some(|ranked| - 1)
    else RankOf(ranked[..|ranked| - 1], name)
  }

  lemma {:induction false} RankOfIs(ranked: seq<Entry>, name: string)
    ensures match RankOf(ranked, name)
            case Some(i) => i < |ranked| && ranked[i].name == name
            case None => forall i :: 0 <= i < |ranked| ==> ranked[i].name != name
  {
    if ranked != [] {
      RankOfIs(ranked[..|ranked| - 1], name);
    }
  }

  // The comparisons with their adjusted values.
  function Adjusted(names: seq<string>, before: map<string, Option<Comparison>>): map<string, Option<Comparison>> {
    var ranked := Ranked(names, before);
    map n | n in before :: match RankOf(ranked, n)
                           case Some(i) => RankOfIs(ranked, n); WithAdjusted(before[n], StepUp(Ps(ranked), i))
                           case None => before[n]
  }

  lemma AdjustmentIsAdjusted(names: seq<string>, before: map<string, Option<Comparison>>,
                             after: map<string, Option<Comparison>>)
    requires IsAdjustment(Ranked(names, before), before, after)
    ensures after == Adjusted(names, before)
  {
    forall n | n in before ensures after[n] == Adjusted(names, before)[n] {
      AdjustmentAt(names, before, after, n);
    }
  }

  lemma AdjustmentAt(names: seq<string>, before: map<string, Option<Comparison>>,
                     after: map<string, Option<Comparison>>, name: string)
    requires IsAdjustment(Ranked(names, before), before, after) && name in before
    ensures name in after && after[name] == Adjusted(names, before)[name]
  {
    var ranked := Ranked(names, before);
    RankOfIs(ranked, name);
    if RankOf(ranked, name).Some? {
      assert ranked[RankOf(ranked, name).value].name == name;
    }
  }

  // The adjustment touches nothing but the adjusted values.
  lemma AdjustedKeepsRaw(names: seq<string>, before: map<string, Option<Comparison>>, name: string)
    requires name in before
    ensures var after := Adjusted(names, before);
      && name in after && (after[name].Some? <==> before[name].Some?)
      && (before[name].Some? ==> after[name].value.(adjustedPValue := None) == before[name].value.(adjustedPValue := None))
  {
  }

  lemma RankIs(names: seq<string>, before: map<string, Option<Comparison>>, i: nat)
    requires Distinct(names) && i < |Ranked(names, before)|
    ensures var ranked := Ranked(names, before);
      ranked[i].name in before && RankOf(ranked, ranked[i].name) == Some(i)
  {
    var ranked := Ranked(names, before);
    RankedIsExact(names, before);
    assert ranked[i] in ranked;
    RankOfIs(ranked, ranked[i].name);
  }

  lemma AdjustedIsAdjustment(names: seq<string>, before: map<string, Option<Comparison>>)
    requires Distinct(names)
    ensures IsAdjustment(Ranked(names, before), before, Adjusted(names, before))
  {
    var ranked := Ranked(names, before);
    forall i: nat | i < |ranked|
      ensures ranked[i].name in before && RankOf(ranked, ranked[i].name) == Some(i)
    {
      RankIs(names, before, i);
    }
    forall n | n in before && (forall i :: 0 <= i < |ranked| ==> ranked[i].name != n)
      ensures Adjusted(names, before)[n] == before[n]
    {
      Unranked(names, before, n);
    }
  }

  lemma Unranked(names: seq<string>, before: map<string, Option<Comparison>>, n: string)
    requires n in before && forall i :: 0 <= i < |Ranked(names, before)| ==> Ranked(names, before)[i].name != n
    ensures Adjusted(names, before)[n] == before[n]
  {
    RankOfIs(Ranked(names, before), n);
  }

  class MetricComparisons {
    // The dictionary of comparisons, and its keys in insertion order.
    var names: seq<string>
    var rows: map<string, Option<Comparison>>

    ghost predicate Valid()
      reads this
    {
      Distinct(names) && rows.Keys == set n | n in names
    }

    constructor (names: seq<string>, rows: map<string, Option<Comparison>>)
      requires Distinct(names) && rows.Keys == set n | n in names
      ensures Valid() && this.names == names && this.rows == rows
    {
      this.names, this.rows := names, rows;
    }

    method AddBenjaminiHochbergAdjustment()
      requires Valid()
      modifies this`rows
      ensures Valid()
      ensures IsAdjustment(Ranked(names, old(rows)), old(rows), rows)
    {
      var available := Ranked(names, rows);
      RankedIsExact(names, rows);
      var adjusted := AdjustedValues(available);
      rows := WriteBack(available, adjusted, rows);
    }

    // The second loop: store each adjusted value, capped at 1, in its comparison.
    static method WriteBack(available: seq<Entry>, adjusted: map<string, real>, before: map<string, Option<Comparison>>)
      returns (after: map<string, Option<Comparison>>)
      requires DistinctNames(available)
      requires forall i :: 0 <= i < |available| ==>
        && available[i].name in before && available[i].name in adjusted
        && adjusted[available[i].name] == StepUp(Ps(available), i)
      ensures IsAdjustment(available, before, after)
    {
      after := before;
      for rank := |available| downto 0
        invariant after.Keys == before.Keys
        invariant forall n :: n in before && (forall i :: rank <= i < |available| ==> available[i].name != n) ==>
          after[n] == before[n]
        invariant forall i :: rank <= i < |available| ==>
          after[available[i].name] == WithAdjusted(before[available[i].name], StepUp(Ps(available), i))
      {
        var name := available[rank].name;
        var comparison := after[name];
        if comparison.Some? {
          StepUpIsMinimum(Ps(available), rank);
          after := after[name := WithAdjusted(comparison, Min(1.0, adjusted[name]))];
        }
      }
    }

    // The first loop: from the largest p-value down, the least scaled p-value so far.
    static method AdjustedValues(available: seq<Entry>) returns (adjusted: map<string, real>)
      requires DistinctNames(available)
      ensures forall i :: 0 <= i < |available| ==>
        available[i].name in adjusted && adjusted[available[i].name] == StepUp(Ps(available), i)
    {
      adjusted := map[];
      var previous := 1.0;
      var testCount := |available|;
      for rank := testCount downto 0
        invariant previous == StepUp(Ps(available), rank)
        invariant forall i :: rank <= i < testCount ==>
          available[i].name in adjusted && adjusted[available[i].name] == StepUp(Ps(available), i)
      {
        previous := Min(previous, ScaleP(available[rank].p, testCount, rank + 1));
        adjusted := adjusted[available[rank].name := previous];
      }
    }
  }

  /** After the adjustment, a comparison's adjusted value is at most alpha exactly when the step-up test
      rejects its raw p-value among all the raw p-values present, in whatever order those are listed. */
  lemma {:induction false} AdjustmentDecides(names: seq<string>, before: map<string, Option<Comparison>>,
                                             after: map<string, Option<Comparison>>,
                                             ps: seq<real>, name: string, alpha: real)
    requires Distinct(names) && IsAdjustment(Ranked(names, before), before, after)
    requires name in names && HasP(before, name)
    requires forall n :: HasP(before, n) ==> 0.0 <= before[n].value.pValue.value <= 1.0
    requires multiset(ps) == multiset(Ps(Available(names, before)))
    ensures after[name].Some? && after[name].value.adjustedPValue.Some?
    ensures after[name].value.adjustedPValue.value <= alpha <==> Rejects(ps, alpha, before[name].value.pValue.value)
  {
    RankedIsExact(names, before);
    var ranked := Ranked(names, before);
    var p := before[name].value.pValue.value;
    assert Entry(name, p) in ranked;
    var i :| 0 <= i < |ranked| && ranked[i] == Entry(name, p);
    forall k | 0 <= k < |ranked| ensures 0.0 <= Ps(ranked)[k] <= 1.0 {
      assert ranked[k] in ranked;
    }
    AdjustedDecides(Ps(ranked), i, alpha);
    SortByPermutes(Available(names, before), ByP);
    SamePs(Available(names, before), ranked);
    if Rejects(ps, alpha, p) {
      RejectsIgnoresOrder(ps, Ps(ranked), alpha, p);
    }
    if Rejects(Ps(ranked), alpha, p) {
      RejectsIgnoresOrder(Ps(ranked), ps, alpha, p);
    }
  }

  lemma PsSplits(s: seq<Entry>)
    requires s != []
    ensures multiset(Ps(s)) == multiset{s[0].p} + multiset(Ps(s[1..]))
  {
    assert Ps(s) == [s[0].p] + Ps(s[1..]);
  }

  lemma {:induction false} PsOfInsert(e: Entry, s: seq<Entry>)
    ensures multiset(Ps(Insert(e, s, ByP))) == multiset{e.p} + multiset(Ps(s))
  {
    if s == [] || ByP(e, s[0]) {
      PsSplits([e] + s);
    } else {
      PsOfInsert(e, s[1..]);
      PsSplits(s);
      PsSplits([s[0]] + Insert(e, s[1..], ByP));
    }
  }

  lemma {:induction false} SamePs(s: seq<Entry>, sorted: seq<Entry>)
    requires sorted == SortBy(s, ByP)
    ensures multiset(Ps(sorted)) == multiset(Ps(s))
  {
    if s != [] {
      SamePs(s[1..], SortBy(s[1..], ByP));
      PsOfInsert(s[0], SortBy(s[1..], ByP));
      PsSplits(s);
    }
  }

  lemma {:induction false} CountIgnoresOrder(s: seq<real>, t: seq<real>, q: real)
    requires multiset(s) == multiset(t)
    ensures CountUpTo(s, q) == CountUpTo(t, q)
    decreases |s|
  {
    if s == [] {
      assert |multiset(t)| == 0;
    } else {
      assert s[0] in multiset(t);
      var k :| 0 <= k < |t| && t[k] == s[0];
      var rest := t[..k] + t[k + 1..];
      CountWithout(t, k, q);
      assert t == t[..k] + [t[k]] + t[k + 1..];
      TailMultiset(s);
      CountIgnoresOrder(s[1..], rest, q);
    }
  }

  lemma {:induction false} CountWithout(t: seq<real>, k: nat, q: real)
    requires k < |t|
    ensures CountUpTo(t, q) == (if t[k] <= q then 1 else 0) + CountUpTo(t[..k] + t[k + 1..], q)
  {
    if k == 0 {
      assert t[..0] + t[1..] == t[1..];
    } else {
      CountWithout(t[1..], k - 1, q);
      assert (t[..k] + t[k + 1..])[1..] == t[1..][..k - 1] + t[1..][k..];
    }
  }

  lemma SameMultisetSameMembers(s: seq<real>, t: seq<real>)
    requires multiset(s) == multiset(t)
    ensures |s| == |t| && forall q :: q in s <==> q in t
  {
    assert |s| == |multiset(s)| && |t| == |multiset(t)|;
    assert forall q :: q in s <==> q in multiset(s);
    assert forall q :: q in t <==> q in multiset(t);
  }

  lemma RejectsIgnoresOrder(s: seq<real>, t: seq<real>, alpha: real, p: real)
    requires multiset(s) == multiset(t) && Rejects(s, alpha, p)
    ensures Rejects(t, alpha, p)
  {
    SameMultisetSameMembers(s, t);
    var q :| q in s && p <= q && AtLevel(q, |s|, alpha, CountUpTo(s, q));
    CountIgnoresOrder(s, t, q);
  }
}

// The two-sided randomization test of src/web/jv_parser.py: how often does a
// random split of the pooled sample differ as much as the observed one?
module Permutation {
  import opened Reals
  import opened Wrappers

  datatype TestMethod = ExactPermutation | MonteCarloPermutation

  datatype PValue = PValue(p: real, test: TestMethod)

  const EXACT_LIMIT := 20_000
  const DRAW_COUNT := 4_999
  const BASE_TOLERANCE := 0.000000000001

  // ----- itertools.combinations and math.comb -----

  function Prepend(x: nat, tuples: seq<seq<nat>>): (r: seq<seq<nat>>)
    ensures |r| == |tuples| && forall i :: 0 <= i < |r| ==> r[i] == [x] + tuples[i]
  {
    seq(|tuples|, i requires 0 <= i < |tuples| => [x] + tuples[i])
  }

  // The k-element index tuples drawn from lo..n, in the order itertools produces them.
  function Combinations(lo: nat, n: nat, k: nat): seq<seq<nat>>
    requires lo <= n
    decreases n - lo
  {
    if k == 0 then [[]]
    else if lo == n then []
    else Prepend(lo, Combinations(lo + 1, n, k - 1)) + Combinations(lo + 1, n, k)
  }

  function Factorial(n: nat): (r: nat)
    ensures r > 0
  {
    if n == 0 then 1 else n * Factorial(n - 1)
  }

  function Comb(n: nat, k: nat): nat {
    if k == 0 then 1 else if n == 0 then 0 else Comb(n - 1, k - 1) + Comb(n - 1, k)
  }

  // The indices of s are below n, from lo upwards and strictly ascending: a subset of lo..n, written as a tuple.
  predicate IsSubset(s: seq<nat>, lo: nat, n: nat) {
    s == [] || (lo <= s[0] < n && IsSubset(s[1..], s[0] + 1, n))
  }

  // How often s turns up.
  function Occurrences(tuples: seq<seq<nat>>, s: seq<nat>): nat {
    if tuples == [] then 0 else (if tuples[0] == s then 1 else 0) + Occurrences(tuples[1..], s)
  }

  lemma {:induction false} OccurrencesConcat(left: seq<seq<nat>>, right: seq<seq<nat>>, s: seq<nat>)
    ensures Occurrences(left + right, s) == Occurrences(left, s) + Occurrences(right, s)
  {
    if left == [] {
      assert left + right == right;
    } else {
      assert (left + right)[1..] == left[1..] + right;
      OccurrencesConcat(left[1..], right, s);
    }
  }

  lemma ConsEquals(x: nat, t: seq<nat>, s: seq<nat>)
    ensures [x] + t == s <==> s != [] && s[0] == x && s[1..] == t
  {
    if s != [] && s[0] == x && s[1..] == t {
      assert s == [x] + t;
    }
  }

  lemma {:induction false} OccurrencesPrepend(x: nat, tuples: seq<seq<nat>>, s: seq<nat>)
    ensures Occurrences(Prepend(x, tuples), s) == if s != [] && s[0] == x then Occurrences(tuples, s[1..]) else 0
  {
    if tuples != [] {
      assert Prepend(x, tuples)[1..] == Prepend(x, tuples[1..]);
      ConsEquals(x, tuples[0], s);
      OccurrencesPrepend(x, tuples[1..], s);
    }
  }

  /** Every k-element subset of lo..n is enumerated once, and nothing else is. */
  lemma {:induction false} EnumeratedOnce(lo: nat, n: nat, k: nat, s: seq<nat>)
    requires lo <= n
    ensures Occurrences(Combinations(lo, n, k), s) == if |s| == k && IsSubset(s, lo, n) then 1 else 0
    decreases n - lo
  {
    if k > 0 && lo < n {
      OccurrencesConcat(Prepend(lo, Combinations(lo + 1, n, k - 1)), Combinations(lo + 1, n, k), s);
      OccurrencesPrepend(lo, Combinations(lo + 1, n, k - 1), s);
      EnumeratedOnce(lo + 1, n, k, s);
      if s != [] && s[0] == lo {
        EnumeratedOnce(lo + 1, n, k - 1, s[1..]);
      }
    }
  }

  lemma {:induction false} CombinationsCount(lo: nat, n: nat, k: nat)
    requires lo <= n
    ensures |Combinations(lo, n, k)| == Comb(n - lo, k)
    decreases n - lo
  {
    if k > 0 && lo < n {
      CombinationsCount(lo + 1, n, k - 1);
      CombinationsCount(lo + 1, n, k);
    }
  }

  lemma {:induction false} CombZero(n: nat, k: nat)
    requires k > n
    ensures Comb(n, k) == 0
  {
    if n > 0 {
      CombZero(n - 1, k - 1);
      CombZero(n - 1, k);
    }
  }

  /** The recurrence is the binomial coefficient n! / (k! (n-k)!). */
  lemma {:induction false} CombIsBinomial(n: nat, k: nat)
    requires k <= n
    ensures Comb(n, k) * (Factorial(k) * Factorial(n - k)) == Factorial(n)
  {
    if k == 0 {
      assert Factorial(0) == 1;
    } else {
      CombIsBinomial(n - 1, k - 1);
      var a, b := Comb(n - 1, k - 1), Comb(n - 1, k);
      var fk, fr := Factorial(k - 1), Factorial(n - k);
      assert Factorial(k) == k * fk;
      if k == n {
        CombZero(n - 1, k);
        BinomialStepTop(n, a, fk);
      } else {
        CombIsBinomial(n - 1, k);
        var gr := Factorial(n - 1 - k);
        assert fr == (n - k) * gr;
        BinomialStep(n, k, a, b, fk, gr, Factorial(n - 1));
      }
    }
  }

  lemma BinomialStepTop(n: nat, a: nat, fk: nat)
    requires n > 0 && a * (fk * 1) == Factorial(n - 1)
    ensures a * ((n * fk) * Factorial(0)) == Factorial(n)
  {
    assert Factorial(0) == 1;
    assert a * ((n * fk) * 1) == n * (a * (fk * 1));
  }

  lemma BinomialStep(n: nat, k: nat, a: nat, b: nat, fk: nat, gr: nat, f: nat)
    requires 0 < k < n
    requires a * (fk * ((n - k) * gr)) == f
    requires b * ((k * fk) * gr) == f
    ensures (a + b) * ((k * fk) * ((n - k) * gr)) == n * f
  {
    var left := a * ((k * fk) * ((n - k) * gr));
    var right := b * ((k * fk) * ((n - k) * gr));
    assert left == k * f by {
      assert left == k * (a * (fk * ((n - k) * gr)));
    }
    assert right == (n - k) * f by {
      assert right == (n - k) * (b * ((k * fk) * gr));
    }
    assert (a + b) * ((k * fk) * ((n - k) * gr)) == left + right;
    assert k * f + (n - k) * f == n * f;
  }

  /** math.comb counts the enumeration: n! / (k! (n-k)!) tuples. */
  lemma EnumerationSize(n: nat, k: nat)
    requires k <= n
    ensures |Combinations(0, n, k)| == Comb(n, k)
    ensures |Combinations(0, n, k)| * (Factorial(k) * Factorial(n - k)) == Factorial(n)
  {
    CombinationsCount(0, n, k);
    CombIsBinomial(n, k);
  }

  // ----- the test -----

  function Pick(xs: seq<real>, indices: seq<nat>): real {
    if indices == [] then 0.0
    else (if indices[0] < |xs| then xs[indices[0]] else 0.0) + Pick(xs, indices[1..])
  }

  // The difference in means when the chosen values sum to a and the others to b.
  function MeanGap(a: real, b: real, m: nat, n: nat): real
    requires m > 0 && n > 0
  {
    Abs(b / n as real - a / m as real)
  }

  function DifferenceFor(combined: seq<real>, indices: seq<nat>, m: nat): real
    requires 0 < m < |combined|
  {
    var controlSum := Pick(combined, indices);
    var targetSum := Sum(combined) - controlSum;
    MeanGap(controlSum, targetSum, m, |combined| - m)
  }

  function Observed(control: seq<real>, target: seq<real>): real
    requires control != [] && target != []
  {
    Abs(Mean(target) - Mean(control))
  }

  // observed - tolerance
  function Threshold(observed: real): real {
    observed - if BASE_TOLERANCE < observed * BASE_TOLERANCE then observed * BASE_TOLERANCE else BASE_TOLERANCE
  }

  function CountExtreme(combined: seq<real>, splits: seq<seq<nat>>, m: nat, threshold: real): nat
    requires 0 < m < |combined|
  {
    if splits == [] then 0
    else
      (if DifferenceFor(combined, splits[0], m) >= threshold then 1 else 0)
      + CountExtreme(combined, splits[1..], m, threshold)
  }

  lemma {:induction false} CombPositive(n: nat, k: nat)
    requires k <= n
    ensures Comb(n, k) > 0
  {
    if k > 0 {
      CombPositive(n - 1, k - 1);
    }
  }

  function ExactP(combined: seq<real>, m: nat, threshold: real): PValue
    requires 0 < m < |combined|
  {
    CombPositive(|combined|, m);
    var extreme := CountExtreme(combined, Combinations(0, |combined|, m), m, threshold);
    PValue(extreme as real / Comb(|combined|, m) as real, ExactPermutation)
  }

  function MonteCarloP(combined: seq<real>, draws: seq<seq<nat>>, m: nat, threshold: real): PValue
    requires 0 < m < |combined|
  {
    var extreme := CountExtreme(combined, draws, m, threshold);
    PValue((extreme + 1) as real / (DRAW_COUNT + 1) as real, MonteCarloPermutation)
  }

  // draws are the samples random.Random(seed) would make, if it comes to that.
  function PermutationPValue(control: seq<real>, target: seq<real>, draws: seq<seq<nat>>): Option<PValue>
    requires |draws| == DRAW_COUNT
  {
    if |control| < 2 || |target| < 2 then None
    else
      var combined := control + target;
      var threshold := Threshold(Observed(control, target));
      if Comb(|combined|, |control|) <= EXACT_LIMIT then Some(ExactP(combined, |control|, threshold))
      else Some(MonteCarloP(combined, draws, |control|, threshold))
  }

  lemma ExactTest(control: seq<real>, target: seq<real>, draws: seq<seq<nat>>, combined: seq<real>, observed: real)
    requires |draws| == DRAW_COUNT && |control| >= 2 && |target| >= 2
    requires combined == control + target && observed == Observed(control, target)
    requires Comb(|combined|, |control|) <= EXACT_LIMIT
    ensures PermutationPValue(control, target, draws) == Some(ExactP(combined, |control|, Threshold(observed)))
  {
  }

  // ----- bounds -----

  lemma {:induction false} ExtremeAtMostAll(combined: seq<real>, splits: seq<seq<nat>>, m: nat, threshold: real)
    requires 0 < m < |combined|
    ensures CountExtreme(combined, splits, m, threshold) <= |splits|
  {
    if splits != [] {
      ExtremeAtMostAll(combined, splits[1..], m, threshold);
    }
  }

  // The index tuple lo, lo + 1, ..., hi - 1.
  function Run(lo: nat, hi: nat): (r: seq<nat>)
    requires lo <= hi
    ensures |r| == hi - lo && forall i :: 0 <= i < |r| ==> r[i] == lo + i
  {
    seq(hi - lo, i => lo + i)
  }

  lemma {:induction false} PickRun(xs: seq<real>, lo: nat, hi: nat)
    requires lo <= hi <= |xs|
    ensures Pick(xs, Run(lo, hi)) == Sum(xs[lo..hi])
    decreases hi - lo
  {
    if lo < hi {
      PickRun(xs, lo + 1, hi);
      assert Run(lo, hi)[1..] == Run(lo + 1, hi);
      assert xs[lo..hi][1..] == xs[lo + 1..hi];
    }
  }

  lemma {:induction false} RunIsSubset(lo: nat, hi: nat, n: nat)
    requires lo <= hi <= n
    ensures IsSubset(Run(lo, hi), lo, n)
    decreases hi - lo
  {
    if lo < hi {
      RunIsSubset(lo + 1, hi, n);
      assert Run(lo, hi)[1..] == Run(lo + 1, hi);
    }
  }

  // A run of consecutive indices is one of the splits enumerated, and sums the values it covers.
  lemma RunIsEnumerated(xs: seq<real>, lo: nat, hi: nat)
    requires lo <= hi <= |xs|
    ensures Occurrences(Combinations(0, |xs|, hi - lo), Run(lo, hi)) == 1
    ensures Pick(xs, Run(lo, hi)) == Sum(xs[lo..hi])
  {
    RunIsSubset(lo, hi, |xs|);
    assert IsSubset(Run(lo, hi), 0, |xs|);
    EnumeratedOnce(0, |xs|, hi - lo, Run(lo, hi));
    PickRun(xs, lo, hi);
  }

  lemma ObservedGap(control: seq<real>, target: seq<real>)
    requires control != [] && target != []
    ensures MeanGap(Sum(control), Sum(target), |control|, |target|) == Observed(control, target)
    ensures MeanGap(Sum(target), Sum(control), |target|, |control|) == Observed(control, target)
  {
  }

  lemma DifferenceIsGap(combined: seq<real>, indices: seq<nat>, m: nat, b: real)
    requires 0 < m < |combined| && Sum(combined) == Pick(combined, indices) + b
    ensures DifferenceFor(combined, indices, m) == MeanGap(Pick(combined, indices), b, m, |combined| - m)
  {
    assert Sum(combined) - Pick(combined, indices) == b;
  }

  // The observed split is one of those enumerated.
  lemma ObservedSplit(control: seq<real>, target: seq<real>)
    requires control != [] && target != []
    ensures var split := Run(0, |control|);
      && Occurrences(Combinations(0, |control + target|, |control|), split) == 1
      && DifferenceFor(control + target, split, |control|) == Observed(control, target)
  {
    var combined := control + target;
    RunIsEnumerated(combined, 0, |control|);
    assert combined[0..|control|] == control;
    SumConcat(control, target);
    DifferenceIsGap(combined, Run(0, |control|), |control|, Sum(target));
    assert |combined| - |control| == |target|;
    ObservedGap(control, target);
  }

  // With groups of equal size the complementary split is just as extreme.
  lemma MirrorSplit(control: seq<real>, target: seq<real>)
    requires control != [] && |control| == |target|
    ensures var split := Run(|control|, 2 * |control|);
      && Occurrences(Combinations(0, |control + target|, |control|), split) == 1
      && DifferenceFor(control + target, split, |control|) == Observed(control, target)
  {
    var combined := control + target;
    RunIsEnumerated(combined, |control|, |combined|);
    assert combined[|control|..|combined|] == target;
    SumConcat(control, target);
    DifferenceIsGap(combined, Run(|control|, |combined|), |control|, Sum(control));
    assert |combined| - |control| == |control|;
    ObservedGap(control, target);
  }

  lemma FractionBounds(low: int, x: int, count: int)
    requires 0 < count && low <= x <= count
    ensures low as real / count as real <= x as real / count as real <= 1.0
  {
  }

  lemma {:induction false} MemberCounts(combined: seq<real>, splits: seq<seq<nat>>, m: nat, threshold: real, s: seq<nat>)
    requires 0 < m < |combined| && DifferenceFor(combined, s, m) >= threshold
    ensures Occurrences(splits, s) <= CountExtreme(combined, splits, m, threshold)
  {
    if splits != [] {
      MemberCounts(combined, splits[1..], m, threshold, s);
    }
  }

  lemma {:induction false} TwoMembersCount(combined: seq<real>, splits: seq<seq<nat>>, m: nat, threshold: real,
                                           s: seq<nat>, t: seq<nat>)
    requires 0 < m < |combined| && s != t
    requires DifferenceFor(combined, s, m) >= threshold && DifferenceFor(combined, t, m) >= threshold
    ensures Occurrences(splits, s) + Occurrences(splits, t) <= CountExtreme(combined, splits, m, threshold)
  {
    if splits != [] {
      TwoMembersCount(combined, splits[1..], m, threshold, s, t);
    }
  }

  // With groups of equal size the mirror image of the observed split is extreme as well.
  lemma MirrorCounts(control: seq<real>, target: seq<real>, splits: seq<seq<nat>>)
    requires |control| >= 2 && |target| == |control|
    requires splits == Combinations(0, |control + target|, |control|)
    ensures CountExtreme(control + target, splits, |control|, Threshold(Observed(control, target))) >= 2
  {
    var combined, m := control + target, |control|;
    ObservedSplit(control, target);
    MirrorSplit(control, target);
    var own, mirror := Run(0, m), Run(m, 2 * m);
    assert own[0] != mirror[0];
    TwoMembersCount(combined, splits, m, Threshold(Observed(control, target)), own, mirror);
  }

  lemma ExtremeSplits(control: seq<real>, target: seq<real>)
    requires |control| >= 2 && |target| >= 2
    ensures var extreme := CountExtreme(control + target, Combinations(0, |control + target|, |control|),
                                        |control|, Threshold(Observed(control, target)));
      && 1 <= extreme <= Comb(|control + target|, |control|)
      && (|control| == |target| ==> 2 <= extreme)
  {
    var combined, m := control + target, |control|;
    var splits := Combinations(0, |combined|, m);
    var threshold := Threshold(Observed(control, target));
    CombinationsCount(0, |combined|, m);
    ExtremeAtMostAll(combined, splits, m, threshold);
    ObservedSplit(control, target);
    MemberCounts(combined, splits, m, threshold, Run(0, m));
    if m == |target| {
      MirrorCounts(control, target, splits);
    }
  }

  lemma {:induction false} ExactPBounds(combined: seq<real>, m: nat, threshold: real, low: nat)
    requires 0 < m < |combined|
    requires low <= CountExtreme(combined, Combinations(0, |combined|, m), m, threshold) <= Comb(|combined|, m)
    ensures Comb(|combined|, m) > 0
    ensures low as real / Comb(|combined|, m) as real <= ExactP(combined, m, threshold).p <= 1.0
  {
    CombPositive(|combined|, m);
    FractionBounds(low, CountExtreme(combined, Combinations(0, |combined|, m), m, threshold), Comb(|combined|, m));
  }

  lemma ExactPWithin(control: seq<real>, target: seq<real>)
    requires |control| >= 2 && |target| >= 2
    ensures var count := Comb(|control + target|, |control|);
      var p := ExactP(control + target, |control|, Threshold(Observed(control, target))).p;
      && count > 0 && 1.0 / count as real <= p <= 1.0
      && (|control| == |target| ==> 2.0 / count as real <= p)
  {
    var combined, threshold := control + target, Threshold(Observed(control, target));
    ExtremeSplits(control, target);
    ExactPBounds(combined, |control|, threshold, 1);
    if |control| == |target| {
      ExactPBounds(combined, |control|, threshold, 2);
    }
  }

  /** An exact p-value counts the observed split at least, and with equal groups its mirror image as well. */
  lemma ExactBounds(control: seq<real>, target: seq<real>, draws: seq<seq<nat>>)
    requires |draws| == DRAW_COUNT && |control| >= 2 && |target| >= 2
    requires Comb(|control + target|, |control|) <= EXACT_LIMIT
    ensures var count := Comb(|control + target|, |control|);
      var r := PermutationPValue(control, target, draws);
      && count > 0
      && r.Some? && r.value.test == ExactPermutation
      && 1.0 / count as real <= r.value.p <= 1.0
      && (|control| == |target| ==> 2.0 / count as real <= r.value.p)
  {
    ExactTest(control, target, draws, control + target, Observed(control, target));
    ExactPWithin(control, target);
  }

  /** Whatever the generator draws, the Monte Carlo value is positive and at most one. */
  lemma MonteCarloBounds(control: seq<real>, target: seq<real>, draws: seq<seq<nat>>)
    requires |draws| == DRAW_COUNT && |control| >= 2 && |target| >= 2
    requires Comb(|control + target|, |control|) > EXACT_LIMIT
    ensures var r := PermutationPValue(control, target, draws);
      r.Some? && r.value.test == MonteCarloPermutation && 1.0 / 5000.0 <= r.value.p <= 1.0
  {
    var combined := control + target;
    var threshold := Threshold(Observed(control, target));
    ExtremeAtMostAll(combined, draws, |control|, threshold);
    FractionBounds(1, CountExtreme(combined, draws, |control|, threshold) + 1, DRAW_COUNT + 1);
  }

  // ----- a count without index tuples -----

  // Is a split extreme, when the chosen values sum to a and the others to b?
  type Extreme = (real, real) -> bool

  function GapReaches(m: nat, n: nat, threshold: real): Extreme
    requires m > 0 && n > 0
  {
    (a, b) => MeanGap(a, b, m, n) >= threshold
  }

  // In how many ways can k of xs be added to a and the others to b, so that the outcome is extreme?
  function CountSplits(xs: seq<real>, k: int, a: real, b: real, extreme: Extreme): nat {
    if k < 0 || k > |xs| then 0
    else if xs == [] then if extreme(a, b) then 1 else 0
    else
      CountSplits(xs[1..], k - 1, a + xs[0], b, extreme) + CountSplits(xs[1..], k, a, b + xs[0], extreme)
  }

  lemma SplitsStep(x: real, rest: seq<real>, k: int, a: real, b: real, extreme: Extreme)
    ensures CountSplits([x] + rest, k, a, b, extreme)
         == CountSplits(rest, k - 1, a + x, b, extreme) + CountSplits(rest, k, a, b + x, extreme)
  {
    assert ([x] + rest)[1..] == rest;
  }

  lemma {:induction false} AllOthers(xs: seq<real>, a: real, b: real, extreme: Extreme)
    ensures CountSplits(xs, 0, a, b, extreme) == if extreme(a, b + Sum(xs)) then 1 else 0
  {
    if xs != [] {
      AllOthers(xs[1..], a, b + xs[0], extreme);
      assert b + xs[0] + Sum(xs[1..]) == b + Sum(xs);
    }
  }

  // How many index tuples complete a choice that so far sums to a?
  function CountTails(combined: seq<real>, tails: seq<seq<nat>>, a: real, extreme: Extreme): nat {
    if tails == [] then 0
    else
      var controlSum := a + Pick(combined, tails[0]);
      (if extreme(controlSum, Sum(combined) - controlSum) then 1 else 0) + CountTails(combined, tails[1..], a, extreme)
  }

  lemma {:induction false} CountTailsConcat(combined: seq<real>, s: seq<seq<nat>>, t: seq<seq<nat>>, a: real,
                                            extreme: Extreme)
    ensures CountTails(combined, s + t, a, extreme)
         == CountTails(combined, s, a, extreme) + CountTails(combined, t, a, extreme)
  {
    if s == [] {
      assert s + t == t;
    } else {
      assert (s + t)[1..] == s[1..] + t;
      CountTailsConcat(combined, s[1..], t, a, extreme);
    }
  }

  lemma {:induction false} CountTailsPrepend(combined: seq<real>, x: nat, tails: seq<seq<nat>>, a: real, extreme: Extreme)
    requires x < |combined|
    ensures CountTails(combined, Prepend(x, tails), a, extreme) == CountTails(combined, tails, a + combined[x], extreme)
  {
    if tails != [] {
      assert Prepend(x, tails)[1..] == Prepend(x, tails[1..]);
      assert ([x] + tails[0])[1..] == tails[0];
      assert a + Pick(combined, [x] + tails[0]) == a + combined[x] + Pick(combined, tails[0]);
      CountTailsPrepend(combined, x, tails[1..], a, extreme);
    }
  }

  // What the indices below lo have left in the other group, when a of their sum was chosen.
  function Others(combined: seq<real>, lo: nat, a: real): real
    requires lo <= |combined|
  {
    Sum(combined) - Sum(combined[lo..]) - a
  }

  lemma OthersStep(combined: seq<real>, lo: nat, a: real)
    requires lo < |combined|
    ensures Others(combined, lo + 1, a + combined[lo]) == Others(combined, lo, a)
    ensures Others(combined, lo + 1, a) == Others(combined, lo, a) + combined[lo]
  {
    assert combined[lo..][1..] == combined[lo + 1..];
  }

  lemma TailsStep(combined: seq<real>, lo: nat, k: nat, a: real, extreme: Extreme)
    requires lo < |combined| && k > 0
    ensures CountTails(combined, Combinations(lo, |combined|, k), a, extreme)
         == CountTails(combined, Combinations(lo + 1, |combined|, k - 1), a + combined[lo], extreme)
          + CountTails(combined, Combinations(lo + 1, |combined|, k), a, extreme)
  {
    var with := Combinations(lo + 1, |combined|, k - 1);
    CountTailsConcat(combined, Prepend(lo, with), Combinations(lo + 1, |combined|, k), a, extreme);
    CountTailsPrepend(combined, lo, with, a, extreme);
  }

  // CountSplits decides value by value what the enumeration decides index tuple by index tuple.
  ghost function Surplus(combined: seq<real>, lo: nat, k: nat, a: real, extreme: Extreme): int
    requires lo <= |combined|
  {
    CountTails(combined, Combinations(lo, |combined|, k), a, extreme)
    - CountSplits(combined[lo..], k, a, Others(combined, lo, a), extreme)
  }

  lemma OneTail(combined: seq<real>, a: real, extreme: Extreme)
    ensures CountTails(combined, [[]], a, extreme) == if extreme(a, Sum(combined) - a) then 1 else 0
  {
    var one: seq<seq<nat>> := [[]];
    assert a + Pick(combined, one[0]) == a;
    assert one[1..] == [];
  }

  lemma NoTail(combined: seq<real>, lo: nat, a: real, extreme: Extreme)
    requires lo <= |combined|
    ensures Surplus(combined, lo, 0, a, extreme) == 0
  {
    OneTail(combined, a, extreme);
    AllOthers(combined[lo..], a, Others(combined, lo, a), extreme);
    assert Others(combined, lo, a) + Sum(combined[lo..]) == Sum(combined) - a;
  }

  lemma NothingLeft(combined: seq<real>, k: nat, a: real, extreme: Extreme)
    requires k > 0
    ensures Surplus(combined, |combined|, k, a, extreme) == 0
  {
    assert Combinations(|combined|, |combined|, k) == [];
  }

  lemma SuffixStep(combined: seq<real>, lo: nat, k: int, a: real, b: real, extreme: Extreme)
    requires lo < |combined|
    ensures CountSplits(combined[lo..], k, a, b, extreme)
         == CountSplits(combined[lo + 1..], k - 1, a + combined[lo], b, extreme)
          + CountSplits(combined[lo + 1..], k, a, b + combined[lo], extreme)
  {
    assert combined[lo..] == [combined[lo]] + combined[lo + 1..];
    SplitsStep(combined[lo], combined[lo + 1..], k, a, b, extreme);
  }

  // The values before lo that were not chosen are on the other side.
  lemma RestStep(combined: seq<real>, lo: nat, k: nat, a: real, extreme: Extreme)
    requires lo < |combined| && k > 0
    ensures CountSplits(combined[lo..], k, a, Others(combined, lo, a), extreme)
         == CountSplits(combined[lo + 1..], k - 1, a + combined[lo], Others(combined, lo + 1, a + combined[lo]), extreme)
          + CountSplits(combined[lo + 1..], k, a, Others(combined, lo + 1, a), extreme)
  {
    OthersStep(combined, lo, a);
    SuffixStep(combined, lo, k, a, Others(combined, lo, a), extreme);
  }

  lemma SurplusStep(combined: seq<real>, lo: nat, k: nat, a: real, extreme: Extreme)
    requires lo < |combined| && k > 0
    requires Surplus(combined, lo + 1, k - 1, a + combined[lo], extreme) == 0
    requires Surplus(combined, lo + 1, k, a, extreme) == 0
    ensures Surplus(combined, lo, k, a, extreme) == 0
  {
    TailsStep(combined, lo, k, a, extreme);
    RestStep(combined, lo, k, a, extreme);
  }

  lemma {:induction false} TailsAreSplits(combined: seq<real>, lo: nat, k: nat, a: real, extreme: Extreme)
    requires lo <= |combined|
    ensures Surplus(combined, lo, k, a, extreme) == 0
    decreases |combined| - lo
  {
    if k == 0 {
      NoTail(combined, lo, a, extreme);
    } else if lo == |combined| {
      NothingLeft(combined, k, a, extreme);
    } else {
      TailsAreSplits(combined, lo + 1, k - 1, a + combined[lo], extreme);
      TailsAreSplits(combined, lo + 1, k, a, extreme);
      SurplusStep(combined, lo, k, a, extreme);
    }
  }

  lemma {:induction false} ExtremesAreTails(combined: seq<real>, splits: seq<seq<nat>>, m: nat, threshold: real)
    requires 0 < m < |combined|
    ensures CountExtreme(combined, splits, m, threshold)
         == CountTails(combined, splits, 0.0, GapReaches(m, |combined| - m, threshold))
  {
    if splits != [] {
      ExtremesAreTails(combined, splits[1..], m, threshold);
      assert 0.0 + Pick(combined, splits[0]) == Pick(combined, splits[0]);
    }
  }

  lemma ExactCount(combined: seq<real>, m: nat, threshold: real)
    requires 0 < m < |combined|
    ensures CountExtreme(combined, Combinations(0, |combined|, m), m, threshold)
         == CountSplits(combined, m, 0.0, 0.0, GapReaches(m, |combined| - m, threshold))
  {
    var extreme := GapReaches(m, |combined| - m, threshold);
    ExtremesAreTails(combined, Combinations(0, |combined|, m), m, threshold);
    TailsAreSplits(combined, 0, m, 0.0, extreme);
    assert combined[0..] == combined;
    assert Others(combined, 0, 0.0) == 0.0;
  }

  // ----- symmetry -----

  /** Choosing a group is choosing its complement. */
  lemma {:induction false} ComplementSplits(xs: seq<real>, k: int, a: real, b: real, extreme: Extreme, mirrored: Extreme)
    requires forall u, v :: mirrored(v, u) == extreme(u, v)
    ensures CountSplits(xs, k, a, b, extreme) == CountSplits(xs, |xs| - k, b, a, mirrored)
  {
    if xs != [] && 0 <= k <= |xs| {
      ComplementSplits(xs[1..], k - 1, a + xs[0], b, extreme, mirrored);
      ComplementSplits(xs[1..], k, a, b + xs[0], extreme, mirrored);
    }
  }

  lemma TwoStepsOfSplits(x: real, y: real, zs: seq<real>, k: int, a: real, b: real, extreme: Extreme)
    ensures CountSplits([x, y] + zs, k, a, b, extreme)
         == CountSplits(zs, k - 2, a + x + y, b, extreme)
          + CountSplits(zs, k - 1, a + x, b + y, extreme)
          + CountSplits(zs, k - 1, a + y, b + x, extreme)
          + CountSplits(zs, k, a, b + x + y, extreme)
  {
    assert [x, y] + zs == [x] + ([y] + zs);
    SplitsStep(x, [y] + zs, k, a, b, extreme);
    SplitsStep(y, zs, k - 1, a + x, b, extreme);
    SplitsStep(y, zs, k, a, b + x, extreme);
  }

  lemma SwapFirstTwo(x: real, y: real, zs: seq<real>, k: int, a: real, b: real, extreme: Extreme)
    ensures CountSplits([x, y] + zs, k, a, b, extreme) == CountSplits([y, x] + zs, k, a, b, extreme)
  {
    TwoStepsOfSplits(x, y, zs, k, a, b, extreme);
    TwoStepsOfSplits(y, x, zs, k, a, b, extreme);
    assert a + y + x == a + x + y && b + y + x == b + x + y;
  }

  lemma {:induction false} MoveBack(x: real, ys: seq<real>, zs: seq<real>, k: int, a: real, b: real, extreme: Extreme)
    ensures CountSplits([x] + ys + zs, k, a, b, extreme) == CountSplits(ys + [x] + zs, k, a, b, extreme)
    decreases |ys|
  {
    if ys == [] {
      assert [x] + ys + zs == ys + [x] + zs;
    } else {
      var y, rest := ys[0], ys[1..];
      SwapFirstTwo(x, y, rest + zs, k, a, b, extreme);
      assert [x, y] + (rest + zs) == [x] + ys + zs;
      assert [y, x] + (rest + zs) == [y] + ([x] + rest + zs);
      SplitsStep(y, [x] + rest + zs, k, a, b, extreme);
      MoveBack(x, rest, zs, k - 1, a + y, b, extreme);
      MoveBack(x, rest, zs, k, a, b + y, extreme);
      SplitsStep(y, rest + [x] + zs, k, a, b, extreme);
      assert [y] + (rest + [x] + zs) == ys + [x] + zs;
    }
  }

  /** The pooled sample may be listed in either order. */
  lemma {:induction false} SwapSplits(xs: seq<real>, ys: seq<real>, k: int, a: real, b: real, extreme: Extreme)
    ensures CountSplits(xs + ys, k, a, b, extreme) == CountSplits(ys + xs, k, a, b, extreme)
    decreases |xs|
  {
    if xs == [] {
      assert xs + ys == ys + xs;
    } else {
      var x, rest := xs[0], xs[1..];
      assert xs + ys == [x] + (rest + ys);
      SplitsStep(x, rest + ys, k, a, b, extreme);
      SwapSplits(rest, ys, k - 1, a + x, b, extreme);
      SwapSplits(rest, ys, k, a, b + x, extreme);
      SplitsStep(x, ys + rest, k, a, b, extreme);
      MoveBack(x, ys, rest, k, a, b, extreme);
      assert [x] + ys + rest == [x] + (ys + rest);
      assert ys + [x] + rest == ys + xs;
    }
  }

  lemma {:induction false} CombIsSymmetric(n: nat, k: nat)
    requires k <= n
    ensures Comb(n, k) == Comb(n, n - k)
  {
    CombIsBinomial(n, k);
    CombIsBinomial(n, n - k);
    var f := Factorial(k) * Factorial(n - k);
    assert n - (n - k) == k;
    assert Factorial(n - k) * Factorial(k) == f;
    assert f > 0;
    CancelFactor(Comb(n, k), Comb(n, n - k), f);
  }

  lemma CancelFactor(a: nat, b: nat, f: nat)
    requires f > 0 && a * f == b * f
    ensures a == b
  {
  }

  lemma GapIsSymmetric(a: real, b: real, m: nat, n: nat)
    requires m > 0 && n > 0
    ensures MeanGap(a, b, m, n) == MeanGap(b, a, n, m)
  {
  }

  lemma {:induction false} SwappedCount(control: seq<real>, target: seq<real>, threshold: real)
    requires |control| >= 2 && |target| >= 2
    ensures CountExtreme(control + target, Combinations(0, |control + target|, |control|), |control|, threshold)
         == CountExtreme(target + control, Combinations(0, |target + control|, |target|), |target|, threshold)
  {
    var m, n := |control|, |target|;
    var extreme, mirrored := GapReaches(m, n, threshold), GapReaches(n, m, threshold);
    ExactCount(control + target, m, threshold);
    ExactCount(target + control, n, threshold);
    SwapSplits(control, target, m, 0.0, 0.0, extreme);
    forall u, v ensures mirrored(v, u) == extreme(u, v) {
      GapIsSymmetric(u, v, m, n);
    }
    ComplementSplits(target + control, m, 0.0, 0.0, extreme, mirrored);
  }

  /** Which group is called the control makes no difference to an exact p-value. */
  lemma GroupsAreInterchangeable(control: seq<real>, target: seq<real>, draws: seq<seq<nat>>, draws': seq<seq<nat>>)
    requires |draws| == DRAW_COUNT == |draws'|
    requires Comb(|control + target|, |control|) <= EXACT_LIMIT
    ensures PermutationPValue(control, target, draws) == PermutationPValue(target, control, draws')
  {
    if |control| >= 2 && |target| >= 2 {
      assert |control + target| == |control| + |target| == |target + control|;
      assert Comb(|control + target|, |control|) == Comb(|target + control|, |target|) by {
        CombIsSymmetric(|control| + |target|, |control|);
      }
      ObservedGap(control, target);
      ObservedGap(target, control);
      SwappedCount(control, target, Threshold(Observed(control, target)));
    }
  }

  // ----- shifting every value -----

  function Shift(xs: seq<real>, c: real): (r: seq<real>)
    ensures |r| == |xs| && forall i :: 0 <= i < |xs| ==> r[i] == xs[i] + c
  {
    seq(|xs|, i requires 0 <= i < |xs| => xs[i] + c)
  }

  lemma {:induction false} ShiftedSum(xs: seq<real>, c: real)
    ensures Sum(Shift(xs, c)) == Sum(xs) + c * |xs| as real
  {
    if xs != [] {
      assert Shift(xs, c)[1..] == Shift(xs[1..], c);
      ShiftedSum(xs[1..], c);
    }
  }

  lemma ShiftedMean(sum: real, c: real, n: nat)
    requires n > 0
    ensures (sum + c * n as real) / n as real == sum / n as real + c
  {
    var q := sum / n as real;
    assert (q + c) * n as real == sum + c * n as real;
  }

  function Times(c: real, i: int): real { c * i as real }

  lemma TimesStep(c: real, i: int)
    ensures Times(c, i + 1) == Times(c, i) + c
  {
  }

  lemma MeanOfShifted(xs: seq<real>, c: real)
    requires xs != []
    ensures Mean(Shift(xs, c)) == Mean(xs) + c
  {
    ShiftedSum(xs, c);
    ShiftedMean(Sum(xs), c, |xs|);
  }

  lemma ShiftedGap(a: real, b: real, c: real, m: nat, n: nat)
    requires m > 0 && n > 0
    ensures MeanGap(a + Times(c, m), b + Times(c, n), m, n) == MeanGap(a, b, m, n)
  {
    ShiftedMean(a, c, m);
    ShiftedMean(b, c, n);
  }

  lemma ShiftStep(a: real, x: real, c: real, i: int)
    ensures a + Times(c, i) + (x + c) == a + x + Times(c, i + 1)
  {
    TimesStep(c, i);
  }

  ghost predicate IgnoresShift(extreme: Extreme, c: real, m: int, n: int) {
    forall u, v :: extreme(u + Times(c, m), v + Times(c, n)) == extreme(u, v)
  }

  lemma GapIgnoresShift(c: real, m: nat, n: nat, threshold: real)
    requires m > 0 && n > 0
    ensures IgnoresShift(GapReaches(m, n, threshold), c, m, n)
  {
    forall u, v ensures MeanGap(u + Times(c, m), v + Times(c, n), m, n) == MeanGap(u, v, m, n) {
      ShiftedGap(u, v, c, m, n);
    }
  }

  // When i values already ended up in a and j in b, a shift by c has moved them by i and j times c.
  ghost function ShiftSurplus(xs: seq<real>, k: int, a: real, b: real, i: int, j: int, c: real, extreme: Extreme): int {
    CountSplits(Shift(xs, c), k, a + Times(c, i), b + Times(c, j), extreme) - CountSplits(xs, k, a, b, extreme)
  }

  // Two samples whose counts agree with either first value chosen agree in their counts.
  lemma SplitsAlike(x: real, xs: seq<real>, a: real, b: real, y: real, ys: seq<real>, u: real, v: real, k: int,
                    extreme: Extreme)
    requires CountSplits(ys, k - 1, u + y, v, extreme) == CountSplits(xs, k - 1, a + x, b, extreme)
    requires CountSplits(ys, k, u, v + y, extreme) == CountSplits(xs, k, a, b + x, extreme)
    ensures CountSplits([y] + ys, k, u, v, extreme) == CountSplits([x] + xs, k, a, b, extreme)
  {
    SplitsStep(x, xs, k, a, b, extreme);
    SplitsStep(y, ys, k, u, v, extreme);
  }

  lemma ShiftSurplusStep(xs: seq<real>, k: int, a: real, b: real, i: int, j: int, c: real, extreme: Extreme)
    requires xs != []
    requires ShiftSurplus(xs[1..], k - 1, a + xs[0], b, i + 1, j, c, extreme) == 0
    requires ShiftSurplus(xs[1..], k, a, b + xs[0], i, j + 1, c, extreme) == 0
    ensures ShiftSurplus(xs, k, a, b, i, j, c, extreme) == 0
  {
    var x, rest := xs[0], xs[1..];
    var u, v := a + Times(c, i), b + Times(c, j);
    ShiftStep(a, x, c, i);
    ShiftStep(b, x, c, j);
    SplitsAlike(x, rest, a, b, x + c, Shift(rest, c), u, v, k, extreme);
    assert xs == [x] + rest && Shift(xs, c) == [x + c] + Shift(rest, c);
  }

  lemma {:induction false} ShiftedSplits(xs: seq<real>, k: int, a: real, b: real, i: int, j: int, c: real,
                                         extreme: Extreme)
    requires IgnoresShift(extreme, c, i + k, j + |xs| - k)
    ensures ShiftSurplus(xs, k, a, b, i, j, c, extreme) == 0
    decreases |xs|
  {
    if xs != [] {
      ShiftedSplits(xs[1..], k - 1, a + xs[0], b, i + 1, j, c, extreme);
      ShiftedSplits(xs[1..], k, a, b + xs[0], i, j + 1, c, extreme);
      ShiftSurplusStep(xs, k, a, b, i, j, c, extreme);
    }
  }

  lemma ShiftedFromNothing(xs: seq<real>, k: int, c: real, extreme: Extreme)
    requires IgnoresShift(extreme, c, k, |xs| - k)
    ensures CountSplits(Shift(xs, c), k, 0.0, 0.0, extreme) == CountSplits(xs, k, 0.0, 0.0, extreme)
  {
    assert 0.0 + Times(c, 0) == 0.0;
    ShiftedSplits(xs, k, 0.0, 0.0, 0, 0, c, extreme);
  }

  lemma ShiftedCount(combined: seq<real>, m: nat, c: real, threshold: real)
    requires 0 < m < |combined|
    ensures CountExtreme(Shift(combined, c), Combinations(0, |combined|, m), m, threshold)
         == CountExtreme(combined, Combinations(0, |combined|, m), m, threshold)
  {
    var n := |combined| - m;
    var extreme := GapReaches(m, n, threshold);
    ExactCount(combined, m, threshold);
    ExactCount(Shift(combined, c), m, threshold);
    assert CountSplits(Shift(combined, c), m, 0.0, 0.0, extreme) == CountSplits(combined, m, 0.0, 0.0, extreme) by {
      GapIgnoresShift(c, m, n, threshold);
      ShiftedFromNothing(combined, m, c, extreme);
    }
  }

  lemma ShiftedP(combined: seq<real>, m: nat, c: real, threshold: real)
    requires 0 < m < |combined|
    ensures ExactP(Shift(combined, c), m, threshold) == ExactP(combined, m, threshold)
  {
    ShiftedCount(combined, m, c, threshold);
  }

  lemma ShiftConcat(xs: seq<real>, ys: seq<real>, c: real)
    ensures Shift(xs, c) + Shift(ys, c) == Shift(xs + ys, c)
  {
  }

  lemma ShiftedObserved(control: seq<real>, target: seq<real>, c: real)
    requires control != [] && target != []
    ensures Observed(Shift(control, c), Shift(target, c)) == Observed(control, target)
  {
    MeanOfShifted(control, c);
    MeanOfShifted(target, c);
  }

  /** Adding a constant to every measurement leaves an exact p-value alone. */
  lemma {:induction false} ShiftInvariant(control: seq<real>, target: seq<real>, c: real, draws: seq<seq<nat>>)
    requires |draws| == DRAW_COUNT
    requires Comb(|control + target|, |control|) <= EXACT_LIMIT
    ensures PermutationPValue(Shift(control, c), Shift(target, c), draws) == PermutationPValue(control, target, draws)
  {
    if |control| >= 2 && |target| >= 2 {
      var combined := control + target;
      var observed := Observed(control, target);
      ExactTest(control, target, draws, combined, observed);
      ShiftedObserved(control, target, c);
      ShiftConcat(control, target, c);
      ExactTest(Shift(control, c), Shift(target, c), draws, Shift(combined, c), observed);
      ShiftedP(combined, |control|, c, Threshold(observed));
    }
  }
}

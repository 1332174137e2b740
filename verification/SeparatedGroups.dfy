// The exact p-value of groups that do not overlap (src/web/jv_parser.py): when is it the least there can be?
module SeparatedGroups {
  import opened Permutation
  import opened Reals
  import opened Sorting
  import opened Wrappers
  import E = ExactTest

  // ----- the order of the pooled values makes no difference -----

  lemma {:induction false} PermutedSplits(xs: seq<real>, ys: seq<real>, k: int, a: real, b: real, extreme: Extreme)
    requires multiset(xs) == multiset(ys)
    ensures CountSplits(xs, k, a, b, extreme) == CountSplits(ys, k, a, b, extreme)
    decreases |xs|
  {
    if xs == [] {
      assert |multiset(ys)| == 0;
    } else {
      var i := TakeOut(xs, ys);
      var x, rest, before, after := xs[0], xs[1..], ys[..i], ys[i + 1..];
      assert xs == [x] + rest;
      MoveBack(x, before, after, k, a, b, extreme);
      assert [x] + before + after == [x] + (before + after);
      SplitsStep(x, rest, k, a, b, extreme);
      SplitsStep(x, before + after, k, a, b, extreme);
      PermutedSplits(rest, before + after, k - 1, a + x, b, extreme);
      PermutedSplits(rest, before + after, k, a, b + x, extreme);
    }
  }

  /** How many choices are extreme depends on the pooled values only, not on their order. */
  lemma PermutedCount(xs: seq<real>, ys: seq<real>, m: nat, threshold: real)
    requires multiset(xs) == multiset(ys) && 0 < m < |xs|
    ensures |xs| == |ys|
    ensures CountExtreme(xs, Combinations(0, |xs|, m), m, threshold)
         == CountExtreme(ys, Combinations(0, |ys|, m), m, threshold)
  {
    assert |multiset(xs)| == |xs| && |multiset(ys)| == |ys|;
    ExactCount(xs, m, threshold);
    ExactCount(ys, m, threshold);
    PermutedSplits(xs, ys, m, 0.0, 0.0, GapReaches(m, |xs| - m, threshold));
  }

  // ----- sums over choices from ascending values -----

  predicate InRange(s: seq<nat>, n: nat) { forall i :: 0 <= i < |s| ==> s[i] < n }

  lemma {:induction false} PickLeq(xs: seq<real>, s: seq<nat>, t: seq<nat>)
    requires |s| == |t| && InRange(s, |xs|) && InRange(t, |xs|)
    requires forall i :: 0 <= i < |s| ==> xs[s[i]] <= xs[t[i]]
    ensures Pick(xs, s) <= Pick(xs, t)
  {
    if s != [] {
      PickLeq(xs, s[1..], t[1..]);
    }
  }

  lemma {:induction false} PickGap(xs: seq<real>, s: seq<nat>, t: seq<nat>, j: nat, gap: real)
    requires |s| == |t| && j < |s| && InRange(s, |xs|) && InRange(t, |xs|)
    requires forall i :: 0 <= i < |s| ==> xs[s[i]] <= xs[t[i]]
    requires xs[t[j]] - xs[s[j]] >= gap
    ensures Pick(xs, s) + gap <= Pick(xs, t)
  {
    if j == 0 {
      PickLeq(xs, s[1..], t[1..]);
    } else {
      PickGap(xs, s[1..], t[1..], j - 1, gap);
    }
  }

  // The i-th smallest index of a choice is at least i, and leaves room for those above it.
  lemma {:induction false} SubsetBounds(s: seq<nat>, lo: nat, n: nat)
    requires IsSubset(s, lo, n)
    ensures forall i :: 0 <= i < |s| ==> lo + i <= s[i] && s[i] + |s| <= n + i
    ensures forall i, j :: 0 <= i < j < |s| ==> s[i] + (j - i) <= s[j]
  {
    if s != [] {
      SubsetBounds(s[1..], s[0] + 1, n);
      forall i | 0 < i < |s| ensures s[0] + i <= s[i] && s[i] + |s| <= n + i {
        assert s[i] == s[1..][i - 1];
      }
      forall i, j | 0 < i < j < |s| ensures s[i] + (j - i) <= s[j] {
        assert s[i] == s[1..][i - 1] && s[j] == s[1..][j - 1];
      }
      if |s| > 1 {
        assert s[1] == s[1..][0];
      }
    }
  }

  lemma EndsAre(s: seq<nat>, m: nat, n: nat)
    requires 0 < m < n && |s| == m && IsSubset(s, 0, n)
    ensures s[m - 1] <= m - 1 ==> s == Run(0, m)
    ensures s[0] >= n - m ==> s == Run(n - m, n)
  {
    SubsetBounds(s, 0, n);
    if s[m - 1] <= m - 1 {
      assert s == Run(0, m);
    }
    if s[0] >= n - m {
      assert s == Run(n - m, n);
    }
  }

  // Any choice of m but the lowest sums to at least the step between place m - 1 and place m more.
  lemma LowestSum(xs: seq<real>, s: seq<nat>, m: nat)
    requires Ascending(xs) && 0 < m < |xs| && |s| == m && IsSubset(s, 0, |xs|) && s != Run(0, m)
    ensures Pick(xs, Run(0, m)) + (xs[m] - xs[m - 1]) <= Pick(xs, s)
  {
    SubsetBounds(s, 0, |xs|);
    EndsAre(s, m, |xs|);
    PickGap(xs, Run(0, m), s, m - 1, xs[m] - xs[m - 1]);
  }

  // Any choice of m but the highest sums to at least the step between place n - 1 and place n less.
  lemma HighestSum(xs: seq<real>, s: seq<nat>, m: nat)
    requires Ascending(xs) && 0 < m < |xs| && |s| == m && IsSubset(s, 0, |xs|)
    ensures var n := |xs| - m;
      && Pick(xs, s) <= Pick(xs, Run(n, |xs|))
      && (s != Run(n, |xs|) ==> Pick(xs, s) + (xs[n] - xs[n - 1]) <= Pick(xs, Run(n, |xs|)))
  {
    var n := |xs| - m;
    var top := Run(n, |xs|);
    SubsetBounds(s, 0, |xs|);
    PickLeq(xs, s, top);
    if s != top {
      EndsAre(s, m, |xs|);
      PickGap(xs, s, top, 0, xs[n] - xs[n - 1]);
    }
  }

  // ----- the gap of a choice, by its sum -----

  function Scale(m: nat, n: nat): real
    requires m > 0 && n > 0
  {
    1.0 / m as real + 1.0 / n as real
  }

  // The difference of the means, with its sign, falls in proportion to the sum chosen.
  function Signed(total: real, a: real, m: nat, n: nat): real
    requires m > 0 && n > 0
  {
    (total - a) / n as real - a / m as real
  }

  lemma Quotients(x: real, y: real, k: nat)
    requires k > 0
    ensures (x + y) / k as real == x / k as real + y / k as real
    ensures y / k as real == y * (1.0 / k as real)
  {
    var d := 1.0 / k as real;
    assert d * k as real == 1.0;
    assert x * d * k as real == x && y * d * k as real == y && (x + y) * d * k as real == x + y;
  }

  lemma SignedShift(total: real, a: real, x: real, m: nat, n: nat)
    requires m > 0 && n > 0
    ensures Signed(total, a + x, m, n) == Signed(total, a, m, n) - Product(x, Scale(m, n))
  {
    Quotients(a, x, m);
    Quotients(total - a, -x, n);
    ProductSpread(x, 1.0 / m as real, 1.0 / n as real);
  }

  lemma ScaleIsPositive(m: nat, n: nat)
    requires m > 0 && n > 0
    ensures Scale(m, n) > 0.0
  {
  }

  lemma SignedFalls(total: real, a: real, b: real, m: nat, n: nat)
    requires m > 0 && n > 0 && a <= b
    ensures Signed(total, b, m, n) <= Signed(total, a, m, n)
  {
    SignedShift(total, a, b - a, m, n);
    ScaleIsPositive(m, n);
    ProductSigns(b - a, Scale(m, n));
  }

  lemma DifferenceIsSigned(xs: seq<real>, s: seq<nat>, m: nat)
    requires 0 < m < |xs|
    ensures DifferenceFor(xs, s, m) == Abs(Signed(Sum(xs), Pick(xs, s), m, |xs| - m))
  {
  }

  // ----- groups that do not overlap -----

  // Both groups sorted, the lower one first.
  function Pooled(control: seq<real>, target: seq<real>): seq<real> { SortReals(control) + SortReals(target) }

  predicate Separated(control: seq<real>, target: seq<real>) {
    forall i, j :: 0 <= i < |control| && 0 <= j < |target| ==> control[i] < target[j]
  }

  lemma PooledIs(control: seq<real>, target: seq<real>)
    requires control != [] && target != [] && Separated(control, target)
    ensures var pooled, m := Pooled(control, target), |control|;
      && |pooled| == |control| + |target| && multiset(pooled) == multiset(control + target)
      && Ascending(pooled) && pooled[m - 1] < pooled[m]
      && pooled[..m] == SortReals(control) && pooled[m..] == SortReals(target)
  {
    var c, t := SortReals(control), SortReals(target);
    var pooled := c + t;
    forall i, j | 0 <= i < |c| && 0 <= j < |t| ensures c[i] < t[j] {
      assert c[i] in multiset(c) && t[j] in multiset(t);
      assert c[i] in control && t[j] in target;
    }
    forall i, j | 0 <= i < j < |pooled| ensures pooled[i] <= pooled[j] {
      if i < |c| && |c| <= j {
        assert pooled[i] == c[i] && pooled[j] == t[j - |c|];
      }
    }
    assert pooled[|c| - 1] == c[|c| - 1] && pooled[|c|] == t[0];
  }

  // The gap of the choice that lowers the difference of the means least, as a step down from the observed one.
  function Step(control: seq<real>, target: seq<real>): real
    requires control != [] && target != []
  {
    var pooled, m := Pooled(control, target), |control|;
    Product(pooled[m] - pooled[m - 1], 1.0 / |control| as real + 1.0 / |target| as real)
  }

  // How far apart the means are when the highest values are chosen instead of the lowest.
  function Opposite(control: seq<real>, target: seq<real>): real
    requires control != [] && target != []
  {
    var pooled, n := Pooled(control, target), |target|;
    Mean(pooled[n..]) - Mean(pooled[..n])
  }

  lemma SignedObserved(control: seq<real>, target: seq<real>)
    requires control != [] && target != [] && Separated(control, target)
    ensures var pooled, m, n := Pooled(control, target), |control|, |target|;
      && |pooled| == m + n && Pick(pooled, Run(0, m)) == Sum(control) && Sum(pooled) == Sum(control) + Sum(target)
      && Observed(control, target) == Signed(Sum(pooled), Pick(pooled, Run(0, m)), m, n)
  {
    var pooled, m, n := Pooled(control, target), |control|, |target|;
    var c, t := SortReals(control), SortReals(target);
    PooledIs(control, target);
    SumOfPermuted(c, control);
    SumOfPermuted(t, target);
    SumConcat(c, t);
    PickRun(pooled, 0, m);
    assert pooled[0..m] == c;
    MeanInRange(c, c[0], c[m - 1]);
    MeanInRange(t, t[0], t[n - 1]);
    assert Mean(c) == Mean(control) && Mean(t) == Mean(target);
    assert c[m - 1] == pooled[m - 1] && t[0] == pooled[m];
  }

  lemma SignedSplit(low: seq<real>, high: seq<real>)
    requires low != [] && high != []
    ensures Signed(Sum(low + high), Sum(high), |high|, |low|) == Mean(low) - Mean(high)
  {
    SumConcat(low, high);
    SignedIs(Sum(low + high), Sum(high), Sum(low), |high|, |low|);
  }

  lemma SignedIs(total: real, a: real, b: real, m: nat, n: nat)
    requires m > 0 && n > 0 && total == a + b
    ensures Signed(total, a, m, n) == b / n as real - a / m as real
  {
    assert total - a == b;
  }

  lemma SignedOpposite(control: seq<real>, target: seq<real>)
    requires control != [] && target != [] && Separated(control, target)
    ensures var pooled, m, n := Pooled(control, target), |control|, |target|;
      |pooled| == m + n && Opposite(control, target) == -Signed(Sum(pooled), Pick(pooled, Run(n, m + n)), m, n)
  {
    var pooled, n := Pooled(control, target), |target|;
    PickRun(pooled, n, |pooled|);
    assert pooled[n..|pooled|] == pooled[n..];
    SignedSplit(pooled[..n], pooled[n..]);
    assert pooled == pooled[..n] + pooled[n..];
  }

  lemma SignedBetween(total: real, low: real, a: real, high: real, gap: real, m: nat, n: nat)
    requires m > 0 && n > 0 && low + gap <= a <= high
    ensures Signed(total, a, m, n) <= Signed(total, low, m, n) - Product(gap, Scale(m, n))
    ensures -Signed(total, a, m, n) <= -Signed(total, high, m, n)
    ensures a + gap <= high ==> -Signed(total, a, m, n) <= -Signed(total, high, m, n) - Product(gap, Scale(m, n))
  {
    SignedShift(total, low, gap, m, n);
    SignedFalls(total, low + gap, a, m, n);
    SignedFalls(total, a, high, m, n);
    if a + gap <= high {
      SignedShift(total, a, gap, m, n);
      SignedFalls(total, a + gap, high, m, n);
    }
  }

  lemma OppositeIsObserved(control: seq<real>, target: seq<real>)
    requires control != [] && |target| == |control| && Separated(control, target)
    ensures Opposite(control, target) == Observed(control, target)
  {
    var pooled, m := Pooled(control, target), |control|;
    PooledIs(control, target);
    SignedObserved(control, target);
    SumOfPermuted(SortReals(control), control);
    SumOfPermuted(SortReals(target), target);
  }

  // ----- counting -----

  lemma {:induction false} OnlyThese(xs: seq<real>, splits: seq<seq<nat>>, m: nat, threshold: real,
                                     s: seq<nat>, t: seq<nat>)
    requires 0 < m < |xs| && s != t
    requires forall r :: r in splits && DifferenceFor(xs, r, m) >= threshold ==> r == s || r == t
    ensures CountExtreme(xs, splits, m, threshold) <= Occurrences(splits, s) + Occurrences(splits, t)
  {
    if splits != [] {
      OnlyThese(xs, splits[1..], m, threshold, s, t);
    }
  }

  lemma {:induction false} ThreeMembersCount(xs: seq<real>, splits: seq<seq<nat>>, m: nat, threshold: real,
                                             r: seq<nat>, s: seq<nat>, t: seq<nat>)
    requires 0 < m < |xs| && r != s && r != t && s != t
    requires DifferenceFor(xs, r, m) >= threshold && DifferenceFor(xs, s, m) >= threshold
    requires DifferenceFor(xs, t, m) >= threshold
    ensures Occurrences(splits, r) + Occurrences(splits, s) + Occurrences(splits, t)
         <= CountExtreme(xs, splits, m, threshold)
  {
    if splits != [] {
      ThreeMembersCount(xs, splits[1..], m, threshold, r, s, t);
    }
  }

  // The lowest choice with its last value exchanged for the next.
  function Exchanged(m: nat): (s: seq<nat>)
    requires m > 0
    ensures |s| == m && s[m - 1] == m && forall i :: 0 <= i < m - 1 ==> s[i] == i
  {
    Run(0, m - 1) + [m]
  }

  lemma {:induction false} ExchangedFrom(lo: nat, m: nat, n: nat)
    requires lo < m < n
    ensures IsSubset(Run(lo, m - 1) + [m], lo, n)
    decreases m - lo
  {
    var s := Run(lo, m - 1) + [m];
    if lo == m - 1 {
      assert s == [m] && s[1..] == [];
    } else {
      ExchangedFrom(lo + 1, m, n);
      assert s[0] == lo && s[1..] == Run(lo + 1, m - 1) + [m];
    }
  }

  lemma ExchangedSum(xs: seq<real>, m: nat)
    requires 0 < m < |xs|
    ensures Pick(xs, Exchanged(m)) == Pick(xs, Run(0, m)) + (xs[m] - xs[m - 1])
  {
    PickConcat(xs, Run(0, m - 1), [m]);
    PickConcat(xs, Run(0, m - 1), [m - 1]);
    assert Run(0, m) == Run(0, m - 1) + [m - 1];
    assert [m][1..] == [] && [m - 1][1..] == [];
  }

  lemma {:induction false} PickConcat(xs: seq<real>, s: seq<nat>, t: seq<nat>)
    ensures Pick(xs, s + t) == Pick(xs, s) + Pick(xs, t)
  {
    if s == [] {
      assert s + t == t;
    } else {
      PickConcat(xs, s[1..], t);
      assert (s + t)[0] == s[0] && (s + t)[1..] == s[1..] + t;
    }
  }

  // Each of the three is enumerated, once, and nothing shorter is.
  lemma ThreeOccur(m: nat, n: nat)
    requires m > 0 && n > 0
    ensures var splits := Combinations(0, m + n, m);
      && Occurrences(splits, Run(0, m)) == Occurrences(splits, Run(n, m + n)) == 1
      && Occurrences(splits, Exchanged(m)) == 1 && Occurrences(splits, []) == 0
  {
    RunIsSubset(0, m, m + n);
    RunIsSubset(n, m + n, m + n);
    assert IsSubset(Run(n, m + n), 0, m + n);
    ExchangedFrom(0, m, m + n);
    EnumeratedOnce(0, m + n, m, Run(0, m));
    EnumeratedOnce(0, m + n, m, Run(n, m + n));
    EnumeratedOnce(0, m + n, m, Exchanged(m));
    EnumeratedOnce(0, m + n, m, []);
  }

  // The signed difference of the means that a choice leaves.
  function SignedOf(xs: seq<real>, s: seq<nat>, m: nat): real
    requires 0 < m < |xs|
  {
    Signed(Sum(xs), Pick(xs, s), m, |xs| - m)
  }

  function StepDown(xs: seq<real>, m: nat): real
    requires 0 < m < |xs|
  {
    Product(xs[m] - xs[m - 1], Scale(m, |xs| - m))
  }

  // What a choice other than the lowest can reach, and one other than the highest as well.
  lemma GapAtMost(xs: seq<real>, m: nat, s: seq<nat>)
    requires Ascending(xs) && 0 < m < |xs| && |s| == m && IsSubset(s, 0, |xs|) && s != Run(0, m)
    ensures var top := Run(|xs| - m, |xs|);
      && SignedOf(xs, s, m) <= SignedOf(xs, Run(0, m), m) - StepDown(xs, m)
      && -SignedOf(xs, s, m) <= -SignedOf(xs, top, m)
      && (2 * m == |xs| && s != top ==> -SignedOf(xs, s, m) <= -SignedOf(xs, top, m) - StepDown(xs, m))
  {
    LowestSum(xs, s, m);
    HighestSum(xs, s, m);
    SignedBetween(Sum(xs), Pick(xs, Run(0, m)), Pick(xs, s), Pick(xs, Run(|xs| - m, |xs|)), xs[m] - xs[m - 1],
                  m, |xs| - m);
  }

  function CountOf(xs: seq<real>, m: nat, threshold: real): nat
    requires 0 < m < |xs|
  {
    CountExtreme(xs, Combinations(0, |xs|, m), m, threshold)
  }

  lemma IsChoice(xs: seq<real>, m: nat, s: seq<nat>)
    requires 0 < m < |xs| && s in Combinations(0, |xs|, m)
    ensures |s| == m && IsSubset(s, 0, |xs|)
  {
    E.Occurs(Combinations(0, |xs|, m), s);
    EnumeratedOnce(0, |xs|, m, s);
  }

  lemma OthersFall(xs: seq<real>, m: nat, threshold: real, s: seq<nat>, top: seq<nat>)
    requires Ascending(xs) && 0 < m < |xs| && s in Combinations(0, |xs|, m) && top == Run(|xs| - m, |xs|)
    requires s != Run(0, m) && SignedOf(xs, Run(0, m), m) - StepDown(xs, m) < threshold
    requires -SignedOf(xs, top, m) < threshold
    ensures DifferenceFor(xs, s, m) < threshold
  {
    IsChoice(xs, m, s);
    GapAtMost(xs, m, s);
    DifferenceIsSigned(xs, s, m);
  }

  lemma AllOthersFall(xs: seq<real>, m: nat, threshold: real, s: seq<nat>, top: seq<nat>)
    requires Ascending(xs) && 0 < m && 2 * m == |xs| && s in Combinations(0, |xs|, m) && top == Run(|xs| - m, |xs|)
    requires s != Run(0, m) && s != top
    requires SignedOf(xs, Run(0, m), m) - StepDown(xs, m) < threshold
    requires -SignedOf(xs, top, m) - StepDown(xs, m) < threshold
    ensures DifferenceFor(xs, s, m) < threshold
  {
    IsChoice(xs, m, s);
    GapAtMost(xs, m, s);
    DifferenceIsSigned(xs, s, m);
  }

  // No choice but the lowest, and perhaps the highest, is extreme.
  lemma OnlyLowest(xs: seq<real>, m: nat, threshold: real)
    requires Ascending(xs) && 0 < m < |xs|
    requires SignedOf(xs, Run(0, m), m) - StepDown(xs, m) < threshold
    requires -SignedOf(xs, Run(|xs| - m, |xs|), m) < threshold
    ensures CountOf(xs, m, threshold) <= 1
  {
    var splits := Combinations(0, |xs|, m);
    ThreeOccur(m, |xs| - m);
    forall s | s in splits && s != Run(0, m) ensures DifferenceFor(xs, s, m) < threshold {
      OthersFall(xs, m, threshold, s, Run(|xs| - m, |xs|));
    }
    OnlyThese(xs, splits, m, threshold, Run(0, m), []);
  }

  lemma OnlyEnds(xs: seq<real>, m: nat, threshold: real)
    requires Ascending(xs) && 0 < m && 2 * m == |xs|
    requires SignedOf(xs, Run(0, m), m) - StepDown(xs, m) < threshold
    requires -SignedOf(xs, Run(m, |xs|), m) - StepDown(xs, m) < threshold
    ensures CountOf(xs, m, threshold) <= 2
  {
    var splits, low, top := Combinations(0, |xs|, m), Run(0, m), Run(m, |xs|);
    ThreeOccur(m, m);
    forall s | s in splits && s != low && s != top ensures DifferenceFor(xs, s, m) < threshold {
      AllOthersFall(xs, m, threshold, s, top);
    }
    assert low[0] != top[0];
    OnlyThese(xs, splits, m, threshold, low, top);
  }

  lemma ThreeDiffer(m: nat, n: nat)
    requires m >= 2 && n >= 2
    ensures Run(0, m) != Run(n, m + n) && Run(0, m) != Exchanged(m) && Run(n, m + n) != Exchanged(m)
  {
    assert Run(0, m)[0] == 0 && Run(n, m + n)[0] == n && Exchanged(m)[0] == 0;
    assert Run(0, m)[m - 1] == m - 1 && Exchanged(m)[m - 1] == m;
  }

  lemma ThreeGaps(xs: seq<real>, m: nat)
    requires 0 < m < |xs|
    ensures DifferenceFor(xs, Run(0, m), m) >= SignedOf(xs, Run(0, m), m)
    ensures DifferenceFor(xs, Run(|xs| - m, |xs|), m) >= -SignedOf(xs, Run(|xs| - m, |xs|), m)
    ensures DifferenceFor(xs, Exchanged(m), m) >= SignedOf(xs, Run(0, m), m) - StepDown(xs, m)
  {
    DifferenceIsSigned(xs, Run(0, m), m);
    DifferenceIsSigned(xs, Run(|xs| - m, |xs|), m);
    DifferenceIsSigned(xs, Exchanged(m), m);
    ExchangedSum(xs, m);
    SignedShift(Sum(xs), Pick(xs, Run(0, m)), xs[m] - xs[m - 1], m, |xs| - m);
  }

  lemma AtLeast(xs: seq<real>, m: nat, threshold: real)
    requires m >= 2 && |xs| >= m + 2 && threshold <= SignedOf(xs, Run(0, m), m)
    ensures var opposite := -SignedOf(xs, Run(|xs| - m, |xs|), m) >= threshold;
      var exchanged := SignedOf(xs, Run(0, m), m) - StepDown(xs, m) >= threshold;
      CountOf(xs, m, threshold) >= 1 + (if opposite then 1 else 0) + (if exchanged then 1 else 0)
  {
    var splits := Combinations(0, |xs|, m);
    ThreeOccur(m, |xs| - m);
    ThreeDiffer(m, |xs| - m);
    ThreeGaps(xs, m);
    var low, top, other := Run(0, m), Run(|xs| - m, |xs|), Exchanged(m);
    MemberCounts(xs, splits, m, threshold, low);
    if -SignedOf(xs, top, m) >= threshold {
      TwoMembersCount(xs, splits, m, threshold, low, top);
      if SignedOf(xs, low, m) - StepDown(xs, m) >= threshold {
        ThreeMembersCount(xs, splits, m, threshold, low, top, other);
      }
    } else if SignedOf(xs, low, m) - StepDown(xs, m) >= threshold {
      TwoMembersCount(xs, splits, m, threshold, low, other);
    }
  }

  // How many choices from ascending values are extreme, when the lowest is.
  lemma CountIs(xs: seq<real>, m: nat, threshold: real)
    requires Ascending(xs) && m >= 2 && |xs| >= m + 2 && threshold <= SignedOf(xs, Run(0, m), m)
    ensures var opposite := -SignedOf(xs, Run(|xs| - m, |xs|), m);
      var next := SignedOf(xs, Run(0, m), m) - StepDown(xs, m);
      && (CountOf(xs, m, threshold) == 1 <==> next < threshold && opposite < threshold)
      && (2 * m == |xs| && opposite == SignedOf(xs, Run(0, m), m) ==>
            (CountOf(xs, m, threshold) == 2 <==> next < threshold))
  {
    AtLeast(xs, m, threshold);
    if SignedOf(xs, Run(0, m), m) - StepDown(xs, m) < threshold {
      if -SignedOf(xs, Run(|xs| - m, |xs|), m) < threshold {
        OnlyLowest(xs, m, threshold);
      } else if 2 * m == |xs| && -SignedOf(xs, Run(m, |xs|), m) == SignedOf(xs, Run(0, m), m) {
        OnlyEnds(xs, m, threshold);
      }
    }
  }

  // ----- the p-value -----

  lemma CountedPooled(control: seq<real>, target: seq<real>, threshold: real)
    requires control != [] && target != [] && Separated(control, target)
    ensures CountExtreme(control + target, Combinations(0, |control + target|, |control|), |control|, threshold)
         == CountOf(Pooled(control, target), |control|, threshold)
  {
    PooledIs(control, target);
    PermutedCount(control + target, Pooled(control, target), |control|, threshold);
  }

  lemma FromShare(p: real, count: nat, all: nat)
    requires all > 0 && p == count as real / all as real
    ensures p == 1.0 / all as real <==> count == 1
    ensures p == 2.0 / all as real <==> count == 2
  {
    QuotientTimes(count as real, all as real);
    QuotientTimes(1.0, all as real);
    QuotientTimes(2.0, all as real);
  }

  lemma SeparatedGaps(control: seq<real>, target: seq<real>)
    requires control != [] && target != [] && Separated(control, target)
    ensures var xs, m := Pooled(control, target), |control|;
      && Ascending(xs) && |xs| == m + |target| && SignedOf(xs, Run(0, m), m) == Observed(control, target)
      && -SignedOf(xs, Run(|xs| - m, |xs|), m) == Opposite(control, target)
      && StepDown(xs, m) == Step(control, target)
  {
    PooledIs(control, target);
    SignedObserved(control, target);
    SignedOpposite(control, target);
  }

  lemma SeparatedCount(control: seq<real>, target: seq<real>, threshold: real, count: nat)
    requires |control| >= 2 && |target| >= 2 && Separated(control, target)
    requires threshold <= Observed(control, target) && count == CountOf(Pooled(control, target), |control|, threshold)
    ensures var next := Observed(control, target) - Step(control, target);
      && (count == 1 <==> next < threshold && Opposite(control, target) < threshold)
      && (|control| == |target| ==> (count == 2 <==> next < threshold))
  {
    SeparatedGaps(control, target);
    CountIs(Pooled(control, target), |control|, threshold);
    if |control| == |target| {
      OppositeIsObserved(control, target);
    }
  }

  // The tolerance, and the threshold it leaves.
  lemma ThresholdIs(observed: real)
    ensures Threshold(observed) == observed - E.Larger(0.000000000001, 0.000000000001 * observed)
    ensures observed >= 0.0 ==> Threshold(observed) <= observed
  {
  }

  lemma SeparatedShare(control: seq<real>, target: seq<real>, draws: seq<seq<nat>>) returns (count: nat)
    requires |draws| == DRAW_COUNT && |control| >= 2 && |target| >= 2 && Separated(control, target)
    requires Comb(|control + target|, |control|) <= 20_000
    ensures var observed := Abs(Mean(target) - Mean(control));
      var tolerance := E.Larger(0.000000000001, 0.000000000001 * observed);
      && (count == 1 <==> Step(control, target) > tolerance && Opposite(control, target) < observed - tolerance)
      && (|control| == |target| ==> (count == 2 <==> Step(control, target) > tolerance))
    ensures Comb(|control + target|, |control|) > 0
    ensures PermutationPValue(control, target, draws)
         == Some(PValue(count as real / Comb(|control + target|, |control|) as real, ExactPermutation))
  {
    var observed := Observed(control, target);
    count := CountOf(Pooled(control, target), |control|, Threshold(observed));
    ThresholdIs(observed);
    CountedPooled(control, target, Threshold(observed));
    SeparatedCount(control, target, Threshold(observed), count);
    E.CountIsShare(control, target, draws, count);
  }

  /** With every control value below every target value, the exact p-value is 1/C(n,k) exactly when the least exchange
      between the groups matters by more than the tolerance and choosing the highest values instead does not separate
      the means as far; with groups of equal size the latter always does, and the p-value is 2/C(n,k) exactly when the
      least exchange matters. */
  lemma SeparatedP(control: seq<real>, target: seq<real>, draws: seq<seq<nat>>)
    requires |draws| == DRAW_COUNT && |control| >= 2 && |target| >= 2 && Separated(control, target)
    requires Comb(|control + target|, |control|) <= 20_000
    ensures Comb(|control + target|, |control|) > 0
    ensures var observed, all := Abs(Mean(target) - Mean(control)), Comb(|control + target|, |control|) as real;
      var tolerance := E.Larger(0.000000000001, 0.000000000001 * observed);
      var p := PermutationPValue(control, target, draws);
      && p.Some?
      && (p.value.p == 1.0 / all
          <==> Step(control, target) > tolerance && Opposite(control, target) < observed - tolerance)
      && (|control| == |target| ==> (p.value.p == 2.0 / all <==> Step(control, target) > tolerance))
  {
    var count := SeparatedShare(control, target, draws);
    FromShare(PermutationPValue(control, target, draws).value.p, count, Comb(|control + target|, |control|));
  }

  lemma NotLeastWhen(control: seq<real>, target: seq<real>, draws: seq<seq<nat>>)
    requires |draws| == DRAW_COUNT && |control| >= 2 && |target| >= 2 && Separated(control, target)
    requires 0 < Comb(|control + target|, |control|) <= 20_000
    requires Opposite(control, target) >= Abs(Mean(target) - Mean(control))
    ensures PermutationPValue(control, target, draws).Some?
    ensures PermutationPValue(control, target, draws).value.p > 1.0 / Comb(|control + target|, |control|) as real
  {
    SeparatedP(control, target, draws);
    ExactBounds(control, target, draws);
  }

  lemma CombIsTen()
    ensures Comb(5, 2) == 10
  {
    assert Comb(2, 2) == 1 && Comb(2, 1) == 2;
    assert Comb(3, 2) == 3 && Comb(3, 1) == 3;
    assert Comb(4, 2) == 6 && Comb(4, 1) == 4;
  }

  lemma SumOfTwo(xs: seq<real>, x: real, y: real)
    requires xs == [x, y]
    ensures Sum(xs) == x + y
  {
    assert xs[1..] == [y];
    assert Sum([y]) == y + Sum([y][1..]);
  }

  lemma SumOfThree(xs: seq<real>, x: real, y: real, z: real)
    requires xs == [x, y, z]
    ensures Sum(xs) == x + y + z
  {
    SumOfTwo(xs[1..], y, z);
  }

  lemma MeansOfExample(low: seq<real>, high: seq<real>, pooled: seq<real>)
    requires low == [0.0, 0.0] && high == [10.0, 10.0, 1000.0] && pooled == low + high
    ensures Mean(pooled[3..]) - Mean(pooled[..3]) >= Abs(Mean(high) - Mean(low))
  {
    SumOfTwo(low, 0.0, 0.0);
    SumOfThree(high, 10.0, 10.0, 1000.0);
    SumOfTwo(pooled[3..], 10.0, 1000.0);
    SumOfThree(pooled[..3], 0.0, 0.0, 10.0);
  }

  lemma SortedStays(xs: seq<real>)
    requires Ascending(xs)
    ensures SortReals(xs) == xs
  {
    AscendingIsUnique(SortReals(xs), xs);
  }

  lemma OppositeOfExample(low: seq<real>, high: seq<real>)
    requires low == [0.0, 0.0] && high == [10.0, 10.0, 1000.0]
    ensures Separated(low, high) && Opposite(low, high) >= Abs(Mean(high) - Mean(low))
  {
    SortedStays(low);
    SortedStays(high);
    MeansOfExample(low, high, low + high);
  }

  /** Groups that do not overlap need not have the least p-value: here the highest two values lie farther above the other
      three than the target above the control. */
  lemma SeparatedButNotLeast(low: seq<real>, high: seq<real>, draws: seq<seq<nat>>)
    requires |draws| == DRAW_COUNT && low == [0.0, 0.0] && high == [10.0, 10.0, 1000.0]
    ensures Separated(low, high) && Comb(|low + high|, |low|) == 10
    ensures PermutationPValue(low, high, draws).Some?
    ensures PermutationPValue(low, high, draws).value.p > 1.0 / Comb(|low + high|, |low|) as real
  {
    CombIsTen();
    assert |low + high| == 5;
    OppositeOfExample(low, high);
    NotLeastWhen(low, high, draws);
  }
}

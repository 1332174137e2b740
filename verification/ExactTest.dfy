// What the randomization test of src/web/jv_parser.py counts, said of the two groups of values a split leaves, and the
// p-value of groups that are wholly separated.
module ExactTest {
  import opened Permutation
  import opened Reals
  import opened Sorting
  import opened Wrappers

  // ----- the two groups of a split -----

  // k different indices below n, in any order.
  predicate IsSplit(s: seq<nat>, n: nat, k: nat) {
    && |s| == k && (forall i :: 0 <= i < |s| ==> s[i] < n)
    && (forall i, j :: 0 <= i < j < |s| ==> s[i] != s[j])
  }

  function Chosen(xs: seq<real>, s: seq<nat>): (r: seq<real>)
    requires IsSplit(s, |xs|, |s|)
    ensures |r| == |s| && forall i :: 0 <= i < |s| ==> r[i] == xs[s[i]]
  {
    seq(|s|, i requires 0 <= i < |s| => xs[s[i]])
  }

  // The values that are not chosen.
  function Left(xs: seq<real>, s: seq<nat>): seq<real> {
    if xs == [] then []
    else
      var last := |xs| - 1;
      Left(xs[..last], s) + (if last in s then [] else [xs[last]])
  }

  lemma {:induction false} ChosenSum(xs: seq<real>, s: seq<nat>)
    requires IsSplit(s, |xs|, |s|)
    ensures Sum(Chosen(xs, s)) == Pick(xs, s)
  {
    if s != [] {
      ChosenSum(xs, s[1..]);
      assert Chosen(xs, s)[1..] == Chosen(xs, s[1..]);
    }
  }

  lemma {:induction false} AllLeft(xs: seq<real>)
    ensures Left(xs, []) == xs
  {
    if xs != [] {
      AllLeft(xs[..|xs| - 1]);
      assert xs == xs[..|xs| - 1] + [xs[|xs| - 1]];
    }
  }

  // An index past the end takes nothing away.
  lemma {:induction false} LeftBeyond(xs: seq<real>, h: nat, t: seq<nat>)
    requires h >= |xs|
    ensures Left(xs, [h] + t) == Left(xs, t)
  {
    if xs != [] {
      LeftBeyond(xs[..|xs| - 1], h, t);
    }
  }

  lemma {:induction false} OneLess(xs: seq<real>, h: nat, t: seq<nat>)
    requires h < |xs| && h !in t
    ensures |Left(xs, [h] + t)| == |Left(xs, t)| - 1 && Sum(Left(xs, [h] + t)) == Sum(Left(xs, t)) - xs[h]
  {
    var last := |xs| - 1;
    var front, end := xs[..last], if last in t then [] else [xs[last]];
    SumConcat(Left(front, t), end);
    if h == last {
      LeftBeyond(front, h, t);
      assert Left(xs, [h] + t) == Left(front, t) && end == [xs[h]];
      assert Sum(end) == xs[h] + Sum(end[1..]) && end[1..] == [];
    } else {
      OneLess(front, h, t);
      SumConcat(Left(front, [h] + t), end);
      assert Left(xs, [h] + t) == Left(front, [h] + t) + end;
    }
  }

  lemma {:induction false} LeftIs(xs: seq<real>, s: seq<nat>)
    requires IsSplit(s, |xs|, |s|)
    ensures |Left(xs, s)| == |xs| - |s| && Sum(Left(xs, s)) == Sum(xs) - Pick(xs, s)
  {
    if s == [] {
      AllLeft(xs);
    } else {
      LeftIs(xs, s[1..]);
      OneLess(xs, s[0], s[1..]);
      assert [s[0]] + s[1..] == s;
    }
  }

  // How far the means of the two groups of a split are apart.
  function Gap(xs: seq<real>, s: seq<nat>): real
    requires IsSplit(s, |xs|, |s|) && 0 < |s| < |xs|
  {
    LeftIs(xs, s);
    Abs(Mean(Left(xs, s)) - Mean(Chosen(xs, s)))
  }

  lemma DifferenceIs(xs: seq<real>, s: seq<nat>, m: nat)
    requires IsSplit(s, |xs|, m) && 0 < m < |xs|
    ensures DifferenceFor(xs, s, m) == Gap(xs, s)
  {
    LeftIs(xs, s);
    ChosenSum(xs, s);
  }

  function Larger(x: real, y: real): real { if x >= y then x else y }

  // The split separates the pooled values as far as the groups themselves, up to the tolerance.
  predicate IsExtreme(control: seq<real>, target: seq<real>, s: seq<nat>)
    requires control != [] && target != [] && IsSplit(s, |control + target|, |control|)
  {
    var observed := Abs(Mean(target) - Mean(control));
    Gap(control + target, s) >= observed - Larger(0.000000000001, 0.000000000001 * observed)
  }

  lemma ExtremeIs(control: seq<real>, target: seq<real>, s: seq<nat>)
    requires control != [] && target != [] && IsSplit(s, |control + target|, |control|)
    ensures IsExtreme(control, target, s)
       <==> DifferenceFor(control + target, s, |control|) >= Threshold(Observed(control, target))
  {
    DifferenceIs(control + target, s, |control|);
  }

  // ----- what is counted -----

  lemma {:induction false} SubsetIsSplit(s: seq<nat>, lo: nat, n: nat)
    requires IsSubset(s, lo, n)
    ensures IsSplit(s, n, |s|) && forall i :: 0 <= i < |s| ==> lo <= s[i]
  {
    if s != [] {
      SubsetIsSplit(s[1..], s[0] + 1, n);
      forall i | 0 < i < |s| ensures s[0] < s[i] < n {
        assert s[i] == s[1..][i - 1];
      }
      forall i, j | 0 < i < j < |s| ensures s[i] != s[j] {
        assert s[i] == s[1..][i - 1] && s[j] == s[1..][j - 1];
      }
    }
  }

  lemma {:induction false} Occurs(splits: seq<seq<nat>>, s: seq<nat>)
    ensures s in splits <==> Occurrences(splits, s) > 0
  {
    if splits != [] {
      Occurs(splits[1..], s);
    }
  }

  // The extreme ones of splits that are all different, as a set.
  lemma {:induction false} ExtremeSet(xs: seq<real>, splits: seq<seq<nat>>, m: nat, threshold: real)
    returns (extremes: set<seq<nat>>)
    requires 0 < m < |xs| && forall s :: Occurrences(splits, s) <= 1
    ensures forall s :: s in extremes <==> s in splits && DifferenceFor(xs, s, m) >= threshold
    ensures |extremes| == CountExtreme(xs, splits, m, threshold)
  {
    extremes := {};
    if splits != [] {
      forall s ensures Occurrences(splits[1..], s) <= 1 {
        assert Occurrences(splits, s) <= 1;
      }
      var rest := ExtremeSet(xs, splits[1..], m, threshold);
      assert splits[0] !in rest by {
        assert Occurrences(splits, splits[0]) <= 1;
        Occurs(splits[1..], splits[0]);
      }
      extremes := if DifferenceFor(xs, splits[0], m) >= threshold then {splits[0]} + rest else rest;
    }
  }

  // A choice of as many pooled values as there are control values, each index once and ascending, that is extreme.
  predicate IsExtremeSubset(control: seq<real>, target: seq<real>, s: seq<nat>)
    requires control != [] && target != []
  {
    && |s| == |control| && IsSubset(s, 0, |control + target|)
    && IsSplit(s, |control + target|, |control|) && IsExtreme(control, target, s)
  }

  lemma IsExtremeSubsetWhen(control: seq<real>, target: seq<real>, s: seq<nat>)
    requires control != [] && target != []
    ensures IsExtremeSubset(control, target, s)
       <==> |s| == |control| && IsSubset(s, 0, |control + target|)
            && DifferenceFor(control + target, s, |control|) >= Threshold(Observed(control, target))
  {
    if |s| == |control| && IsSubset(s, 0, |control + target|) {
      SubsetIsSplit(s, 0, |control + target|);
      ExtremeIs(control, target, s);
    }
  }

  lemma ExtremeSubsets(control: seq<real>, target: seq<real>) returns (extremes: set<seq<nat>>)
    requires control != [] && target != []
    ensures forall s :: s in extremes <==> IsExtremeSubset(control, target, s)
    ensures |extremes| == CountExtreme(control + target, Combinations(0, |control + target|, |control|), |control|,
                                       Threshold(Observed(control, target)))
  {
    var pooled, m := control + target, |control|;
    var splits := Combinations(0, |pooled|, m);
    forall s ensures Occurrences(splits, s) == if |s| == m && IsSubset(s, 0, |pooled|) then 1 else 0 {
      EnumeratedOnce(0, |pooled|, m, s);
    }
    extremes := ExtremeSet(pooled, splits, m, Threshold(Observed(control, target)));
    forall s ensures s in extremes <==> IsExtremeSubset(control, target, s) {
      Occurs(splits, s);
      IsExtremeSubsetWhen(control, target, s);
    }
  }

  lemma CountIsShare(control: seq<real>, target: seq<real>, draws: seq<seq<nat>>, count: nat)
    requires |draws| == DRAW_COUNT && |control| >= 2 && |target| >= 2
    requires Comb(|control + target|, |control|) <= 20_000
    requires count == CountExtreme(control + target, Combinations(0, |control + target|, |control|), |control|,
                                   Threshold(Observed(control, target)))
    ensures Comb(|control + target|, |control|) > 0
    ensures PermutationPValue(control, target, draws)
         == Some(PValue(count as real / Comb(|control + target|, |control|) as real, ExactPermutation))
  {
    CombPositive(|control + target|, |control|);
  }

  /** An exact p-value is the share of extreme ones among all choices of as many of the pooled values as there are
      control values: those whose two groups have means at least as far apart as the groups observed, up to the
      tolerance. */
  lemma CountsExtremes(control: seq<real>, target: seq<real>, draws: seq<seq<nat>>)
    returns (extremes: set<seq<nat>>)
    requires |draws| == DRAW_COUNT && |control| >= 2 && |target| >= 2
    requires Comb(|control + target|, |control|) <= 20_000
    ensures forall s :: s in extremes <==> IsExtremeSubset(control, target, s)
    ensures Comb(|control + target|, |control|) > 0
    ensures PermutationPValue(control, target, draws)
         == Some(PValue(|extremes| as real / Comb(|control + target|, |control|) as real, ExactPermutation))
  {
    extremes := ExtremeSubsets(control, target);
    CountIsShare(control, target, draws, |extremes|);
  }

  predicate AllSplits(draws: seq<seq<nat>>, n: nat, k: nat) {
    forall i :: 0 <= i < |draws| ==> IsSplit(draws[i], n, k)
  }

  lemma {:induction false} CountOneMore(xs: seq<real>, splits: seq<seq<nat>>, s: seq<nat>, m: nat, threshold: real)
    requires 0 < m < |xs|
    ensures CountExtreme(xs, splits + [s], m, threshold)
         == CountExtreme(xs, splits, m, threshold) + if DifferenceFor(xs, s, m) >= threshold then 1 else 0
  {
    if splits == [] {
      assert [] + [s] == [s];
      assert CountExtreme(xs, [s][1..], m, threshold) == 0;
    } else {
      CountOneMore(xs, splits[1..], s, m, threshold);
      assert (splits + [s])[0] == splits[0] && (splits + [s])[1..] == splits[1..] + [s];
    }
  }

  function Flags(control: seq<real>, target: seq<real>, draws: seq<seq<nat>>): (r: seq<bool>)
    requires control != [] && target != [] && AllSplits(draws, |control + target|, |control|)
    ensures |r| == |draws| && forall i :: 0 <= i < |r| ==> r[i] == IsExtreme(control, target, draws[i])
  {
    seq(|draws|, i requires 0 <= i < |draws| => IsExtreme(control, target, draws[i]))
  }

  function Places(flags: seq<bool>): set<nat> { set i | 0 <= i < |flags| && flags[i] }

  lemma OneMorePlace(flags: seq<bool>)
    requires flags != []
    ensures |Places(flags)| == |Places(flags[..|flags| - 1])| + if flags[|flags| - 1] then 1 else 0
  {
    var last := |flags| - 1;
    assert Places(flags) == if flags[last] then Places(flags[..last]) + {last} else Places(flags[..last]);
  }

  // The draws that are extreme, by their places.
  function ExtremeDraws(control: seq<real>, target: seq<real>, draws: seq<seq<nat>>): set<nat>
    requires control != [] && target != [] && AllSplits(draws, |control + target|, |control|)
  {
    Places(Flags(control, target, draws))
  }

  lemma {:induction false} CountPlaces(xs: seq<real>, splits: seq<seq<nat>>, m: nat, threshold: real, flags: seq<bool>)
    requires 0 < m < |xs| && |flags| == |splits|
    requires forall i :: 0 <= i < |flags| ==> flags[i] == (DifferenceFor(xs, splits[i], m) >= threshold)
    ensures CountExtreme(xs, splits, m, threshold) == |Places(flags)|
  {
    if splits != [] {
      var last := |splits| - 1;
      CountPlaces(xs, splits[..last], m, threshold, flags[..last]);
      CountOneMore(xs, splits[..last], splits[last], m, threshold);
      assert splits[..last] + [splits[last]] == splits;
      OneMorePlace(flags);
    }
  }

  lemma ExtremeDrawsCount(control: seq<real>, target: seq<real>, draws: seq<seq<nat>>)
    requires control != [] && target != [] && AllSplits(draws, |control + target|, |control|)
    ensures CountExtreme(control + target, draws, |control|, Threshold(Observed(control, target)))
         == |ExtremeDraws(control, target, draws)|
  {
    forall i | 0 <= i < |draws|
      ensures Flags(control, target, draws)[i]
           == (DifferenceFor(control + target, draws[i], |control|) >= Threshold(Observed(control, target)))
    {
      ExtremeIs(control, target, draws[i]);
    }
    CountPlaces(control + target, draws, |control|, Threshold(Observed(control, target)),
                Flags(control, target, draws));
  }

  lemma MonteCarloIs(control: seq<real>, target: seq<real>, draws: seq<seq<nat>>, count: nat)
    requires |draws| == DRAW_COUNT && |control| >= 2 && |target| >= 2
    requires Comb(|control + target|, |control|) > 20_000
    requires count == CountExtreme(control + target, draws, |control|, Threshold(Observed(control, target)))
    ensures PermutationPValue(control, target, draws)
         == Some(PValue((count + 1) as real / 5000.0, MonteCarloPermutation))
  {
  }

  lemma OneMoreOf(count: nat)
    ensures (count + 1) as real / 5000.0 * 5000.0 == 1.0 + count as real
  {
  }

  /** A Monte Carlo value is one more than the number of extreme draws, over one more than the number of draws. */
  lemma MonteCarloCounts(control: seq<real>, target: seq<real>, draws: seq<seq<nat>>)
    requires |draws| == DRAW_COUNT && |control| >= 2 && |target| >= 2
    requires Comb(|control + target|, |control|) > 20_000
    requires AllSplits(draws, |control + target|, |control|)
    ensures PermutationPValue(control, target, draws).Some?
    ensures PermutationPValue(control, target, draws).value.test == MonteCarloPermutation
    ensures PermutationPValue(control, target, draws).value.p * 5000.0
         == 1.0 + |ExtremeDraws(control, target, draws)| as real
  {
    var count := |ExtremeDraws(control, target, draws)|;
    ExtremeDrawsCount(control, target, draws);
    MonteCarloIs(control, target, draws, count);
    OneMoreOf(count);
  }
}

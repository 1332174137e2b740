// What the score of a candidate depends on (src/perovskite_bo/strategies.py): how near it is to the completed and to the
// failed experiments.
module Scoring {
  import opened Optimizer
  import opened Reals
  import opened Wrappers

  // ----- distances and weights -----

  function SquaresApart(a: seq<real>, b: seq<real>): seq<real>
    requires |a| == |b|
  {
    seq(|a|, i requires 0 <= i < |a| => Product(a[i] - b[i], a[i] - b[i]))
  }

  lemma {:induction false} SquaredDistanceIs(a: seq<real>, b: seq<real>)
    requires |a| == |b|
    ensures SquaredDistance(a, b) == Sum(SquaresApart(a, b))
  {
    if a != [] {
      SquaredDistanceIs(a[1..], b[1..]);
      assert SquaresApart(a, b)[1..] == SquaresApart(a[1..], b[1..]);
    }
  }

  /** The distance is Euclidean, and the weight of an experiment is the exponential of minus its square. */
  lemma WeightIs(a: seq<real>, b: seq<real>, s: Strategy)
    requires s.Valid() && |a| == |b|
    ensures Distance(a, b, s) >= 0.0 && Product(Distance(a, b, s), Distance(a, b, s)) == Sum(SquaresApart(a, b))
    ensures Similarity(a, b, s) == s.exp(-Sum(SquaresApart(a, b)))
  {
    SquaredDistanceIs(a, b);
    assert SquaredDistance(a, b) >= 0.0;
  }

  lemma LargerProduct(x: real, y: real, k: real)
    requires x > y && k > 0.0
    ensures Product(x, k) > Product(y, k) && Product(k, x) > Product(k, y)
  {
    ProductOrder(x, y, k);
    assert Product(k, x) == Product(x, k) && Product(k, y) == Product(y, k);
  }

  lemma SquareGrows(d: real, e: real)
    requires 0.0 <= d < e
    ensures Product(d, d) < Product(e, e)
  {
    ProductBound(d, d, d, e);
    LargerProduct(e, d, e);
  }

  /** Of two experiments the nearer weighs more, unless its weight has underflowed; at distance 0 the weight is 1. */
  lemma NearerWeighsMore(candidate: seq<real>, near: seq<real>, far: seq<real>, s: Strategy)
    requires s.Valid()
    ensures Distance(candidate, near, s) < Distance(candidate, far, s) ==>
      Similarity(candidate, far, s) < Similarity(candidate, near, s)
      || Similarity(candidate, far, s) == Similarity(candidate, near, s) == 0.0
    ensures Distance(candidate, near, s) == 0.0 ==> Similarity(candidate, near, s) == 1.0
  {
    var d, e := Distance(candidate, near, s), Distance(candidate, far, s);
    if d < e {
      SquareGrows(d, e);
      assert -Product(e, e) < -Product(d, d);
    }
  }

  // ----- the estimate -----

  function Weighted(weights: seq<real>, values: seq<real>): seq<real>
    requires |weights| == |values|
  {
    seq(|weights|, i requires 0 <= i < |weights| => Product(weights[i], values[i]))
  }

  function Deviations(scores: seq<real>, mean: real): (r: seq<real>)
    ensures |r| == |scores|
  {
    seq(|scores|, i requires 0 <= i < |scores| => Product(scores[i] - mean, scores[i] - mean))
  }

  lemma {:induction false} WeightedSumIs(weights: seq<real>, values: seq<real>)
    requires |weights| == |values|
    ensures WeightedSum(weights, values) == Sum(Weighted(weights, values))
  {
    if weights != [] {
      WeightedSumIs(weights[1..], values[1..]);
      assert Weighted(weights, values)[1..] == Weighted(weights[1..], values[1..]);
    }
  }

  lemma QuotientIs(n: real, d: real)
    requires d != 0.0
    ensures Product(n / d, d) == n
  {
    QuotientTimes(n, d);
  }

  /** The estimate is the weighted mean and variance of the completed scores; without any weight it is their plain mean,
      with no variance. */
  lemma EstimateIs(weights: seq<real>, scores: seq<real>)
    requires scores != [] && |weights| == |scores|
    ensures var (mean, variance) := Estimate(weights, scores);
      if Sum(weights) == 0.0 then Product(mean, |scores| as real) == Sum(scores) && variance == 0.0
      else
        && Product(mean, Sum(weights)) == Sum(Weighted(weights, scores))
        && Product(variance, Sum(weights)) == Sum(Weighted(weights, Deviations(scores, mean)))
  {
    if Sum(weights) == 0.0 {
      QuotientIs(Sum(scores), |scores| as real);
    } else {
      var mean := Estimate(weights, scores).0;
      WeightedSumIs(weights, scores);
      QuotientIs(WeightedSum(weights, scores), Sum(weights));
      WeightedSumIs(weights, Squares(scores, mean));
      assert Squares(scores, mean) == Deviations(scores, mean);
      QuotientIs(WeightedSum(weights, Squares(scores, mean)), Sum(weights));
    }
  }

  lemma TwoSums(x: real, y: real)
    ensures Sum([x, y]) == x + y
  {
    assert [x, y][1..] == [y];
    assert Sum([y]) == y + Sum([y][1..]);
  }

  lemma Distances(mean: real, u: real, v: real, p: real, q: real)
    requires Product(mean, u + v) == Product(u, p) + Product(v, q)
    ensures Product(mean - p, u + v) == Product(v, q - p)
    ensures Product(q - mean, u + v) == Product(u, q - p)
  {
    assert (mean - p) * (u + v) == mean * (u + v) - p * u - p * v;
    assert (q - mean) * (u + v) == q * u + q * v - mean * (u + v);
    assert v * (q - p) == v * q - v * p;
    assert u * (q - p) == u * q - u * p;
  }

  // The mean of two scores lies on the side of the one with the larger weight.
  lemma HeavierSide(mean: real, u: real, v: real, p: real, q: real)
    requires u > v >= 0.0 && p < q && Product(mean, u + v) == Product(u, p) + Product(v, q)
    ensures Abs(mean - p) < Abs(mean - q)
  {
    var w := u + v;
    Distances(mean, u, v, p, q);
    ProductSigns(v, q - p);
    LargerProduct(u, v, q - p);
    if mean < p {
      LargerProduct(0.0, mean - p, w);
    } else if q - mean < mean - p {
      LargerProduct(mean - p, q - mean, w);
    }
  }

  lemma HeavierOfTwo(mean: real, u: real, v: real, p: real, q: real)
    requires u > v >= 0.0 && p != q && Product(mean, u + v) == Product(u, p) + Product(v, q)
    ensures Abs(mean - p) < Abs(mean - q)
  {
    if p < q {
      HeavierSide(mean, u, v, p, q);
    } else {
      ProductNegate(u, p);
      ProductNegate(v, q);
      ProductNegate(u + v, mean);
      assert Product(-mean, u + v) == Product(u + v, -mean) && Product(mean, u + v) == Product(u + v, mean);
      HeavierSide(-mean, u, v, -p, -q);
    }
  }

  lemma EstimateOfTwo(weights: seq<real>, scores: seq<real>)
    requires |weights| == |scores| == 2 && weights[0] > weights[1] >= 0.0 && scores[0] != scores[1]
    ensures var mean := Estimate(weights, scores).0; Abs(mean - scores[0]) < Abs(mean - scores[1])
  {
    EstimateIs(weights, scores);
    var products := Weighted(weights, scores);
    assert weights == [weights[0], weights[1]] && products == [products[0], products[1]];
    TwoSums(weights[0], weights[1]);
    TwoSums(products[0], products[1]);
    HeavierOfTwo(Estimate(weights, scores).0, weights[0], weights[1], scores[0], scores[1]);
  }

  /** With two completed experiments of different scores, the estimate for a candidate is nearer the score of the
      experiment it is nearer to, unless both weights have underflowed. */
  lemma EstimateFollowsNearer(candidate: seq<real>, near: seq<real>, far: seq<real>, p: real, q: real, s: Strategy)
    requires s.Valid() && p != q && Distance(candidate, near, s) < Distance(candidate, far, s)
    requires Similarity(candidate, near, s) > 0.0
    ensures var mean := Estimate(Weights(candidate, [near, far], s), [p, q]).0; Abs(mean - p) < Abs(mean - q)
  {
    NearerWeighsMore(candidate, near, far, s);
    EstimateOfTwo(Weights(candidate, [near, far], s), [p, q]);
  }

  // ----- the bonus and the penalty -----

  /** The uncertainty is the root of the variance over one more than the weight. */
  lemma UncertaintyIs(variance: real, weight: real, s: Strategy)
    requires s.Valid() && weight >= 0.0
    ensures var u := Uncertainty(variance, weight, s);
      u >= 0.0 && Product(Product(u, u), 1.0 + weight) == if variance < 0.0 then 0.0 else variance
  {
    var v := if variance < 0.0 then 0.0 else variance;
    RootBounds(s.sqrt, 1.0 + weight, 1.0);
    RatioSquared(s.sqrt(v), s.sqrt(1.0 + weight), v, 1.0 + weight);
  }

  lemma RatioSquared(n: real, d: real, v: real, w: real)
    requires n >= 0.0 && d > 0.0 && Product(n, n) == v && Product(d, d) == w
    ensures n / d >= 0.0 && Product(Product(n / d, n / d), w) == v
  {
    var u := n / d;
    QuotientTimes(n, d);
    ProductOrder(0.0, u, d);
    assert Product(u, d) == n;
    assert Product(Product(u, u), Product(d, d)) == Product(Product(u, d), Product(u, d));
  }

  /** More spread among the completed scores makes a candidate more uncertain, and more weight makes it less so. */
  lemma UncertaintyOrder(v: real, w: real, v': real, w': real, s: Strategy)
    requires s.Valid() && 0.0 <= v' <= v && 0.0 <= w <= w'
    ensures Uncertainty(v', w', s) <= Uncertainty(v, w, s)
    ensures (v' < v || (w < w' && v > 0.0)) ==> Uncertainty(v', w', s) < Uncertainty(v, w, s)
  {
    var u, u' := Uncertainty(v, w, s), Uncertainty(v', w', s);
    UncertaintyIs(v, w, s);
    UncertaintyIs(v', w', s);
    SquareIsNonNegative(u);
    SquareIsNonNegative(u');
    if u' >= u {
      ProductBound(u, u, u', u');
      var x, x', y, y' := Product(u, u), Product(u', u'), 1.0 + w, 1.0 + w';
      ProductBound(x, y, x', y');
      assert Product(x, y) == v && Product(x', y') == v';
      if w < w' && v > 0.0 {
        ProductOrder(y, y', x');
        StrictlyMore(x, x', y, y');
      }
      RootIsOne(u, u', x, x', y, y');
    }
  }

  lemma StrictlyMore(x: real, x': real, y: real, y': real)
    requires 0.0 <= x <= x' && 1.0 <= y < y' && Product(x, y) > 0.0
    ensures Product(x, y) < Product(x', y')
  {
    ProductSigns(x, y);
    if x == 0.0 {
      ProductSigns(0.0, y);
    }
    ProductOrder(x, x', y);
    assert Product(x', y) == x' * y;
    ProductOrder(y, y', x');
    ProductOrder(y', y, x');
    assert y * x' == Product(x', y) && y' * x' == Product(x', y');
  }

  lemma RootIsOne(u: real, u': real, x: real, x': real, y: real, y': real)
    requires 0.0 <= u <= u' && x == Product(u, u) && x' == Product(u', u') && 1.0 <= y <= y'
    ensures Product(x, y) == Product(x', y') ==> u == u'
  {
    if u < u' {
      SquareGrows(u, u');
      ProductBound(x, y, x, y');
      ProductOrder(x', x, y');
      SquareIsNonNegative(u);
    }
  }

  lemma {:induction false} NearestIsLeast(candidate: seq<real>, vectors: seq<seq<real>>, s: Strategy) returns (k: nat)
    requires s.Valid() && vectors != []
    ensures k < |vectors| && Nearest(candidate, vectors, s) == Distance(candidate, vectors[k], s)
    ensures forall i :: 0 <= i < |vectors| ==> Nearest(candidate, vectors, s) <= Distance(candidate, vectors[i], s)
  {
    if |vectors| == 1 {
      k := 0;
    } else {
      var rest := NearestIsLeast(candidate, vectors[1..], s);
      k := if Distance(candidate, vectors[0], s) <= Nearest(candidate, vectors[1..], s) then 0 else rest + 1;
      forall i | 0 <= i < |vectors|
        ensures Nearest(candidate, vectors, s) <= Distance(candidate, vectors[i], s)
      {
        if i > 0 {
          assert vectors[i] == vectors[1..][i - 1];
        }
      }
    }
  }

  /** Within the radius of a failed experiment the feasibility falls in proportion to the distance of the nearest one, and
      beyond it there is no penalty. */
  lemma FeasibilityIs(candidate: seq<real>, failed: seq<seq<real>>, s: Strategy) returns (k: nat)
    requires s.Valid() && failed != [] && s.failurePenaltyRadius > 0.0
    ensures k < |failed|
    ensures forall i :: 0 <= i < |failed| ==> Distance(candidate, failed[k], s) <= Distance(candidate, failed[i], s)
    ensures var f, d := Feasibility(candidate, failed, s), Distance(candidate, failed[k], s);
      if d >= s.failurePenaltyRadius then f == 1.0 else Product(f, s.failurePenaltyRadius) == d
  {
    k := NearestIsLeast(candidate, failed, s);
    var d := Distance(candidate, failed[k], s);
    assert Nearest(candidate, failed, s) == d;
    QuotientIs(d, s.failurePenaltyRadius);
    ProductSigns(0.0, s.failurePenaltyRadius);
  }

  // ----- the score -----

  // The estimate for a candidate, and how uncertain it is.
  function MeanFor(candidate: seq<real>, completed: seq<seq<real>>, scores: seq<real>, s: Strategy): real
    requires s.Valid() && scores != [] && |scores| == |completed|
  {
    Estimate(Weights(candidate, completed, s), scores).0
  }

  function UncertaintyFor(candidate: seq<real>, completed: seq<seq<real>>, scores: seq<real>, s: Strategy): real
    requires s.Valid() && scores != [] && |scores| == |completed|
  {
    var weights := Weights(candidate, completed, s);
    WeightsAreNonNegative(weights);
    Uncertainty(Estimate(weights, scores).1, Sum(weights), s)
  }

  /** The score of a candidate is its estimate and as many times its uncertainty as the exploration weight says, both
      scaled by its feasibility. */
  lemma ScoreIs(candidate: seq<real>, completed: seq<seq<real>>, scores: seq<real>, failed: seq<seq<real>>, s: Strategy)
    requires s.Valid() && scores != [] && |scores| == |completed|
    ensures Acquisition(candidate, completed, scores, failed, s)
         == Ok(Product(MeanFor(candidate, completed, scores, s)
                       + Product(s.explorationWeight, UncertaintyFor(candidate, completed, scores, s)),
                       Feasibility(candidate, failed, s)))
  {
  }

  lemma HigherTotal(weight: real, f: real, m: real, u: real, n: real, v: real)
    requires f > 0.0
    ensures m > n && u == v ==> Product(m + Product(weight, u), f) > Product(n + Product(weight, v), f)
    ensures m == n && u > v && weight > 0.0 ==> Product(m + Product(weight, u), f) > Product(n + Product(weight, v), f)
  {
    if m > n && u == v {
      LargerProduct(m + Product(weight, u), n + Product(weight, v), f);
    }
    if m == n && u > v && weight > 0.0 {
      LargerProduct(u, v, weight);
      LargerProduct(m + Product(weight, u), n + Product(weight, v), f);
    }
  }

  /** Of two candidates alike in feasibility, the one with the higher estimate scores higher, and of two alike in that as
      well the more uncertain one, if exploring counts at all. */
  lemma ScoreOrder(c: seq<real>, d: seq<real>, completed: seq<seq<real>>, scores: seq<real>, failed: seq<seq<real>>,
                   s: Strategy)
    requires s.Valid() && scores != [] && |scores| == |completed|
    requires Feasibility(c, failed, s) == Feasibility(d, failed, s) > 0.0
    ensures var a, b := Acquisition(c, completed, scores, failed, s), Acquisition(d, completed, scores, failed, s);
      var m, n := MeanFor(c, completed, scores, s), MeanFor(d, completed, scores, s);
      var u, v := UncertaintyFor(c, completed, scores, s), UncertaintyFor(d, completed, scores, s);
      && a.Ok? && b.Ok?
      && (m > n && u == v ==> a.value > b.value)
      && (m == n && u > v && s.explorationWeight > 0.0 ==> a.value > b.value)
  {
    ScoreIs(c, completed, scores, failed, s);
    ScoreIs(d, completed, scores, failed, s);
    HigherTotal(s.explorationWeight, Feasibility(c, failed, s),
                MeanFor(c, completed, scores, s), UncertaintyFor(c, completed, scores, s),
                MeanFor(d, completed, scores, s), UncertaintyFor(d, completed, scores, s));
  }

  // ----- the two sides of the history -----

  predicate IsCompleted(r: Record) { r.status == Completed && r.pce.Some? }

  predicate IsFailed(r: Record) { r.status == Failed }

  /** Each record counts among the completed, or among the failed, as often as it is in the history, if it is completed
      with a pce, or failed. */
  lemma {:induction false} SidesAre(history: seq<Record>, r: Record)
    ensures multiset(CompletedOf(history))[r] == if IsCompleted(r) then multiset(history)[r] else 0
    ensures multiset(FailedOf(history))[r] == if IsFailed(r) then multiset(history)[r] else 0
  {
    if history != [] {
      SidesAre(history[1..], r);
      assert history == [history[0]] + history[1..];
    }
  }
}

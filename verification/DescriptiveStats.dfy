// Descriptive statistics, computed twice: on the server (src/web/jv_parser.py) and in the
// browser (frontend/src/lib/stats.ts).  Over exact numbers the two agree field by field.
module DescriptiveStats {
  import opened Reals
  import opened Sorting
  import opened Wrappers

  datatype Stats = Stats(n: nat, mean: Option<real>, median: Option<real>, sd: Option<real>,
                         minimum: Option<real>, q1: Option<real>, q3: Option<real>, maximum: Option<real>)

  const EMPTY := Stats(0, None, None, None, None, None, None, None)

  function Ceiling(x: real): int { -((-x).Floor) }

  // Linear interpolation between the order statistics around a position.
  function AtPosition(ordered: seq<real>, position: real): real
    requires 0.0 <= position <= (|ordered| - 1) as real
  {
    var lower, upper := position.Floor, Ceiling(position);
    if lower == upper then ordered[lower]
    else
      var weight := position - lower as real;
      Product(ordered[lower], 1.0 - weight) + Product(ordered[upper], weight)
  }

  lemma PositionInRange(n: nat, fraction: real)
    requires n > 0 && 0.0 <= fraction <= 1.0
    ensures 0.0 <= Product(fraction, (n - 1) as real) <= (n - 1) as real
  {
    ProductBetween(fraction, (n - 1) as real);
  }

  // _percentile, and percentile in the browser
  function Percentile(ordered: seq<real>, fraction: real): real
    requires ordered != [] && 0.0 <= fraction <= 1.0
  {
    PositionInRange(|ordered|, fraction);
    AtPosition(ordered, Product(fraction, (|ordered| - 1) as real))
  }

  function SquaredDeviations(xs: seq<real>, mean: real): real {
    if xs == [] then 0.0 else Product(xs[0] - mean, xs[0] - mean) + SquaredDeviations(xs[1..], mean)
  }

  // ----- the server -----

  // statistics.median: the middle element, or the mean of the middle two
  function Median(ordered: seq<real>): real
    requires ordered != []
  {
    var n := |ordered|;
    if n % 2 == 1 then ordered[n / 2] else (ordered[n / 2 - 1] + ordered[n / 2]) / 2.0
  }

  function StandardDeviation(xs: seq<real>, sqrt: real -> real): real
    requires |xs| > 1
  {
    sqrt(SquaredDeviations(xs, Mean(xs)) / (|xs| - 1) as real)
  }

  // _descriptive_statistics
  function Server(values: seq<real>, sqrt: real -> real): Stats {
    if values == [] then EMPTY
    else
      var ordered := SortReals(values);
      var last := |ordered| - 1;
      Stats(|ordered|, Some(Mean(ordered)), Some(Median(ordered)),
            Some(if |ordered| > 1 then StandardDeviation(ordered, sqrt) else 0.0),
            Some(ordered[0]), Some(Percentile(ordered, 0.25)), Some(Percentile(ordered, 0.75)), Some(ordered[last]))
  }

  // ----- the browser -----

  // The sum as the browser folds it, from the first value on.
  function ReduceSum(xs: seq<real>, sum: real): real
    decreases |xs|
  {
    if xs == [] then sum else ReduceSum(xs[1..], sum + xs[0])
  }

  // The squared deviations, folded in the same way.
  function ReduceSquares(xs: seq<real>, mean: real, sum: real): real
    decreases |xs|
  {
    if xs == [] then sum else ReduceSquares(xs[1..], mean, sum + Product(xs[0] - mean, xs[0] - mean))
  }

  // descriptiveStatistics
  function Client(values: seq<real>, sqrt: real -> real): Stats {
    if values == [] then EMPTY
    else
      var ordered := SortReals(values);
      var mean := ReduceSum(ordered, 0.0) / |ordered| as real;
      var variance := if |ordered| > 1 then ReduceSquares(ordered, mean, 0.0) / (|ordered| - 1) as real else 0.0;
      var last := |ordered| - 1;
      Stats(|ordered|, Some(mean), Some(Percentile(ordered, 0.5)),
            Some(if |ordered| > 1 then sqrt(variance) else 0.0),
            Some(ordered[0]), Some(Percentile(ordered, 0.25)), Some(Percentile(ordered, 0.75)), Some(ordered[last]))
  }

  // ----- interpolation -----

  lemma FloorAndCeiling(x: real)
    ensures x.Floor <= Ceiling(x) <= x.Floor + 1
    ensures x.Floor == Ceiling(x) <==> x == x.Floor as real
    ensures x.Floor as real <= x <= Ceiling(x) as real
  {
  }

  lemma Mixture(a: real, b: real, w: real)
    ensures Product(a, 1.0 - w) + Product(b, w) == a + Product(w, b - a)
  {
  }

  /** An interpolated value lies between its neighbouring order statistics. */
  lemma AtPositionBetween(ordered: seq<real>, position: real)
    requires Ascending(ordered) && 0.0 <= position <= (|ordered| - 1) as real
    ensures 0 <= position.Floor <= Ceiling(position) < |ordered|
    ensures ordered[position.Floor] <= AtPosition(ordered, position) <= ordered[Ceiling(position)]
  {
    FloorAndCeiling(position);
    var lower, upper := position.Floor, Ceiling(position);
    if lower != upper {
      var w := position - lower as real;
      Mixture(ordered[lower], ordered[upper], w);
      ProductBetween(w, ordered[upper] - ordered[lower]);
    }
  }

  lemma SameGap(ordered: seq<real>, p: real, q: real)
    requires Ascending(ordered) && 0.0 <= p <= q <= (|ordered| - 1) as real
    requires p.Floor == q.Floor && Ceiling(p) == Ceiling(q)
    ensures AtPosition(ordered, p) <= AtPosition(ordered, q)
  {
    FloorAndCeiling(p);
    var lower, upper := p.Floor, Ceiling(p);
    if lower != upper {
      var a, b := ordered[lower], ordered[upper];
      var v, w := p - lower as real, q - lower as real;
      Mixture(a, b, v);
      Mixture(a, b, w);
      ProductDifference(w, v, b - a);
      ProductSigns(w - v, b - a);
    }
  }

  /** Interpolation is monotone in the position. */
  lemma AtPositionMonotone(ordered: seq<real>, p: real, q: real)
    requires Ascending(ordered) && 0.0 <= p <= q <= (|ordered| - 1) as real
    ensures AtPosition(ordered, p) <= AtPosition(ordered, q)
  {
    FloorAndCeiling(p);
    FloorAndCeiling(q);
    AtPositionBetween(ordered, p);
    AtPositionBetween(ordered, q);
    if p.Floor == q.Floor && Ceiling(p) == Ceiling(q) {
      SameGap(ordered, p, q);
    } else if p.Floor == q.Floor {
      assert Ceiling(p) == p.Floor;
    } else {
      assert Ceiling(p) <= q.Floor;
      assert ordered[Ceiling(p)] <= ordered[q.Floor];
    }
  }

  /** A higher fraction never gives a lower percentile. */
  lemma PercentileMonotone(ordered: seq<real>, f: real, g: real)
    requires Ascending(ordered) && ordered != [] && 0.0 <= f <= g <= 1.0
    ensures Percentile(ordered, f) <= Percentile(ordered, g)
  {
    PositionInRange(|ordered|, f);
    PositionInRange(|ordered|, g);
    ProductDifference(g, f, (|ordered| - 1) as real);
    ProductSigns(g - f, (|ordered| - 1) as real);
    AtPositionMonotone(ordered, Product(f, (|ordered| - 1) as real), Product(g, (|ordered| - 1) as real));
  }

  lemma PercentileEnds(ordered: seq<real>)
    requires ordered != []
    ensures Percentile(ordered, 0.0) == ordered[0] && Percentile(ordered, 1.0) == ordered[|ordered| - 1]
  {
    var last := (|ordered| - 1) as real;
    assert Product(0.0, last) == 0.0 && Product(1.0, last) == last;
    assert last.Floor == |ordered| - 1 && Ceiling(last) == |ordered| - 1;
  }

  /** The middle-element median is the 0.5 percentile. */
  lemma MedianIsHalfPercentile(ordered: seq<real>)
    requires ordered != []
    ensures Median(ordered) == Percentile(ordered, 0.5)
  {
    var n := |ordered|;
    PositionInRange(n, 0.5);
    var position := Product(0.5, (n - 1) as real);
    if n % 2 == 1 {
      assert position == (n / 2) as real;
      FloorAndCeiling(position);
    } else {
      assert position == (n / 2 - 1) as real + 0.5;
      assert position.Floor == n / 2 - 1;
      FloorAndCeiling(position);
      Mixture(ordered[n / 2 - 1], ordered[n / 2], 0.5);
      assert Product(0.5, ordered[n / 2] - ordered[n / 2 - 1]) == (ordered[n / 2] - ordered[n / 2 - 1]) / 2.0;
    }
  }

  /** A percentile is on the straight line between the order statistics on either side of its position. */
  lemma PercentileIsOnLine(ordered: seq<real>, fraction: real)
    requires ordered != [] && 0.0 <= fraction <= 1.0
    ensures var position := fraction * (|ordered| - 1) as real;
      var k, part := position.Floor, position - position.Floor as real;
      && 0 <= k < |ordered| && 0.0 <= part < 1.0 && (part > 0.0 ==> k + 1 < |ordered|)
      && Percentile(ordered, fraction)
         == ordered[k] + (if part > 0.0 then part * (ordered[k + 1] - ordered[k]) else 0.0)
  {
    PositionInRange(|ordered|, fraction);
    var position := Product(fraction, (|ordered| - 1) as real);
    FloorAndCeiling(position);
    var k := position.Floor;
    if position != k as real {
      assert Ceiling(position) == k + 1;
      Mixture(ordered[k], ordered[k + 1], position - k as real);
    }
  }

  // ----- the whole record -----

  function SquaresFrom(values: seq<real>, mean: real): (r: seq<real>)
    ensures |r| == |values|
  {
    seq(|values|, i requires 0 <= i < |values| => Product(values[i] - mean, values[i] - mean))
  }

  lemma {:induction false} SquaredDeviationsAre(values: seq<real>, mean: real)
    ensures SquaredDeviations(values, mean) == Sum(SquaresFrom(values, mean))
  {
    if values != [] {
      SquaredDeviationsAre(values[1..], mean);
      assert SquaresFrom(values, mean)[1..] == SquaresFrom(values[1..], mean);
    }
  }

  lemma SquaresConcat(xs: seq<real>, ys: seq<real>, mean: real)
    ensures Sum(SquaresFrom(xs + ys, mean)) == Sum(SquaresFrom(xs, mean)) + Sum(SquaresFrom(ys, mean))
  {
    assert SquaresFrom(xs + ys, mean) == SquaresFrom(xs, mean) + SquaresFrom(ys, mean);
    SumConcat(SquaresFrom(xs, mean), SquaresFrom(ys, mean));
  }

  lemma {:induction false} SquaresIgnoreOrder(xs: seq<real>, ys: seq<real>, mean: real)
    requires multiset(xs) == multiset(ys)
    ensures Sum(SquaresFrom(xs, mean)) == Sum(SquaresFrom(ys, mean))
    decreases |xs|
  {
    if xs == [] {
      assert |multiset(ys)| == 0;
    } else {
      var i := TakeOut(xs, ys);
      var x, before, after := [xs[0]], ys[..i], ys[i + 1..];
      SquaresIgnoreOrder(xs[1..], before + after, mean);
      assert xs == x + xs[1..] && ys == before + (x + after);
      SquaresConcat(x, xs[1..], mean);
      SquaresConcat(before, after, mean);
      SquaresConcat(before, x + after, mean);
      SquaresConcat(x, after, mean);
    }
  }

  lemma QuotientSquared(squares: real, n: real, sqrt: real -> real)
    requires squares >= 0.0 && n > 0.0 && IsSqrt(sqrt)
    ensures sqrt(squares / n) >= 0.0 && Product(Product(sqrt(squares / n), sqrt(squares / n)), n) == squares
  {
    QuotientTimes(squares, n);
    ProductOrder(0.0, squares / n, n);
  }

  /** The mean is that of the values, and the standard deviation that of a sample: squared, and times one less than the
      number of values, it is the sum of their squared deviations from the mean. */
  lemma MeanAndDeviation(values: seq<real>, sqrt: real -> real)
    requires values != [] && IsSqrt(sqrt)
    ensures var s := Server(values, sqrt);
      && s.mean == Some(Mean(values)) && s.sd.Some? && s.sd.value >= 0.0
      && (|values| == 1 ==> s.sd.value == 0.0)
      && (|values| > 1 ==>
            Product(Product(s.sd.value, s.sd.value), (|values| - 1) as real) == Sum(SquaresFrom(values, Mean(values))))
  {
    var ordered := SortReals(values);
    SumOfPermuted(ordered, values);
    SquaredDeviationsAre(ordered, Mean(values));
    SquaresIgnoreOrder(ordered, values, Mean(values));
    if |values| > 1 {
      SquaresAreNonNegative(ordered, Mean(ordered));
      QuotientSquared(SquaredDeviations(ordered, Mean(ordered)), (|ordered| - 1) as real, sqrt);
    }
  }

  lemma {:induction false} SquaresAreNonNegative(xs: seq<real>, mean: real)
    ensures SquaredDeviations(xs, mean) >= 0.0
  {
    if xs != [] {
      SquareIsNonNegative(xs[0] - mean);
      SquaresAreNonNegative(xs[1..], mean);
    }
  }

  /** The five-number summary is in order, and the mean is within it. */
  lemma {:induction false} SummaryIsOrdered(values: seq<real>, sqrt: real -> real)
    requires values != []
    ensures var s := Server(values, sqrt);
      && s.n == |values|
      && s.minimum.Some? && s.q1.Some? && s.median.Some? && s.q3.Some? && s.maximum.Some? && s.mean.Some?
      && s.minimum.value <= s.q1.value <= s.median.value <= s.q3.value <= s.maximum.value
      && s.minimum.value <= s.mean.value <= s.maximum.value
  {
    var ordered := SortReals(values);
    PercentileEnds(ordered);
    MedianIsHalfPercentile(ordered);
    PercentileMonotone(ordered, 0.0, 0.25);
    PercentileMonotone(ordered, 0.25, 0.5);
    PercentileMonotone(ordered, 0.5, 0.75);
    PercentileMonotone(ordered, 0.75, 1.0);
    MeanInRange(ordered, ordered[0], ordered[|ordered| - 1]);
  }

  /** The order in which the values were measured makes no difference. */
  lemma {:induction false} OrderDoesNotMatter(values: seq<real>, others: seq<real>, sqrt: real -> real)
    requires multiset(values) == multiset(others)
    ensures Server(values, sqrt) == Server(others, sqrt)
  {
    assert |multiset(values)| == |values| && |multiset(others)| == |others|;
    AscendingIsUnique(SortReals(values), SortReals(others));
  }

  lemma {:induction false} ReduceSumIs(xs: seq<real>, sum: real)
    ensures ReduceSum(xs, sum) == sum + Sum(xs)
    decreases |xs|
  {
    if xs != [] {
      ReduceSumIs(xs[1..], sum + xs[0]);
    }
  }

  lemma {:induction false} ReduceSquaresIs(xs: seq<real>, mean: real, sum: real)
    ensures ReduceSquares(xs, mean, sum) == sum + SquaredDeviations(xs, mean)
    decreases |xs|
  {
    if xs != [] {
      ReduceSquaresIs(xs[1..], mean, sum + Product(xs[0] - mean, xs[0] - mean));
    }
  }

  /** The browser shows exactly what the server stores. */
  lemma {:induction false} ClientAgreesWithServer(values: seq<real>, sqrt: real -> real)
    ensures Client(values, sqrt) == Server(values, sqrt)
  {
    if values != [] {
      var ordered := SortReals(values);
      ReduceSumIs(ordered, 0.0);
      ReduceSquaresIs(ordered, Mean(ordered), 0.0);
      MedianIsHalfPercentile(ordered);
    }
  }

  /** The other fields: how many values there are, the lowest and the highest of them, and the quartiles a quarter and
      three quarters of the way through them in order. */
  lemma RangeAndQuartiles(values: seq<real>, sqrt: real -> real)
    requires values != []
    ensures var s := Server(values, sqrt);
      && s.n == |values| && s.minimum.Some? && s.maximum.Some?
      && s.minimum.value in values && s.maximum.value in values
      && (forall x :: x in values ==> s.minimum.value <= x <= s.maximum.value)
      && s.q1 == Some(Percentile(SortReals(values), 0.25)) && s.q3 == Some(Percentile(SortReals(values), 0.75))
      && s.median == Some(Percentile(SortReals(values), 0.5))
  {
    var ordered := SortReals(values);
    MedianIsHalfPercentile(ordered);
    forall x ensures x in values <==> x in ordered {
      assert x in values <==> x in multiset(values);
      assert x in ordered <==> x in multiset(ordered);
    }
    assert ordered[0] in ordered && ordered[|ordered| - 1] in ordered;
  }
}

// The figures of merit of one current-voltage curve: src/web/jv_parser.py finds Voc, Jsc,
// the fill factor and the efficiency on the polyline through the voltage-sorted points.
module JvCurve {
  import opened Reals
  import opened Sorting
  import opened Wrappers

  datatype Point = Point(v: real, j: real)

  predicate ByVoltage(a: Point, b: Point) { a.v <= b.v }

  function Ordered(points: seq<Point>): seq<Point> { SortBy(points, ByVoltage) }

  function LinearInterpolate(target: real, x1: real, y1: real, x2: real, y2: real): real {
    if x1 == x2 then y1 else y1 + Product((target - x1) / (x2 - x1), y2 - y1)
  }

  // ----- the searches -----

  predicate Straddles(a: real, b: real) {
    a <= 0.0 <= b || b <= 0.0 <= a
  }

  function ZeroPoints(ordered: seq<Point>): seq<real> {
    if ordered == [] then []
    else ZeroOf(ordered[0]) + ZeroPoints(ordered[1..])
  }

  function ZeroOf(p: Point): seq<real> { if p.j == 0.0 then [p.v] else [] }

  function Crossing(l: Point, r: Point): real { LinearInterpolate(0.0, l.j, l.v, r.j, r.v) }

  function CrossingOf(l: Point, r: Point): seq<real> { if Straddles(l.j, r.j) then [Crossing(l, r)] else [] }

  function SegmentCrossings(ordered: seq<Point>): seq<real> {
    if |ordered| < 2 then [] else CrossingOf(ordered[0], ordered[1]) + SegmentCrossings(ordered[1..])
  }

  function MaxOf(xs: seq<real>): (m: real)
    requires xs != []
    ensures m in xs && forall k :: 0 <= k < |xs| ==> xs[k] <= m
  {
    if |xs| == 1 then xs[0]
    else
      var m := MaxOf(xs[1..]);
      if xs[0] >= m then xs[0] else m
  }

  function Crossings(ordered: seq<Point>): seq<real> {
    ZeroPoints(ordered) + SegmentCrossings(ordered)
  }

  // _interpolate_x_at_y_zero
  function VocOf(points: seq<Point>): Option<real> {
    var crossings := Crossings(Ordered(points));
    if crossings == [] then None else Some(MaxOf(crossings))
  }

  function AtZeroVolts(ordered: seq<Point>): Option<real> {
    if ordered == [] then None
    else if ordered[0].v == 0.0 then Some(ordered[0].j)
    else AtZeroVolts(ordered[1..])
  }

  function AcrossZeroVolts(ordered: seq<Point>): Option<real> {
    if |ordered| < 2 then None
    else if Straddles(ordered[0].v, ordered[1].v) then
      Some(LinearInterpolate(0.0, ordered[0].v, ordered[0].j, ordered[1].v, ordered[1].j))
    else AcrossZeroVolts(ordered[1..])
  }

  // _interpolate_y_at_x_zero
  function JscOf(points: seq<Point>): Option<real> {
    var exact := AtZeroVolts(Ordered(points));
    if exact.Some? then exact else AcrossZeroVolts(Ordered(points))
  }

  // ----- the polyline -----

  // (v, j) is the point a fraction t of the way from l to r.
  predicate Between(l: Point, r: Point, t: real, v: real, j: real) {
    0.0 <= t <= 1.0 && v == l.v + Product(t, r.v - l.v) && j == l.j + Product(t, r.j - l.j)
  }

  ghost predicate OnSegment(l: Point, r: Point, v: real, j: real) {
    exists t :: Between(l, r, t, v, j)
  }

  // (v, j) is a vertex, or on a segment between neighbouring vertices.
  ghost predicate OnPolyline(ordered: seq<Point>, v: real, j: real) {
    || Point(v, j) in ordered
    || exists i :: 0 <= i < |ordered| - 1 && OnSegment(ordered[i], ordered[i + 1], v, j)
  }

  predicate Sorted(ordered: seq<Point>) {
    forall i, k :: 0 <= i < k < |ordered| ==> ordered[i].v <= ordered[k].v
  }

  lemma OrderedIsSorted(points: seq<Point>)
    ensures Sorted(Ordered(points)) && |Ordered(points)| == |points|
    ensures forall p :: p in Ordered(points) <==> p in points
  {
    SortBySorts(points, ByVoltage);
    SameMembers(points, ByVoltage);
    assert forall i, k :: 0 <= i < k < |points| ==> ByVoltage(Ordered(points)[i], Ordered(points)[k]);
  }

  // ----- one segment -----

  lemma FractionInRange(n: real, d: real)
    requires 0.0 <= n <= d && d > 0.0
    ensures 0.0 <= n / d <= 1.0
  {
    QuotientTimes(n, d);
    ProductOrder(0.0, n / d, d);
    ProductOrder(n / d, 1.0, d);
  }

  lemma FlipFraction(n: real, d: real)
    requires d != 0.0
    ensures n / d == (-n) / (-d)
  {
    var t := n / d;
    assert t * d == n;
    assert t * (-d) == -n;
  }

  // Where a segment that is not level crosses level zero.
  function ZeroFraction(a: real, b: real): real
    requires a != b
  {
    (0.0 - a) / (b - a)
  }

  lemma ZeroFractionSolves(a: real, b: real)
    requires a != b && Straddles(a, b)
    ensures var t := ZeroFraction(a, b); 0.0 <= t <= 1.0 && a + Product(t, b - a) == 0.0
  {
    QuotientTimes(0.0 - a, b - a);
    if a < b {
      FractionInRange(0.0 - a, b - a);
    } else {
      FlipFraction(0.0 - a, b - a);
      FractionInRange(a, a - b);
    }
  }

  /** The crossing computed for a straddling segment is a point of that segment where the current is zero. */
  lemma CrossingIsOnSegment(l: Point, r: Point)
    requires Straddles(l.j, r.j)
    ensures OnSegment(l, r, Crossing(l, r), 0.0)
  {
    if l.j == r.j {
      assert Between(l, r, 0.0, l.v, 0.0);
    } else {
      ZeroFractionSolves(l.j, r.j);
      assert Between(l, r, ZeroFraction(l.j, r.j), Crossing(l, r), 0.0);
    }
  }

  lemma InRange(a: real, b: real, t: real)
    requires 0.0 <= t <= 1.0
    ensures a <= b ==> a <= a + Product(t, b - a) <= b
    ensures b <= a ==> b <= a + Product(t, b - a) <= a
  {
    if a <= b {
      ProductBetween(t, b - a);
    }
    if b <= a {
      ProductBetween(t, a - b);
      ProductNegate(t, a - b);
      assert -(a - b) == b - a;
    }
  }

  lemma SameFraction(a: real, b: real, s: real, t: real)
    requires a != b && a + Product(s, b - a) == a + Product(t, b - a)
    ensures s == t
  {
    ProductDifference(s, t, b - a);
    ProductIsZero(s - t, b - a);
  }

  /** A segment with a zero straddles zero, and its crossing is that zero unless the segment is flat at zero. */
  lemma ZeroIsCrossing(l: Point, r: Point, v: real)
    requires OnSegment(l, r, v, 0.0)
    ensures Straddles(l.j, r.j)
    ensures if l.j == r.j then l.j == 0.0 else v == Crossing(l, r)
  {
    var t :| Between(l, r, t, v, 0.0);
    InRange(l.j, r.j, t);
    if l.j != r.j {
      ZeroFractionSolves(l.j, r.j);
      SameFraction(l.j, r.j, t, ZeroFraction(l.j, r.j));
    }
  }

  // ----- Voc -----

  lemma {:induction false} ZeroPointsAre(ordered: seq<Point>, v: real)
    ensures v in ZeroPoints(ordered) <==> Point(v, 0.0) in ordered
  {
    if ordered != [] {
      ZeroPointsAre(ordered[1..], v);
      assert ordered == [ordered[0]] + ordered[1..];
      assert ordered[0].j == 0.0 ==> ordered[0] == Point(ordered[0].v, 0.0);
    }
  }

  lemma {:induction false} CrossingsAre(ordered: seq<Point>, i: nat)
    requires i < |ordered| - 1 && Straddles(ordered[i].j, ordered[i + 1].j)
    ensures Crossing(ordered[i], ordered[i + 1]) in SegmentCrossings(ordered)
  {
    if i > 0 {
      CrossingsAre(ordered[1..], i - 1);
    }
  }

  lemma {:induction false} CrossingsOnly(ordered: seq<Point>, v: real) returns (i: nat)
    requires v in SegmentCrossings(ordered)
    ensures i < |ordered| - 1 && Straddles(ordered[i].j, ordered[i + 1].j) && v == Crossing(ordered[i], ordered[i + 1])
  {
    if Straddles(ordered[0].j, ordered[1].j) && v == Crossing(ordered[0], ordered[1]) {
      i := 0;
    } else {
      assert v in SegmentCrossings(ordered[1..]);
      i := CrossingsOnly(ordered[1..], v);
      i := i + 1;
    }
  }

  lemma CrossingsAreZeros(ordered: seq<Point>, v: real)
    requires v in Crossings(ordered)
    ensures OnPolyline(ordered, v, 0.0)
  {
    ZeroPointsAre(ordered, v);
    if v !in ZeroPoints(ordered) {
      assert v in SegmentCrossings(ordered);
      var i := CrossingsOnly(ordered, v);
      CrossingIsOnSegment(ordered[i], ordered[i + 1]);
    }
  }

  // A zero of the polyline is at, or to the left of, one of the crossings collected.
  lemma ZerosAreCovered(ordered: seq<Point>, v: real) returns (c: real)
    requires Sorted(ordered) && OnPolyline(ordered, v, 0.0)
    ensures c in Crossings(ordered) && v <= c
  {
    if Point(v, 0.0) in ordered {
      ZeroPointsAre(ordered, v);
      c := v;
    } else {
      var i :| 0 <= i < |ordered| - 1 && OnSegment(ordered[i], ordered[i + 1], v, 0.0);
      var l, r := ordered[i], ordered[i + 1];
      ZeroIsCrossing(l, r, v);
      CrossingsAre(ordered, i);
      if l.j == r.j {
        assert r == Point(r.v, 0.0);
        ZeroPointsAre(ordered, r.v);
        var t :| Between(l, r, t, v, 0.0);
        InRange(l.v, r.v, t);
        c := r.v;
      } else {
        c := v;
      }
    }
  }

  /** Voc is missing exactly when the polyline never meets zero current. */
  lemma VocExists(points: seq<Point>)
    ensures VocOf(points).Some? <==> exists v :: OnPolyline(Ordered(points), v, 0.0)
  {
    OrderedIsSorted(points);
    var ordered := Ordered(points);
    if VocOf(points).Some? {
      CrossingsAreZeros(ordered, VocOf(points).value);
    }
    if exists v :: OnPolyline(ordered, v, 0.0) {
      var v :| OnPolyline(ordered, v, 0.0);
      var c := ZerosAreCovered(ordered, v);
    }
  }

  /** Voc is a zero of the polyline, and the polyline has no zero at a higher voltage. */
  lemma VocIsHighestZero(points: seq<Point>, v: real)
    requires VocOf(points).Some?
    ensures OnPolyline(Ordered(points), VocOf(points).value, 0.0)
    ensures OnPolyline(Ordered(points), v, 0.0) ==> v <= VocOf(points).value
  {
    OrderedIsSorted(points);
    CrossingsAreZeros(Ordered(points), VocOf(points).value);
    if OnPolyline(Ordered(points), v, 0.0) {
      var c := ZerosAreCovered(Ordered(points), v);
    }
  }

  // ----- Jsc -----

  lemma {:induction false} AtZeroVoltsIs(ordered: seq<Point>)
    ensures match AtZeroVolts(ordered)
            case Some(j) => Point(0.0, j) in ordered
            case None => forall p :: p in ordered ==> p.v != 0.0
  {
    if ordered != [] {
      AtZeroVoltsIs(ordered[1..]);
      assert ordered[0].v == 0.0 ==> ordered[0] == Point(0.0, ordered[0].j);
    }
  }

  lemma InterpolationIsOnSegment(l: Point, r: Point)
    requires Straddles(l.v, r.v) && l.v != r.v
    ensures OnSegment(l, r, 0.0, LinearInterpolate(0.0, l.v, l.j, r.v, r.j))
  {
    ZeroFractionSolves(l.v, r.v);
    assert Between(l, r, ZeroFraction(l.v, r.v), 0.0, LinearInterpolate(0.0, l.v, l.j, r.v, r.j));
  }

  lemma {:induction false} AcrossZeroVoltsIs(ordered: seq<Point>) returns (i: nat)
    requires AcrossZeroVolts(ordered).Some? && forall p :: p in ordered ==> p.v != 0.0
    ensures i < |ordered| - 1 && OnSegment(ordered[i], ordered[i + 1], 0.0, AcrossZeroVolts(ordered).value)
  {
    if Straddles(ordered[0].v, ordered[1].v) {
      i := 0;
      assert ordered[0] in ordered;
      InterpolationIsOnSegment(ordered[0], ordered[1]);
    } else {
      i := AcrossZeroVoltsIs(ordered[1..]);
      i := i + 1;
    }
  }

  lemma {:induction false} AcrossZeroVoltsFinds(ordered: seq<Point>, i: nat)
    requires i < |ordered| - 1 && Straddles(ordered[i].v, ordered[i + 1].v)
    ensures AcrossZeroVolts(ordered).Some?
  {
    if i > 0 {
      AcrossZeroVoltsFinds(ordered[1..], i - 1);
    }
  }

  lemma ReachesZeroVolts(ordered: seq<Point>, i: nat, j: real)
    requires i < |ordered| - 1 && OnSegment(ordered[i], ordered[i + 1], 0.0, j)
    ensures AcrossZeroVolts(ordered).Some?
  {
    var t :| Between(ordered[i], ordered[i + 1], t, 0.0, j);
    InRange(ordered[i].v, ordered[i + 1].v, t);
    AcrossZeroVoltsFinds(ordered, i);
  }

  /** Jsc is missing exactly when the polyline never reaches zero volts. */
  lemma JscExists(points: seq<Point>)
    ensures JscOf(points).Some? <==> exists j :: OnPolyline(Ordered(points), 0.0, j)
  {
    var ordered := Ordered(points);
    if JscOf(points).Some? {
      JscIsOnPolyline(points);
    } else if exists j :: OnPolyline(ordered, 0.0, j) {
      var j :| OnPolyline(ordered, 0.0, j);
      AtZeroVoltsIs(ordered);
      var i :| 0 <= i < |ordered| - 1 && OnSegment(ordered[i], ordered[i + 1], 0.0, j);
      ReachesZeroVolts(ordered, i, j);
    }
  }

  /** Jsc is the current of the polyline at zero volts. */
  lemma JscIsOnPolyline(points: seq<Point>)
    requires JscOf(points).Some?
    ensures OnPolyline(Ordered(points), 0.0, JscOf(points).value)
  {
    AtZeroVoltsIs(Ordered(points));
    if AtZeroVolts(Ordered(points)).None? {
      var i := AcrossZeroVoltsIs(Ordered(points));
    }
  }

  // ----- the searches as they run -----

  lemma {:induction false} AddZeroPoint(ordered: seq<Point>, p: Point)
    ensures ZeroPoints(ordered + [p]) == ZeroPoints(ordered) + ZeroOf(p)
  {
    if ordered == [] {
      assert ordered + [p] == [p];
      assert ZeroPoints([p][1..]) == [];
    } else {
      assert (ordered + [p])[0] == ordered[0] && (ordered + [p])[1..] == ordered[1..] + [p];
      AddZeroPoint(ordered[1..], p);
    }
  }

  lemma FirstCrossing(ordered: seq<Point>)
    requires |ordered| >= 2
    ensures SegmentCrossings(ordered) == CrossingOf(ordered[0], ordered[1]) + SegmentCrossings(ordered[1..])
  {
  }

  lemma {:induction false} AddCrossing(ordered: seq<Point>, p: Point)
    requires ordered != []
    ensures SegmentCrossings(ordered + [p]) == SegmentCrossings(ordered) + CrossingOf(ordered[|ordered| - 1], p)
  {
    var all, rest := ordered + [p], ordered[1..];
    FirstCrossing(all);
    assert all[1..] == rest + [p];
    if |ordered| > 1 {
      FirstCrossing(ordered);
      AddCrossing(rest, p);
    }
  }

  method InterpolateXAtYZero(points: seq<Point>) returns (voc: Option<real>)
    ensures voc == VocOf(points)
  {
    var ordered := Ordered(points);
    var crossings: seq<real> := [];
    for k := 0 to |ordered|
      invariant crossings == ZeroPoints(ordered[..k])
    {
      AddZeroPoint(ordered[..k], ordered[k]);
      assert ordered[..k + 1] == ordered[..k] + [ordered[k]];
      crossings := crossings + ZeroOf(ordered[k]);
    }
    assert ordered[..|ordered|] == ordered;
    var k := 1;
    while k < |ordered|
      invariant k >= 1 && (k <= |ordered| || ordered == [])
      invariant crossings == ZeroPoints(ordered) + SegmentCrossings(if ordered == [] then [] else ordered[..k])
    {
      AddCrossing(ordered[..k], ordered[k]);
      assert ordered[..k + 1] == ordered[..k] + [ordered[k]];
      crossings := crossings + CrossingOf(ordered[k - 1], ordered[k]);
      k := k + 1;
    }
    assert ordered != [] ==> ordered[..k] == ordered;
    voc := if crossings == [] then None else Some(MaxOf(crossings));
  }

  method InterpolateYAtXZero(points: seq<Point>) returns (jsc: Option<real>)
    ensures jsc == JscOf(points)
  {
    var ordered := Ordered(points);
    for k := 0 to |ordered|
      invariant AtZeroVolts(ordered) == AtZeroVolts(ordered[k..])
    {
      if ordered[k].v == 0.0 {
        return Some(ordered[k].j);
      }
    }
    var k := 1;
    while k < |ordered|
      invariant k >= 1 && (k <= |ordered| || ordered == [])
      invariant AcrossZeroVolts(ordered) == AcrossZeroVolts(if ordered == [] then [] else ordered[k - 1..])
    {
      var left, right := ordered[k - 1], ordered[k];
      if Straddles(left.v, right.v) {
        return Some(LinearInterpolate(0.0, left.v, left.j, right.v, right.j));
      }
      k := k + 1;
    }
    jsc := None;
  }

  // ----- monotone curves -----

  // The current, with its sign turned round when it rises with the voltage.
  function Down(rises: bool, j: real): real { if rises then -j else j }

  // The current is monotone along the sorted order: falling, or rising in the other sign convention.
  predicate Monotone(ordered: seq<Point>, rises: bool) {
    forall i, k :: 0 <= i < k < |ordered| ==> Down(rises, ordered[i].j) >= Down(rises, ordered[k].j)
  }

  // A point of the polyline, with the segment it lies on.
  predicate Located(ordered: seq<Point>, i: nat, t: real, v: real, j: real) {
    i < |ordered| - 1 && Between(ordered[i], ordered[i + 1], t, v, j)
  }

  lemma Locate(ordered: seq<Point>, v: real, j: real) returns (i: nat, t: real)
    requires |ordered| >= 2 && OnPolyline(ordered, v, j)
    ensures Located(ordered, i, t, v, j)
  {
    if exists i :: 0 <= i < |ordered| - 1 && OnSegment(ordered[i], ordered[i + 1], v, j) {
      i :| 0 <= i < |ordered| - 1 && OnSegment(ordered[i], ordered[i + 1], v, j);
      t :| Between(ordered[i], ordered[i + 1], t, v, j);
    } else {
      var k :| 0 <= k < |ordered| && ordered[k] == Point(v, j);
      if k < |ordered| - 1 {
        i, t := k, 0.0;
      } else {
        i, t := k - 1, 1.0;
      }
    }
  }

  lemma SameSegmentFalls(l: Point, r: Point, t: real, v: real, j: real, t': real, v': real, j': real, rises: bool)
    requires Between(l, r, t, v, j) && Between(l, r, t', v', j') && v < v'
    requires l.v <= r.v && Down(rises, l.j) >= Down(rises, r.j)
    ensures Down(rises, j) >= Down(rises, j')
  {
    ProductDifference(t', t, r.v - l.v);
    ProductDifference(t', t, r.j - l.j);
    ProductSigns(t' - t, r.v - l.v);
    ProductSigns(t' - t, r.j - l.j);
  }

  lemma LocatedBounds(ordered: seq<Point>, i: nat, t: real, v: real, j: real, rises: bool)
    requires Sorted(ordered) && Monotone(ordered, rises) && Located(ordered, i, t, v, j)
    ensures ordered[i].v <= v <= ordered[i + 1].v
    ensures Down(rises, ordered[i].j) >= Down(rises, j) >= Down(rises, ordered[i + 1].j)
  {
    InRange(ordered[i].v, ordered[i + 1].v, t);
    InRange(ordered[i].j, ordered[i + 1].j, t);
  }

  lemma VertexOrder(ordered: seq<Point>, i: nat, k: nat, rises: bool)
    requires Sorted(ordered) && Monotone(ordered, rises) && i <= k < |ordered|
    ensures ordered[i].v <= ordered[k].v && Down(rises, ordered[i].j) >= Down(rises, ordered[k].j)
  {
  }

  lemma LocatedFalls(ordered: seq<Point>, i: nat, t: real, v: real, j: real,
                     k: nat, t': real, v': real, j': real, rises: bool)
    requires Sorted(ordered) && Monotone(ordered, rises) && v < v'
    requires Located(ordered, i, t, v, j) && Located(ordered, k, t', v', j')
    ensures Down(rises, j) >= Down(rises, j')
  {
    LocatedBounds(ordered, i, t, v, j, rises);
    LocatedBounds(ordered, k, t', v', j', rises);
    if i < k {
      VertexOrder(ordered, i + 1, k, rises);
    } else if i == k {
      SameSegmentFalls(ordered[i], ordered[i + 1], t, v, j, t', v', j', rises);
    } else {
      assert false;
    }
  }

  /** A monotone curve stays monotone between its points: farther right, the current is no higher. */
  lemma PolylineFalls(ordered: seq<Point>, v: real, j: real, v': real, j': real, rises: bool)
    requires Sorted(ordered) && Monotone(ordered, rises) && |ordered| >= 2 && v < v'
    requires OnPolyline(ordered, v, j) && OnPolyline(ordered, v', j')
    ensures Down(rises, j) >= Down(rises, j')
  {
    var i, t := Locate(ordered, v, j);
    var k, t' := Locate(ordered, v', j');
    LocatedFalls(ordered, i, t, v, j, k, t', v', j', rises);
  }

  // ----- the metrics -----

  datatype Metrics = Metrics(voc: real, jsc: real, ff: real, pce: real)

  datatype CurveError = TooFewPoints | NoVoc | NoJsc | NoGeneratingPoint | ZeroDenominator

  predicate Generates(p: Point, voc: real, jsc: real) {
    && (if voc < 0.0 then voc <= p.v <= 0.0 else 0.0 <= p.v <= voc)
    && Product(p.j, jsc) >= 0.0
  }

  function Power(p: Point): real { Abs(Product(p.v, p.j)) }

  function GeneratingPowers(points: seq<Point>, voc: real, jsc: real): seq<real> {
    if points == [] then []
    else (if Generates(points[0], voc, jsc) then [Power(points[0])] else []) + GeneratingPowers(points[1..], voc, jsc)
  }

  // _metrics_from_points
  function MetricsOf(points: seq<Point>): Result<Metrics, CurveError> {
    if |points| < 2 then Err(TooFewPoints)
    else if VocOf(points).None? then Err(NoVoc)
    else if JscOf(points).None? then Err(NoJsc)
    else
      var voc, jsc := VocOf(points).value, JscOf(points).value;
      var powers := GeneratingPowers(points, voc, jsc);
      if powers == [] then Err(NoGeneratingPoint)
      else
        var pmax := MaxOf(powers);
        var denominator := Abs(Product(voc, jsc));
        if denominator <= 0.0 then Err(ZeroDenominator)
        else Ok(Metrics(voc, Abs(jsc), pmax / denominator, pmax))
  }

  lemma {:induction false} PowersAre(points: seq<Point>, voc: real, jsc: real, w: real) returns (p: Point)
    requires w in GeneratingPowers(points, voc, jsc)
    ensures p in points && Generates(p, voc, jsc) && w == Power(p)
  {
    if Generates(points[0], voc, jsc) && w == Power(points[0]) {
      p := points[0];
    } else {
      assert w in GeneratingPowers(points[1..], voc, jsc);
      p := PowersAre(points[1..], voc, jsc, w);
    }
  }

  // Between zero volts and Voc a generating point of a monotone curve carries no more current than Jsc.
  lemma {:induction false} GeneratesAtMostJsc(ordered: seq<Point>, p: Point, voc: real, jsc: real, rises: bool)
    requires |ordered| >= 2 && Sorted(ordered) && Monotone(ordered, rises)
    requires p in ordered && OnPolyline(ordered, voc, 0.0) && OnPolyline(ordered, 0.0, jsc)
    requires Generates(p, voc, jsc) && jsc != 0.0 && p.v != 0.0
    ensures Abs(p.j) <= Abs(jsc)
  {
    assert p == Point(p.v, p.j);
    SignOfFactor(p.j, jsc);
    if voc < 0.0 {
      PolylineFalls(ordered, voc, 0.0, 0.0, jsc, rises);
      PolylineFalls(ordered, p.v, p.j, 0.0, jsc, rises);
    } else {
      PolylineFalls(ordered, 0.0, jsc, p.v, p.j, rises);
      PolylineFalls(ordered, 0.0, jsc, voc, 0.0, rises);
    }
  }

  lemma {:induction false} PowerAtMost(ordered: seq<Point>, p: Point, voc: real, jsc: real, rises: bool)
    requires |ordered| >= 2 && Sorted(ordered) && Monotone(ordered, rises)
    requires p in ordered && OnPolyline(ordered, voc, 0.0) && OnPolyline(ordered, 0.0, jsc)
    requires Generates(p, voc, jsc) && jsc != 0.0
    ensures Power(p) <= Abs(Product(voc, jsc))
  {
    AbsProduct(p.v, p.j);
    AbsProduct(voc, jsc);
    if p.v == 0.0 {
      ProductSigns(Abs(p.v), Abs(p.j));
    } else {
      GeneratesAtMostJsc(ordered, p, voc, jsc, rises);
      ProductBound(Abs(p.v), Abs(p.j), Abs(voc), Abs(jsc));
    }
  }

  /** The efficiency is the fill factor times Voc times Jsc, whatever the curve. */
  lemma EfficiencyFactors(points: seq<Point>)
    requires MetricsOf(points).Ok?
    ensures var m := MetricsOf(points).value; m.ff >= 0.0 && m.pce == m.ff * Product(Abs(m.voc), m.jsc)
  {
    var voc, jsc := VocOf(points).value, JscOf(points).value;
    var pmax := MaxOf(GeneratingPowers(points, voc, jsc));
    var p := PowersAre(points, voc, jsc, pmax);
    AbsProduct(voc, jsc);
    QuotientTimes(pmax, Abs(Product(voc, jsc)));
    ProductOrder(0.0, pmax / Abs(Product(voc, jsc)), Abs(Product(voc, jsc)));
  }

  /** On every monotone curve, in either sign convention, the fill factor is a fraction. */
  lemma FillFactorIsFraction(points: seq<Point>, rises: bool)
    requires MetricsOf(points).Ok? && Monotone(Ordered(points), rises)
    ensures 0.0 <= MetricsOf(points).value.ff <= 1.0
  {
    EfficiencyFactors(points);
    var voc, jsc := VocOf(points).value, JscOf(points).value;
    var pmax := MaxOf(GeneratingPowers(points, voc, jsc));
    var p := PowersAre(points, voc, jsc, pmax);
    NonZeroFactor(voc, jsc);
    OrderedIsSorted(points);
    VocIsHighestZero(points, voc);
    JscIsOnPolyline(points);
    PowerAtMost(Ordered(points), p, voc, jsc, rises);
    FractionInRange(pmax, Abs(Product(voc, jsc)));
  }

  lemma NonZeroFactor(a: real, b: real)
    requires Abs(Product(a, b)) > 0.0
    ensures b != 0.0
  {
    ProductSigns(a, b);
  }

  // ----- what the metrics are, point by point -----

  // The point lies between zero volts and Voc, and its current does not flow against Jsc.
  predicate InQuadrant(p: Point, voc: real, jsc: real) {
    (0.0 <= p.v <= voc || voc <= p.v <= 0.0) && p.j * jsc >= 0.0
  }

  lemma {:induction false} PowersHave(points: seq<Point>, voc: real, jsc: real, p: Point)
    requires p in points && InQuadrant(p, voc, jsc)
    ensures Abs(p.v * p.j) in GeneratingPowers(points, voc, jsc)
  {
    if points[0] == p {
      assert Generates(p, voc, jsc);
      assert Power(p) == Abs(p.v * p.j);
    } else {
      PowersHave(points[1..], voc, jsc, p);
    }
  }

  lemma PowersFrom(points: seq<Point>, voc: real, jsc: real, w: real) returns (p: Point)
    requires w in GeneratingPowers(points, voc, jsc)
    ensures p in points && InQuadrant(p, voc, jsc) && w == Abs(p.v * p.j)
  {
    p := PowersAre(points, voc, jsc, w);
  }

  /** The metrics are Voc, the size of Jsc, and the highest power among the listed points of the generating quadrant. */
  lemma PceIsMaximumPower(points: seq<Point>) returns (p: Point)
    requires MetricsOf(points).Ok?
    ensures VocOf(points).Some? && JscOf(points).Some?
    ensures var m, voc, jsc := MetricsOf(points).value, VocOf(points).value, JscOf(points).value;
      && m.voc == voc && m.jsc == Abs(jsc)
      && p in points && InQuadrant(p, voc, jsc) && m.pce == Abs(p.v * p.j)
      && forall q :: q in points && InQuadrant(q, voc, jsc) ==> Abs(q.v * q.j) <= m.pce
  {
    var voc, jsc := VocOf(points).value, JscOf(points).value;
    var powers := GeneratingPowers(points, voc, jsc);
    p := PowersFrom(points, voc, jsc, MaxOf(powers));
    forall q | q in points && InQuadrant(q, voc, jsc) ensures Abs(q.v * q.j) <= MaxOf(powers) {
      PowersHave(points, voc, jsc, q);
    }
  }

  /** There are metrics exactly when Voc and Jsc exist, neither is zero, and some listed point lies in the quadrant; the
      first condition that fails names the error. */
  lemma MetricsExist(points: seq<Point>)
    ensures MetricsOf(points).Ok?
      <==> && |points| >= 2 && VocOf(points).Some? && JscOf(points).Some?
           && VocOf(points).value != 0.0 && JscOf(points).value != 0.0
           && exists p :: p in points && InQuadrant(p, VocOf(points).value, JscOf(points).value)
    ensures MetricsOf(points) == Err(TooFewPoints) <==> |points| < 2
    ensures MetricsOf(points) == Err(NoVoc) <==> |points| >= 2 && VocOf(points).None?
    ensures MetricsOf(points) == Err(NoJsc) <==> |points| >= 2 && VocOf(points).Some? && JscOf(points).None?
  {
    if |points| >= 2 && VocOf(points).Some? && JscOf(points).Some? {
      var voc, jsc := VocOf(points).value, JscOf(points).value;
      var powers := GeneratingPowers(points, voc, jsc);
      if powers != [] {
        var p := PowersFrom(points, voc, jsc, powers[0]);
      }
      if p :| p in points && InQuadrant(p, voc, jsc) {
        PowersHave(points, voc, jsc, p);
      }
      NonZeroProduct(voc, jsc);
    }
  }

  lemma NonZeroProduct(a: real, b: real)
    ensures Abs(Product(a, b)) > 0.0 <==> a != 0.0 && b != 0.0
  {
    if a != 0.0 && b != 0.0 && Product(a, b) == 0.0 {
      ProductIsZero(a, b);
    }
    ProductSigns(a, b);
  }
}

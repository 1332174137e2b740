// The bee-swarm packer of metric_boxplot.py: circles keep their y value and
// are pushed sideways until they touch no earlier circle.
module Swarm {
  import opened Reals
  import opened Sorting
  import opened Wrappers

  datatype Circle = Circle(x: real, y: real)

  datatype SwarmError = SpacingsMustBePositive

  // The marker diameters in data units, and the square root that places the tangents.
  datatype Marker = Marker(width: real, ySpacing: real, sqrt: real -> real) {
    ghost predicate Valid() {
      width > 0.0 && ySpacing > 0.0 && IsSqrt(sqrt)
    }
  }

  const TOLERANCE := 0.000000001

  function Square(x: real): real { x * x }

  // The squared distance of two circles, measured in marker diameters.
  function Distance2(c: Circle, d: Circle, m: Marker): real
    requires m.width > 0.0 && m.ySpacing > 0.0
  {
    Square((c.x - d.x) / m.width) + Square((c.y - d.y) / m.ySpacing)
  }

  // ----- one placement -----

  function Neighbors(placed: seq<Circle>, value: real, m: Marker): seq<Circle> {
    if placed == [] then []
    else (if Abs(value - placed[0].y) < m.ySpacing then [placed[0]] else []) + Neighbors(placed[1..], value, m)
  }

  // How far to the side of c a circle at height value just touches it.
  function Tangent(c: Circle, value: real, m: Marker): real
    requires m.ySpacing > 0.0
  {
    var gap := 1.0 - Square((value - c.y) / m.ySpacing);
    m.width * m.sqrt(if gap > 0.0 then gap else 0.0)
  }

  function Tangents(neighbors: seq<Circle>, value: real, m: Marker): seq<real>
    requires m.ySpacing > 0.0
  {
    if neighbors == [] then []
    else
      var dx := Tangent(neighbors[0], value, m);
      [neighbors[0].x - dx, neighbors[0].x + dx] + Tangents(neighbors[1..], value, m)
  }

  function Candidates(neighbors: seq<Circle>, value: real, m: Marker): seq<real>
    requires m.ySpacing > 0.0
  {
    [0.0] + Tangents(neighbors, value, m)
  }

  // The key (abs(x), x): nearest first, the left one of a pair at equal distance.
  predicate NearestFirst(x: real, y: real) {
    Abs(x) < Abs(y) || (Abs(x) == Abs(y) && x <= y)
  }

  predicate Accepts(x: real, value: real, neighbors: seq<Circle>, m: Marker)
    requires m.width > 0.0 && m.ySpacing > 0.0
  {
    forall k :: 0 <= k < |neighbors| ==> Distance2(Circle(x, value), neighbors[k], m) >= 1.0 - TOLERANCE
  }

  function FirstAccepted(candidates: seq<real>, value: real, neighbors: seq<Circle>, m: Marker): real
    requires m.width > 0.0 && m.ySpacing > 0.0
  {
    if candidates == [] then 0.0
    else if Accepts(candidates[0], value, neighbors, m) then candidates[0]
    else FirstAccepted(candidates[1..], value, neighbors, m)
  }

  // The offset the packer gives to a circle at height value.
  function Choose(placed: seq<Circle>, value: real, m: Marker): real
    requires m.width > 0.0 && m.ySpacing > 0.0
  {
    var neighbors := Neighbors(placed, value, m);
    FirstAccepted(SortBy(Candidates(neighbors, value, m), NearestFirst), value, neighbors, m)
  }

  // The circles placed, when the heights arrive in the given order.
  function Pack(values: seq<real>, m: Marker): (r: seq<Circle>)
    requires m.width > 0.0 && m.ySpacing > 0.0
    ensures |r| == |values|
    ensures forall k :: 0 <= k < |values| ==> r[k].y == values[k]
  {
    if values == [] then []
    else
      var last := |values| - 1;
      var placed := Pack(values[..last], m);
      placed + [Circle(Choose(placed, values[last], m), values[last])]
  }

  lemma {:induction false} PackPrefix(values: seq<real>, k: nat, m: Marker)
    requires m.width > 0.0 && m.ySpacing > 0.0 && k <= |values|
    ensures Pack(values, m)[..k] == Pack(values[..k], m)
    decreases |values|
  {
    if k < |values| {
      var last := |values| - 1;
      PackPrefix(values[..last], k, m);
      assert values[..last][..k] == values[..k];
      assert Pack(values, m)[..k] == Pack(values[..last], m)[..k];
    } else {
      assert values[..k] == values;
      assert Pack(values, m)[..k] == Pack(values, m);
    }
  }

  lemma {:induction false} PackAt(values: seq<real>, k: nat, m: Marker)
    requires m.width > 0.0 && m.ySpacing > 0.0 && k < |values|
    ensures Pack(values, m)[k] == Circle(Choose(Pack(values, m)[..k], values[k], m), values[k])
  {
    PackPrefix(values, k, m);
    PackPrefix(values, k + 1, m);
    assert values[..k + 1][..k] == values[..k];
    assert Pack(values, m)[k] == Pack(values, m)[..k + 1][k];
  }

  // ----- the geometry of one placement -----

  // x keeps a circle at height value clear of c, exactly, with no tolerance.
  predicate ClearOf(x: real, value: real, c: Circle, m: Marker)
    requires m.width > 0.0 && m.ySpacing > 0.0
  {
    Distance2(Circle(x, value), c, m) >= 1.0
  }

  predicate Clear(x: real, value: real, placed: seq<Circle>, m: Marker)
    requires m.width > 0.0 && m.ySpacing > 0.0
  {
    forall k :: 0 <= k < |placed| ==> ClearOf(x, value, placed[k], m)
  }

  lemma SquareMonotone(a: real, b: real)
    requires 0.0 <= a && 0.0 <= b
    ensures a <= b <==> Square(a) <= Square(b)
  {
    calc { Square(b) - Square(a); == (b - a) * (b + a); }
    if a <= b {
      assert (b - a) * (b + a) >= 0.0;
    } else {
      var d, e := a - b, b + a;
      assert d > 0.0 && e > 0.0;
      assert d * e > 0.0;
      calc { Square(a) - Square(b); == d * e; > 0.0; }
    }
  }

  lemma ScaledSquare(d: real, w: real)
    requires w > 0.0
    ensures Square(d / w) * Square(w) == Square(d)
  {
    var q := d / w;
    assert q * w == d;
    assert Square(q) * Square(w) == (q * w) * (q * w);
  }

  lemma SquaresAreNonNegative(a: real)
    ensures Square(a) >= 0.0
  {
  }

  // Outside a band of one diameter the heights alone keep two circles apart.
  lemma FarInHeight(d: real, h: real)
    requires h > 0.0
    ensures Abs(d) < h <==> Square(d / h) < 1.0
  {
    ScaledSquare(d, h);
    SquareMonotone(h, Abs(d));
    assert Square(Abs(d)) == Square(d);
    ProductOrder(1.0, Square(d / h), Square(h)) by { calc { Square(h); == h * h; > 0.0; } }
  }

  /** The forbidden positions beside a neighbour are exactly the open interval between its two tangents. */
  lemma ForbiddenInterval(x: real, value: real, c: Circle, m: Marker)
    requires m.Valid() && Abs(value - c.y) < m.ySpacing
    ensures Tangent(c, value, m) > 0.0
    ensures ClearOf(x, value, c, m) <==> x <= c.x - Tangent(c, value, m) || c.x + Tangent(c, value, m) <= x
  {
    FarInHeight(value - c.y, m.ySpacing);
    var gap := 1.0 - Square((value - c.y) / m.ySpacing);
    var root := m.sqrt(gap);
    assert root >= 0.0 && root * root == gap;
    var dx := Tangent(c, value, m);
    assert dx == m.width * root;
    assert root > 0.0;
    TangentReaches(x - c.x, m.width, root);
  }

  lemma TangentReaches(d: real, w: real, root: real)
    requires w > 0.0 && root > 0.0
    ensures w * root > 0.0
    ensures Square(d / w) >= Square(root) <==> Abs(d) >= w * root
  {
    ScaledSquare(d, w);
    var q := d / w;
    assert Abs(d) == Abs(q) * w by { assert q * w == d; }
    SquareMonotone(root, Abs(q));
    assert Square(Abs(q)) == Square(q);
    if Abs(q) >= root {
      assert Abs(q) * w >= root * w;
    } else {
      assert Abs(q) * w < root * w;
    }
  }

  // ----- a clear position no farther than x is among the candidates -----

  lemma {:induction false} NeighborsAre(placed: seq<Circle>, value: real, m: Marker)
    ensures forall c :: c in Neighbors(placed, value, m) <==> c in placed && Abs(value - c.y) < m.ySpacing
  {
    if placed != [] {
      NeighborsAre(placed[1..], value, m);
      assert placed == [placed[0]] + placed[1..];
    }
  }

  lemma {:induction false} TangentsAre(neighbors: seq<Circle>, value: real, m: Marker, k: nat)
    requires m.ySpacing > 0.0 && k < |neighbors|
    ensures neighbors[k].x - Tangent(neighbors[k], value, m) in Tangents(neighbors, value, m)
    ensures neighbors[k].x + Tangent(neighbors[k], value, m) in Tangents(neighbors, value, m)
  {
    var dx := Tangent(neighbors[0], value, m);
    var head := [neighbors[0].x - dx, neighbors[0].x + dx];
    assert head[0] in head && head[1] in head;
    if k > 0 {
      TangentsAre(neighbors[1..], value, m, k - 1);
    }
  }

  // The end of an interval that a circle sliding from x towards the centre meets first.
  function Stop(x: real, value: real, neighbors: seq<Circle>, m: Marker): (stop: real)
    requires m.ySpacing > 0.0
    ensures x >= 0.0 ==> 0.0 <= stop <= x
    ensures x <= 0.0 ==> x <= stop <= 0.0
    ensures stop == 0.0 || stop in Tangents(neighbors, value, m)
    ensures forall k :: 0 <= k < |neighbors| && x >= 0.0 ==>
      var b := neighbors[k].x + Tangent(neighbors[k], value, m); b <= x ==> b <= stop
    ensures forall k :: 0 <= k < |neighbors| && x <= 0.0 ==>
      var a := neighbors[k].x - Tangent(neighbors[k], value, m); x <= a ==> stop <= a
  {
    if neighbors == [] then 0.0
    else
      var rest := Stop(x, value, neighbors[1..], m);
      var dx := Tangent(neighbors[0], value, m);
      var right := neighbors[0].x + dx;
      var left := neighbors[0].x - dx;
      TangentsAre(neighbors, value, m, 0);
      if x >= 0.0 && rest < right <= x then right
      else if x < 0.0 && x <= left < rest then left
      else rest
  }

  /** The heart of the packing: from any clear x, some candidate at least as near the centre is clear too. */
  lemma {:induction false} SomeCandidateIsClear(x: real, value: real, neighbors: seq<Circle>, m: Marker) returns (c: real)
    requires m.Valid()
    requires forall k :: 0 <= k < |neighbors| ==> Abs(value - neighbors[k].y) < m.ySpacing
    requires Clear(x, value, neighbors, m)
    ensures c in Candidates(neighbors, value, m)
    ensures Clear(c, value, neighbors, m) && Abs(c) <= Abs(x)
  {
    c := Stop(x, value, neighbors, m);
    assert [0.0][0] == 0.0;
    forall k | 0 <= k < |neighbors| ensures ClearOf(c, value, neighbors[k], m) {
      ForbiddenInterval(x, value, neighbors[k], m);
      ForbiddenInterval(c, value, neighbors[k], m);
    }
  }

  // Far enough to the right everything is clear, so the search can never come back empty.
  lemma {:induction false} SomewhereIsClear(value: real, neighbors: seq<Circle>, m: Marker) returns (x: real)
    requires m.Valid()
    requires forall k :: 0 <= k < |neighbors| ==> Abs(value - neighbors[k].y) < m.ySpacing
    ensures x >= 0.0 && Clear(x, value, neighbors, m)
    ensures forall k :: 0 <= k < |neighbors| ==> neighbors[k].x + Tangent(neighbors[k], value, m) <= x
  {
    if neighbors == [] {
      x := 0.0;
    } else {
      x := SomewhereIsClear(value, neighbors[1..], m);
      var b := neighbors[0].x + Tangent(neighbors[0], value, m);
      x := if b > x then b else x;
      forall k | 0 <= k < |neighbors|
        ensures neighbors[k].x + Tangent(neighbors[k], value, m) <= x && ClearOf(x, value, neighbors[k], m)
      {
        assert k > 0 ==> neighbors[k] == neighbors[1..][k - 1];
        ForbiddenInterval(x, value, neighbors[k], m);
      }
    }
  }

  lemma {:induction false} FirstAcceptedIsNearest(candidates: seq<real>, value: real, neighbors: seq<Circle>,
                                                  m: Marker, c: real)
    requires m.width > 0.0 && m.ySpacing > 0.0
    requires SortedBy(candidates, NearestFirst) && c in candidates && Accepts(c, value, neighbors, m)
    ensures var r := FirstAccepted(candidates, value, neighbors, m);
      r in candidates && Accepts(r, value, neighbors, m) && NearestFirst(r, c)
  {
    if !Accepts(candidates[0], value, neighbors, m) {
      assert c in candidates[1..];
      FirstAcceptedIsNearest(candidates[1..], value, neighbors, m, c);
    }
  }

  /** The inner loop always breaks: the offset chosen is a candidate the test accepted. */
  lemma ChooseAlwaysFinds(placed: seq<Circle>, value: real, m: Marker)
    requires m.Valid()
    ensures var neighbors := Neighbors(placed, value, m);
      && Choose(placed, value, m) in Candidates(neighbors, value, m)
      && Accepts(Choose(placed, value, m), value, neighbors, m)
  {
    var neighbors := Neighbors(placed, value, m);
    NeighborsAre(placed, value, m);
    var x := SomewhereIsClear(value, neighbors, m);
    var _ := ChooseBeats(placed, value, m, x);
  }

  lemma ChooseBeats(placed: seq<Circle>, value: real, m: Marker, x: real) returns (c: real)
    requires m.Valid() && Clear(x, value, Neighbors(placed, value, m), m)
    ensures Abs(Choose(placed, value, m)) <= Abs(c) <= Abs(x)
    ensures var neighbors := Neighbors(placed, value, m);
      && Choose(placed, value, m) in Candidates(neighbors, value, m)
      && Accepts(Choose(placed, value, m), value, neighbors, m)
  {
    var neighbors := Neighbors(placed, value, m);
    NeighborsAre(placed, value, m);
    c := SomeCandidateIsClear(x, value, neighbors, m);
    assert Accepts(c, value, neighbors, m) by {
      forall k | 0 <= k < |neighbors|
        ensures Distance2(Circle(c, value), neighbors[k], m) >= 1.0 - TOLERANCE
      {
        assert ClearOf(c, value, neighbors[k], m);
      }
    }
    var sorted := SortBy(Candidates(neighbors, value, m), NearestFirst);
    NearestFirstIsOrder();
    SortBySorts(Candidates(neighbors, value, m), NearestFirst);
    SameMembers(Candidates(neighbors, value, m), NearestFirst);
    FirstAcceptedIsNearest(sorted, value, neighbors, m, c);
  }

  lemma NearestFirstIsOrder()
    ensures TotalPreorder(NearestFirst)
  {
  }

  /** Of the candidates the test accepts the nearest to the centre is taken, and of two as near the left one. */
  lemma ChooseGoesLeft(placed: seq<Circle>, value: real, m: Marker, c: real)
    requires m.Valid()
    requires c in Candidates(Neighbors(placed, value, m), value, m) && Accepts(c, value, Neighbors(placed, value, m), m)
    ensures var x := Choose(placed, value, m); Abs(x) < Abs(c) || (Abs(x) == Abs(c) && x <= c)
  {
    var neighbors := Neighbors(placed, value, m);
    NearestFirstIsOrder();
    SortBySorts(Candidates(neighbors, value, m), NearestFirst);
    SameMembers(Candidates(neighbors, value, m), NearestFirst);
    FirstAcceptedIsNearest(SortBy(Candidates(neighbors, value, m), NearestFirst), value, neighbors, m, c);
  }

  /** A circle next to one of the same height on the centre line goes to its left, one width away. */
  lemma SecondGoesLeft(value: real, m: Marker)
    requires m.Valid()
    ensures Choose([], value, m) == 0.0 && Choose([Circle(0.0, value)], value, m) == -m.width
  {
    var c := Circle(0.0, value);
    ChooseAlwaysFinds([], value, m);
    assert Neighbors([c], value, m) == [c] && [c][1..] == [];
    assert Tangents([], value, m) == [];
    TangentBeside(value, m);
    assert Candidates([c], value, m) == [0.0, -m.width, m.width];
    assert !Accepts(0.0, value, [c], m) by {
      assert Distance2(Circle(0.0, value), [c][0], m) == 0.0;
    }
    assert Accepts(-m.width, value, [c], m) by {
      assert (-m.width - 0.0) / m.width == -1.0;
      assert Distance2(Circle(-m.width, value), c, m) == 1.0;
    }
    ChooseAlwaysFinds([c], value, m);
    ChooseGoesLeft([c], value, m, -m.width);
  }

  lemma TangentBeside(value: real, m: Marker)
    requires m.Valid()
    ensures Tangent(Circle(0.0, value), value, m) == m.width
  {
    var root := m.sqrt(1.0);
    assert root >= 0.0 && root * root == 1.0;
    assert Product(root - 1.0, root + 1.0) == root * root - 1.0;
    ProductIsZero(root - 1.0, root + 1.0);
    assert Square((value - value) / m.ySpacing) == 0.0;
  }

  /** No position that truly avoids every earlier circle is nearer the centre than the one chosen. */
  lemma {:induction false} ChooseIsNearest(placed: seq<Circle>, value: real, m: Marker, x: real)
    requires m.Valid() && Clear(x, value, placed, m)
    ensures Abs(Choose(placed, value, m)) <= Abs(x)
  {
    NeighborsAre(placed, value, m);
    var neighbors := Neighbors(placed, value, m);
    forall k | 0 <= k < |neighbors| ensures ClearOf(x, value, neighbors[k], m) {
      assert neighbors[k] in placed;
    }
    var _ := ChooseBeats(placed, value, m, x);
  }

  // Circles that are not neighbours are apart by their heights alone.
  lemma ApartInHeight(c: Circle, d: Circle, m: Marker)
    requires m.width > 0.0 && m.ySpacing > 0.0 && Abs(c.y - d.y) >= m.ySpacing
    ensures Distance2(c, d, m) >= 1.0
  {
    FarInHeight(c.y - d.y, m.ySpacing);
    SquaresAreNonNegative((c.x - d.x) / m.width);
  }

  /** The circle chosen keeps its distance from every earlier circle, neighbour or not. */
  lemma ChooseSeparates(placed: seq<Circle>, value: real, m: Marker, k: nat)
    requires m.Valid() && k < |placed|
    ensures Distance2(Circle(Choose(placed, value, m), value), placed[k], m) >= 0.999999999
  {
    var x := Choose(placed, value, m);
    if Abs(value - placed[k].y) < m.ySpacing {
      var neighbors := Neighbors(placed, value, m);
      assert placed[k] in neighbors by { NeighborsAre(placed, value, m); }
      assert Accepts(x, value, neighbors, m) by { ChooseAlwaysFinds(placed, value, m); }
      var n :| 0 <= n < |neighbors| && neighbors[n] == placed[k];
      assert Distance2(Circle(x, value), neighbors[n], m) >= 1.0 - TOLERANCE;
    } else {
      ApartInHeight(Circle(x, value), placed[k], m);
    }
  }

  // ----- the whole packing -----

  /** In the finished picture no two markers overlap by more than the tolerance. */
  lemma {:induction false} PackSeparates(values: seq<real>, m: Marker, i: nat, j: nat)
    requires m.Valid() && i < j < |values|
    ensures Distance2(Pack(values, m)[j], Pack(values, m)[i], m) >= 0.999999999
  {
    PackAt(values, j, m);
    ChooseSeparates(Pack(values, m)[..j], values[j], m, i);
  }

  /** Each marker is as near the centre line as the markers placed before it allow. */
  lemma PackIsTight(values: seq<real>, m: Marker, j: nat, x: real)
    requires m.Valid() && j < |values|
    requires Clear(x, values[j], Pack(values, m)[..j], m)
    ensures Abs(Pack(values, m)[j].x) <= Abs(x)
  {
    PackAt(values, j, m);
    ChooseIsNearest(Pack(values, m)[..j], values[j], m, x);
  }

  // ----- the order of placement -----

  datatype Indexed = Indexed(index: nat, value: real)

  predicate ByValue(a: Indexed, b: Indexed) { a.value <= b.value }

  function Enumerate(values: seq<real>): (r: seq<Indexed>)
    ensures |r| == |values| && forall k :: 0 <= k < |values| ==> r[k] == Indexed(k, values[k])
  {
    seq(|values|, k requires 0 <= k < |values| => Indexed(k, values[k]))
  }

  // The indices with their values, in ascending order of value.
  function Order(values: seq<real>): seq<Indexed> {
    SortBy(Enumerate(values), ByValue)
  }

  function Indices(order: seq<Indexed>): (r: seq<nat>)
    ensures |r| == |order| && forall k :: 0 <= k < |order| ==> r[k] == order[k].index
  {
    seq(|order|, k requires 0 <= k < |order| => order[k].index)
  }

  function Heights(order: seq<Indexed>): (r: seq<real>)
    ensures |r| == |order| && forall k :: 0 <= k < |order| ==> r[k] == order[k].value
  {
    seq(|order|, k requires 0 <= k < |order| => order[k].value)
  }

  lemma CountAtMostOne(s: seq<Indexed>, e: Indexed)
    requires forall i, j :: 0 <= i < j < |s| ==> s[i] != s[j]
    ensures multiset(s)[e] <= 1
  {
    if s != [] {
      CountAtMostOne(s[1..], e);
      assert s == [s[0]] + s[1..];
      if s[0] == e {
        assert e !in s[1..];
      }
    }
  }

  lemma DistinctFromCount(s: seq<Indexed>, i: nat, j: nat)
    requires i < j < |s| && s[i] == s[j]
    ensures multiset(s)[s[i]] >= 2
  {
    assert s == s[..j] + [s[j]] + s[j + 1..];
    assert s[i] in s[..j] by { assert s[..j][i] == s[i]; }
  }

  // An order in which each index turns up at one position only.
  ghost predicate VisitsOnce(order: seq<nat>) {
    && (forall p :: 0 <= p < |order| ==> order[p] < |order|)
    && (forall p, q :: 0 <= p < q < |order| ==> order[p] != order[q])
  }

  lemma OrderHas(values: seq<real>)
    ensures |Order(values)| == |values|
    ensures forall e :: e in Order(values) <==> e.index < |values| && e.value == values[e.index]
  {
    SameMembers(Enumerate(values), ByValue);
    forall e | e in Order(values) ensures e.index < |values| && e.value == values[e.index] {
      assert e in Enumerate(values);
    }
    forall e: Indexed | e.index < |values| && e.value == values[e.index] ensures e in Order(values) {
      assert Enumerate(values)[e.index] == e;
    }
  }

  lemma OrderIsInjective(values: seq<real>, p: nat, q: nat)
    requires p < q < |Order(values)|
    ensures Order(values)[p] != Order(values)[q]
  {
    if Order(values)[p] == Order(values)[q] {
      DistinctFromCount(Order(values), p, q);
      SortByPermutes(Enumerate(values), ByValue);
      CountAtMostOne(Enumerate(values), Order(values)[p]);
      assert false;
    }
  }

  /** The placement order visits every index exactly once, and in ascending height. */
  lemma OrderVisitsOnce(values: seq<real>)
    ensures |Order(values)| == |values| && VisitsOnce(Indices(Order(values)))
    ensures forall p :: 0 <= p < |values| ==> Order(values)[p].value == values[Indices(Order(values))[p]]
    ensures forall i :: 0 <= i < |values| ==> Indexed(i, values[i]) in Order(values)
    ensures Ascending(Heights(Order(values)))
  {
    OrderHas(values);
    var order := Order(values);
    forall p | 0 <= p < |order| ensures order[p].index < |values| && order[p].value == values[order[p].index] {
      assert order[p] in order;
    }
    forall p, q | 0 <= p < q < |order| ensures Indices(order)[p] != Indices(order)[q] {
      OrderIsInjective(values, p, q);
    }
    SortBySorts(Enumerate(values), ByValue);
    forall p, q | 0 <= p < q < |order| ensures Heights(order)[p] <= Heights(order)[q] {
      assert ByValue(order[p], order[q]);
    }
  }

  // offsets[i] is the x of the circle that was placed for index i.
  ghost predicate IsPacking(values: seq<real>, offsets: seq<real>, m: Marker)
    requires m.width > 0.0 && m.ySpacing > 0.0
  {
    var order := Order(values);
    && |offsets| == |values| == |order|
    && VisitsOnce(Indices(order))
    && forall p :: 0 <= p < |order| ==> offsets[Indices(order)[p]] == Pack(Heights(order), m)[p].x
  }

  // The inner loop: try the candidates in turn and break at the first that fits.
  method FirstFitting(placed: seq<Circle>, value: real, m: Marker) returns (x: real)
    requires m.width > 0.0 && m.ySpacing > 0.0
    ensures x == Choose(placed, value, m)
  {
    var neighbors := Neighbors(placed, value, m);
    var candidates := SortBy(Candidates(neighbors, value, m), NearestFirst);
    x := 0.0;
    for next := 0 to |candidates|
      invariant x == 0.0
      invariant FirstAccepted(candidates[next..], value, neighbors, m) == FirstAccepted(candidates, value, neighbors, m)
    {
      if Accepts(candidates[next], value, neighbors, m) {
        x := candidates[next];
        break;
      }
    }
  }

  // The outer loop: place the circles in order, each beside those placed before it.
  method PlaceInOrder(order: seq<nat>, heights: seq<real>, m: Marker) returns (offsets: array<real>)
    requires m.width > 0.0 && m.ySpacing > 0.0 && VisitsOnce(order) && |order| == |heights|
    ensures offsets.Length == |order|
    ensures forall p :: 0 <= p < |order| ==> offsets[order[p]] == Pack(heights, m)[p].x
  {
    ghost var packed := Pack(heights, m);
    offsets := new real[|order|](_ => 0.0);
    var placed: seq<Circle> := [];
    for p := 0 to |order|
      invariant placed == packed[..p]
      invariant forall q :: 0 <= q < p ==> offsets[order[q]] == packed[q].x
    {
      var x := FirstFitting(placed, heights[p], m);
      offsets[order[p]] := x;
      PackAt(heights, p, m);
      placed := placed + [Circle(x, heights[p])];
    }
  }

  method SwarmOffsets(values: seq<real>, m: Marker) returns (r: Result<seq<real>, SwarmError>)
    ensures r.Err? <==> m.width <= 0.0 || m.ySpacing <= 0.0
    ensures r.Ok? ==> IsPacking(values, r.value, m)
  {
    if m.width <= 0.0 || m.ySpacing <= 0.0 {
      return Err(SpacingsMustBePositive);
    }
    OrderVisitsOnce(values);
    var order := Order(values);
    var offsets := PlaceInOrder(Indices(order), Heights(order), m);
    r := Ok(offsets[..]);
  }

  lemma PositionOf(values: seq<real>, offsets: seq<real>, m: Marker, i: nat) returns (p: nat)
    requires m.Valid() && IsPacking(values, offsets, m) && i < |values|
    ensures p < |values| == |Order(values)| && Indices(Order(values))[p] == i
    ensures Pack(Heights(Order(values)), m)[p] == Circle(offsets[i], values[i])
  {
    OrderVisitsOnce(values);
    assert Indexed(i, values[i]) in Order(values);
    p :| 0 <= p < |values| && Order(values)[p] == Indexed(i, values[i]);
  }

  /** For any values and positive spacings: no two of the returned markers overlap. */
  lemma OffsetsSeparate(values: seq<real>, offsets: seq<real>, m: Marker, i: nat, j: nat)
    requires m.Valid() && IsPacking(values, offsets, m) && i < |values| && j < |values| && i != j
    ensures Distance2(Circle(offsets[i], values[i]), Circle(offsets[j], values[j]), m) >= 0.999999999
  {
    var p := PositionOf(values, offsets, m, i);
    var q := PositionOf(values, offsets, m, j);
    DistanceIsSymmetric(Circle(offsets[i], values[i]), Circle(offsets[j], values[j]), m);
    if p < q {
      PackSeparates(Heights(Order(values)), m, p, q);
    } else {
      PackSeparates(Heights(Order(values)), m, q, p);
    }
  }

  /** And no returned offset is farther out than a position that truly avoids every marker placed earlier. */
  lemma OffsetsAreTight(values: seq<real>, offsets: seq<real>, m: Marker, p: nat, x: real)
    requires m.Valid() && IsPacking(values, offsets, m) && p < |values|
    requires forall q :: 0 <= q < p ==>
      var i := Indices(Order(values))[q];
      ClearOf(x, Order(values)[p].value, Circle(offsets[i], values[i]), m)
    ensures Abs(offsets[Indices(Order(values))[p]]) <= Abs(x)
  {
    OrderVisitsOnce(values);
    var order := Order(values);
    var circles := Pack(Heights(order), m);
    forall q | 0 <= q < p ensures ClearOf(x, order[p].value, circles[..p][q], m) {
      var i := Indices(order)[q];
      assert circles[q] == Circle(offsets[i], values[i]);
    }
    PackIsTight(Heights(order), m, p, x);
  }

  lemma DistanceIsSymmetric(c: Circle, d: Circle, m: Marker)
    requires m.width > 0.0 && m.ySpacing > 0.0
    ensures Distance2(c, d, m) == Distance2(d, c, m)
  {
    NegatedQuotient(c.x - d.x, m.width);
    NegatedQuotient(c.y - d.y, m.ySpacing);
  }

  lemma NegatedQuotient(d: real, w: real)
    requires w > 0.0
    ensures Square(d / w) == Square((-d) / w)
  {
    var q := d / w;
    assert q * w == d;
    assert (-q) * w == -d;
    assert (-d) / w == -q;
  }
}

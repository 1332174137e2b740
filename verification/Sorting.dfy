// Python's sorted(..., key=...) and JavaScript's Array.prototype.sort are
// stable.  SortBy is that sort, with the properties the kernels rely on:
// it permutes, it orders, it keeps the order of equivalent elements, and for
// an antisymmetric order the result depends only on the multiset sorted.
module Sorting {

  ghost predicate TotalPreorder<T(!new)>(leq: (T, T) -> bool) {
    && (forall x, y :: leq(x, y) || leq(y, x))
    && (forall x, y, z :: leq(x, y) && leq(y, z) ==> leq(x, z))
  }

  predicate SortedBy<T>(s: seq<T>, leq: (T, T) -> bool) {
    forall i, j :: 0 <= i < j < |s| ==> leq(s[i], s[j])
  }

  function Insert<T>(x: T, s: seq<T>, leq: (T, T) -> bool): (r: seq<T>)
    ensures |r| == |s| + 1
  {
    if s == [] || leq(x, s[0]) then [x] + s else [s[0]] + Insert(x, s[1..], leq)
  }

  function SortBy<T>(s: seq<T>, leq: (T, T) -> bool): (r: seq<T>)
    ensures |r| == |s|
  {
    if s == [] then [] else Insert(s[0], SortBy(s[1..], leq), leq)
  }

  lemma {:induction false} InsertPermutes<T>(x: T, s: seq<T>, leq: (T, T) -> bool)
    ensures multiset(Insert(x, s, leq)) == multiset([x] + s)
  {
    if s != [] && !leq(x, s[0]) {
      InsertPermutes(x, s[1..], leq);
      assert s == [s[0]] + s[1..];
    }
  }

  lemma {:induction false} SortByPermutes<T>(s: seq<T>, leq: (T, T) -> bool)
    ensures multiset(SortBy(s, leq)) == multiset(s)
  {
    if s != [] {
      SortByPermutes(s[1..], leq);
      InsertPermutes(s[0], SortBy(s[1..], leq), leq);
      assert s == [s[0]] + s[1..];
    }
  }

  lemma SameMembers<T>(s: seq<T>, leq: (T, T) -> bool)
    ensures forall x :: x in SortBy(s, leq) <==> x in s
  {
    SortByPermutes(s, leq);
    assert forall x :: x in SortBy(s, leq) <==> x in multiset(SortBy(s, leq));
    assert forall x :: x in s <==> x in multiset(s);
  }

  lemma {:induction false} InsertSorts<T(!new)>(x: T, s: seq<T>, leq: (T, T) -> bool)
    requires TotalPreorder(leq) && SortedBy(s, leq)
    ensures SortedBy(Insert(x, s, leq), leq)
  {
    if s != [] && !leq(x, s[0]) {
      InsertSorts(x, s[1..], leq);
      InsertPermutes(x, s[1..], leq);
      var t := Insert(x, s[1..], leq);
      forall y | y in t ensures leq(s[0], y) {
        assert y in multiset(t);
        assert y == x || y in s[1..];
      }
    }
  }

  lemma {:induction false} SortBySorts<T(!new)>(s: seq<T>, leq: (T, T) -> bool)
    requires TotalPreorder(leq)
    ensures SortedBy(SortBy(s, leq), leq)
  {
    if s != [] {
      SortBySorts(s[1..], leq);
      InsertSorts(s[0], SortBy(s[1..], leq), leq);
    }
  }

  // The elements equivalent to pivot, in the order they occur.
  function Ties<T>(s: seq<T>, pivot: T, leq: (T, T) -> bool): seq<T> {
    if s == [] then []
    else (if leq(s[0], pivot) && leq(pivot, s[0]) then [s[0]] else []) + Ties(s[1..], pivot, leq)
  }

  lemma {:induction false} InsertKeepsTies<T(!new)>(x: T, s: seq<T>, pivot: T, leq: (T, T) -> bool)
    requires TotalPreorder(leq)
    ensures Ties(Insert(x, s, leq), pivot, leq) == Ties([x] + s, pivot, leq)
  {
    assert ([x] + s)[1..] == s;
    if s != [] && !leq(x, s[0]) {
      InsertKeepsTies(x, s[1..], pivot, leq);
      assert ([x] + s[1..])[1..] == s[1..];
      var t := Insert(x, s[1..], leq);
      assert ([s[0]] + t)[1..] == t;
    }
  }

  /** Stability: whatever class of equivalent elements is looked at, sorting leaves its order alone. */
  lemma {:induction false} SortByIsStable<T(!new)>(s: seq<T>, pivot: T, leq: (T, T) -> bool)
    requires TotalPreorder(leq)
    ensures Ties(SortBy(s, leq), pivot, leq) == Ties(s, pivot, leq)
  {
    if s != [] {
      SortByIsStable(s[1..], pivot, leq);
      InsertKeepsTies(s[0], SortBy(s[1..], leq), pivot, leq);
      var t := SortBy(s[1..], leq);
      assert ([s[0]] + t)[1..] == t;
    }
  }

  predicate RealLeq(x: real, y: real) { x <= y }

  predicate Ascending(s: seq<real>) {
    forall i, j :: 0 <= i < j < |s| ==> s[i] <= s[j]
  }

  function SortReals(s: seq<real>): (r: seq<real>)
    ensures |r| == |s| && Ascending(r) && multiset(r) == multiset(s)
  {
    assert TotalPreorder(RealLeq);
    SortBySorts(s, RealLeq);
    SortByPermutes(s, RealLeq);
    var r := SortBy(s, RealLeq);
    assert forall i, j :: 0 <= i < j < |r| ==> RealLeq(r[i], r[j]);
    r
  }

  lemma HeadIsLeast(s: seq<real>, x: real)
    requires Ascending(s) && x in multiset(s)
    ensures s != [] && s[0] <= x
  {
    assert x in s;
  }

  lemma TailMultiset(s: seq<real>)
    requires s != []
    ensures multiset(s[1..]) == multiset(s) - multiset{s[0]}
  {
    assert s == [s[0]] + s[1..];
  }

  lemma SameHead(s: seq<real>, t: seq<real>)
    requires Ascending(s) && Ascending(t) && multiset(s) == multiset(t) && s != []
    ensures t != [] && s[0] == t[0]
  {
    assert s[0] in multiset(s);
    HeadIsLeast(t, s[0]);
    assert t[0] in multiset(t);
    HeadIsLeast(s, t[0]);
  }

  /** An ascending sequence is determined by its multiset, so sorting forgets the original order. */
  lemma {:induction false} AscendingIsUnique(s: seq<real>, t: seq<real>)
    requires Ascending(s) && Ascending(t) && multiset(s) == multiset(t)
    ensures s == t
  {
    if s == [] {
      assert |multiset(t)| == 0;
    } else {
      SameHead(s, t);
      TailMultiset(s);
      TailMultiset(t);
      assert s[1..] == t[1..] by { AscendingIsUnique(s[1..], t[1..]); }
      assert s == [s[0]] + s[1..] && t == [t[0]] + t[1..];
    }
  }
}

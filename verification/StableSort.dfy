/** Stable sorting, as the standard libraries of both languages promise it. */
module StableSort {

  ghost predicate TotalPreorder<T(!new)>(leq: (T, T) -> bool) {
    && (forall a, b :: leq(a, b) || leq(b, a))
    && (forall a, b, c :: leq(a, b) && leq(b, c) ==> leq(a, c))
  }

  function Insert<T>(x: T, s: seq<T>, leq: (T, T) -> bool): seq<T> {
    if s == [] || leq(x, s[0]) then [x] + s else [s[0]] + Insert(x, s[1..], leq)
  }

  function Sort<T>(s: seq<T>, leq: (T, T) -> bool): seq<T> {
    if s == [] then [] else Insert(s[0], Sort(s[1..], leq), leq)
  }

  ghost predicate Pairwise<T>(s: seq<T>, r: (T, T) -> bool) {
    forall i, j | 0 <= i < j < |s| :: r(s[i], s[j])
  }

  function Filter<T>(s: seq<T>, p: T -> bool): seq<T> {
    if s == [] then [] else (if p(s[0]) then [s[0]] else []) + Filter(s[1..], p)
  }

  lemma {:induction false} InsertPermutes<T>(x: T, s: seq<T>, leq: (T, T) -> bool)
    ensures multiset(Insert(x, s, leq)) == multiset([x] + s)
  {
    if s == [] || leq(x, s[0]) {
    } else {
      InsertPermutes(x, s[1..], leq);
      assert s == [s[0]] + s[1..];
    }
  }

  lemma {:induction false} SortPermutes<T>(s: seq<T>, leq: (T, T) -> bool)
    ensures multiset(Sort(s, leq)) == multiset(s)
  {
    if s == [] {
    } else {
      SortPermutes(s[1..], leq);
      InsertPermutes(s[0], Sort(s[1..], leq), leq);
      assert s == [s[0]] + s[1..];
    }
  }

  lemma SameElements<T>(s: seq<T>, leq: (T, T) -> bool, x: T)
    ensures x in Sort(s, leq) <==> x in s
  {
    SortPermutes(s, leq);
    assert x in s <==> x in multiset(s);
    assert x in Sort(s, leq) <==> x in multiset(Sort(s, leq));
  }

  /** What sorting by `leq` makes of an order: `leq` first, the old order among ties. */
  function Refined<T>(leq: (T, T) -> bool, r: (T, T) -> bool): (T, T) -> bool {
    (a, b) => leq(a, b) && (leq(b, a) ==> r(a, b))
  }

  lemma {:induction false} InsertRefines<T(!new)>(x: T, s: seq<T>, leq: (T, T) -> bool, r: (T, T) -> bool)
    requires TotalPreorder(leq)
    requires Pairwise(s, Refined(leq, r))
    requires forall y | y in s :: r(x, y)
    ensures Pairwise(Insert(x, s, leq), Refined(leq, r))
  {
    var q := Refined(leq, r);
    if s == [] {
    } else if leq(x, s[0]) {
      forall y | y in s
        ensures q(x, y)
      {
        var i :| 0 <= i < |s| && s[i] == y;
        assert i > 0 ==> q(s[0], s[i]);
      }
    } else {
      InsertRefines(x, s[1..], leq, r);
      var t := Insert(x, s[1..], leq);
      InsertPermutes(x, s[1..], leq);
      forall y | y in t
        ensures q(s[0], y)
      {
        assert y in multiset(t);
        assert y in [x] + s[1..];
        if y != x {
          var i :| 0 <= i < |s[1..]| && s[1..][i] == y;
          assert q(s[0], s[i + 1]);
        }
      }
    }
  }

  /** If `r` relates every element to the later ones, then after sorting by `leq` every element is below
      the later ones by `leq`, and related by `r` to those it ties with. */
  lemma {:induction false} SortRefines<T(!new)>(s: seq<T>, leq: (T, T) -> bool, r: (T, T) -> bool)
    requires TotalPreorder(leq) && Pairwise(s, r)
    ensures Pairwise(Sort(s, leq), Refined(leq, r))
  {
    if s == [] {
    } else {
      forall i, j | 0 <= i < j < |s[1..]|
        ensures r(s[1..][i], s[1..][j])
      {
        assert r(s[i + 1], s[j + 1]);
      }
      SortRefines(s[1..], leq, r);
      forall y | y in Sort(s[1..], leq)
        ensures r(s[0], y)
      {
        SameElements(s[1..], leq, y);
        var i :| 0 <= i < |s[1..]| && s[1..][i] == y;
        assert r(s[0], s[i + 1]);
      }
      InsertRefines(s[0], Sort(s[1..], leq), leq, r);
    }
  }

  lemma SortSorts<T(!new)>(s: seq<T>, leq: (T, T) -> bool)
    requires TotalPreorder(leq)
    ensures Pairwise(Sort(s, leq), leq)
  {
    var r: (T, T) -> bool := (a, b) => true;
    SortRefines(s, leq, r);
    forall i, j | 0 <= i < j < |Sort(s, leq)|
      ensures leq(Sort(s, leq)[i], Sort(s, leq)[j])
    {
      assert Refined(leq, r)(Sort(s, leq)[i], Sort(s, leq)[j]);
    }
  }

  ghost predicate AllTied<T(!new)>(leq: (T, T) -> bool, p: T -> bool) {
    forall a, b | p(a) && p(b) :: leq(a, b)
  }

  /** Sorting leaves the elements that tie with one another in the order they came in. */
  lemma {:induction false} SortIsStable<T(!new)>(s: seq<T>, leq: (T, T) -> bool, p: T -> bool)
    requires TotalPreorder(leq)
    requires AllTied(leq, p)
    ensures Filter(Sort(s, leq), p) == Filter(s, p)
  {
    if s == [] {
    } else {
      SortIsStable(s[1..], leq, p);
      InsertIsStable(s[0], Sort(s[1..], leq), leq, p);
    }
  }

  lemma {:induction false} InsertIsStable<T(!new)>(x: T, s: seq<T>, leq: (T, T) -> bool, p: T -> bool)
    requires AllTied(leq, p)
    ensures Filter(Insert(x, s, leq), p) == (if p(x) then [x] else []) + Filter(s, p)
  {
    if s == [] || leq(x, s[0]) {
      FilterCons(x, s, p);
    } else {
      InsertIsStable(x, s[1..], leq, p);
      FilterCons(s[0], Insert(x, s[1..], leq), p);
      assert !(p(x) && p(s[0]));
    }
  }

  lemma FilterCons<T>(x: T, s: seq<T>, p: T -> bool)
    ensures Filter([x] + s, p) == (if p(x) then [x] else []) + Filter(s, p)
  {
  }

  lemma {:induction false} FilterIn<T>(s: seq<T>, p: T -> bool, x: T)
    ensures x in Filter(s, p) <==> x in s && p(x)
  {
    if s == [] {
    } else {
      FilterIn(s[1..], p, x);
      assert s == [s[0]] + s[1..];
    }
  }
}

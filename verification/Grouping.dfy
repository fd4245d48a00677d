/** Grouping values that share a key of their time, in order of time. */
module Grouping {
  import opened StableSort

  type Slot<V, T> = (V, seq<T>)

  function KeyIs<T, K(==)>(key: T -> K, k: K): T -> bool {
    x => key(x) == k
  }

  /** The different keys, in order of their first value. */
  function Keys<T, K(==)>(s: seq<T>, key: T -> K): seq<K> {
    if s == [] then []
    else
      var keys := Keys(s[..|s| - 1], key);
      if key(s[|s| - 1]) in keys then keys else keys + [key(s[|s| - 1])]
  }

  function Group<T, K(==)>(s: seq<T>, key: T -> K, k: K): seq<T> {
    Filter(s, KeyIs(key, k))
  }

  function Flatten<T>(groups: seq<seq<T>>): seq<T> {
    if groups == [] then [] else Flatten(groups[..|groups| - 1]) + groups[|groups| - 1]
  }

  lemma {:induction false} FilterOfOneMore<T>(s: seq<T>, x: T, p: T -> bool)
    ensures Filter(s + [x], p) == Filter(s, p) + if p(x) then [x] else []
  {
    if s == [] {
      assert s + [x] == [x] + s;
    } else {
      FilterOfOneMore(s[1..], x, p);
      assert (s + [x])[1..] == s[1..] + [x];
    }
  }

  lemma KeysOfOneMore<T, K>(s: seq<T>, key: T -> K, x: T)
    ensures Keys(s + [x], key) == if key(x) in Keys(s, key) then Keys(s, key) else Keys(s, key) + [key(x)]
  {
  }

  lemma {:induction false} KeysAreDistinct<T, K>(s: seq<T>, key: T -> K)
    ensures forall i, j | 0 <= i < j < |Keys(s, key)| :: Keys(s, key)[i] != Keys(s, key)[j]
  {
    if s == [] {
    } else {
      KeysAreDistinct(s[..|s| - 1], key);
    }
  }

  lemma {:induction false} KeysAreThoseOfValues<T, K>(s: seq<T>, key: T -> K, k: K)
    ensures k in Keys(s, key) <==> exists i :: 0 <= i < |s| && key(s[i]) == k
  {
    if s == [] {
    } else {
      var front := s[..|s| - 1];
      KeysAreThoseOfValues(front, key, k);
      if i :| 0 <= i < |front| && key(front[i]) == k {
        assert key(s[i]) == k;
      }
      if i :| 0 <= i < |s| && key(s[i]) == k {
        assert i < |s| - 1 ==> key(front[i]) == k;
      }
    }
  }

  /** How each group changes when a value is added. */
  lemma GroupsOfOneMore<T, K>(s: seq<T>, key: T -> K, x: T, k: K)
    ensures Group(s + [x], key, k) == Group(s, key, k) + if key(x) == k then [x] else []
  {
    FilterOfOneMore(s, x, KeyIs(key, k));
  }

  function ByTime<T>(time: T -> int): (T, T) -> bool {
    (a, b) => time(a) <= time(b)
  }

  /** A slot of the result: the values of one key, under what the first of them resolves to. */
  ghost predicate IsSlot<T, V>(slot: Slot<V, T>, group: seq<T>, getTime: T -> int, getValue: int -> V) {
    slot.1 == group && group != [] && slot.0 == getValue(getTime(group[0]))
  }

  lemma {:induction false} GroupIsEmptyWithoutKey<T, K>(s: seq<T>, key: T -> K, k: K)
    ensures Group(s, key, k) == [] <==> k !in Keys(s, key)
  {
    if s == [] {
    } else {
      var front, last := s[..|s| - 1], s[|s| - 1];
      assert s == front + [last];
      GroupIsEmptyWithoutKey(front, key, k);
      GroupsOfOneMore(front, key, last, k);
    }
  }

  /** A JavaScript map keeps its keys in the order they were added: `keys` and `grouped` are one such map. */
  method GroupByTime<T, K(==,!new), V>(values: seq<T>, getTime: T -> int, getKey: int -> K, getValue: int -> V)
    returns (result: seq<Slot<V, T>>)
    ensures var sorted, key := Sort(values, ByTime(getTime)), KeyOf(getTime, getKey);
            && |result| == |Keys(sorted, key)|
            && forall i | 0 <= i < |result| :: IsSlot(result[i], Group(sorted, key, Keys(sorted, key)[i]), getTime,
              getValue)
  {
    var keys: seq<K> := [];
    var grouped: map<K, Slot<V, T>> := map[];
    var sortedValues := Sort(values, ByTime(getTime));
    ghost var key := KeyOf(getTime, getKey);
    for n := 0 to |sortedValues|
      invariant keys == Keys(sortedValues[..n], key)
      invariant forall k :: k in grouped <==> k in keys
      invariant forall k | k in keys :: IsSlot(grouped[k], Group(sortedValues[..n], key, k), getTime, getValue)
    {
      var value := sortedValues[n];
      var time := getTime(value);
      var k, resolvedValue := getKey(time), getValue(time);
      ghost var before := sortedValues[..n];
      assert sortedValues[..n + 1] == before + [value];
      KeysOfOneMore(before, key, value);
      GroupIsEmptyWithoutKey(before, key, k);
      ghost var previous := grouped;
      if k !in grouped {
        keys := keys + [k];
        grouped := grouped[k := (resolvedValue, [])];
      }
      grouped := grouped[k := (grouped[k].0, grouped[k].1 + [value])];
      forall other | other in keys
        ensures IsSlot(grouped[other], Group(before + [value], key, other), getTime, getValue)
      {
        GroupsOfOneMore(before, key, value, other);
        if other in previous {
          assert IsSlot(previous[other], Group(before, key, other), getTime, getValue);
        }
      }
    }
    assert sortedValues[..|sortedValues|] == sortedValues;
    result := seq(|keys|, i requires 0 <= i < |keys| && keys[i] in grouped => grouped[keys[i]]);
  }

  function KeyOf<T, K>(getTime: T -> int, getKey: int -> K): T -> K {
    x => getKey(getTime(x))
  }

  // ---- What the groups are ----

  ghost function Groups<T, K>(s: seq<T>, key: T -> K): seq<seq<T>> {
    seq(|Keys(s, key)|, i requires 0 <= i < |Keys(s, key)| => Group(s, key, Keys(s, key)[i]))
  }

  /** A value added at the end starts a group of its own or joins the one of its key. */
  lemma GroupsGrow<T, K>(s: seq<T>, key: T -> K, x: T) returns (i: nat)
    ensures key(x) !in Keys(s, key) ==> Groups(s + [x], key) == Groups(s, key) + [[x]]
    ensures key(x) in Keys(s, key) ==>
      && i < |Keys(s, key)| == |Groups(s, key)| && Keys(s, key)[i] == key(x)
      && Groups(s + [x], key) == Groups(s, key)[i := Groups(s, key)[i] + [x]]
  {
    var keys := Keys(s, key);
    KeysOfOneMore(s, key, x);
    KeysAreDistinct(s, key);
    GroupIsEmptyWithoutKey(s, key, key(x));
    var groups := Groups(s, key);
    i := 0;
    if key(x) in keys {
      i :| 0 <= i < |keys| && keys[i] == key(x);
      forall j | 0 <= j < |keys|
        ensures Group(s + [x], key, keys[j]) == groups[i := groups[i] + [x]][j]
      {
        GroupsOfOneMore(s, key, x, keys[j]);
      }
      assert Groups(s + [x], key) == groups[i := groups[i] + [x]];
    } else {
      forall j | 0 <= j < |keys| + 1
        ensures Group(s + [x], key, (keys + [key(x)])[j]) == (groups + [[x]])[j]
      {
        GroupsOfOneMore(s, key, x, (keys + [key(x)])[j]);
      }
      assert Groups(s + [x], key) == groups + [[x]];
    }
  }

  lemma MovedBehind<T>(more: seq<T>, front: seq<T>, rest: seq<T>, x: T)
    requires multiset(more) == multiset(front + [x])
    ensures multiset(more + rest) == multiset(front + rest + [x])
  {
  }

  lemma LastGrows<T>(groups: seq<seq<T>>, x: T)
    requires groups != []
    ensures Flatten(groups[|groups| - 1 := groups[|groups| - 1] + [x]]) == Flatten(groups) + [x]
  {
    var last := |groups| - 1;
    var grown := groups[last := groups[last] + [x]];
    assert grown[..last] == groups[..last];
    assert Flatten(grown) == Flatten(groups[..last]) + (groups[last] + [x]);
  }

  lemma UpdatedInFront<T>(s: seq<T>, i: nat, x: T)
    requires i < |s| - 1
    ensures s[i := x][..|s| - 1] == s[..|s| - 1][i := x]
  {
  }

  lemma {:induction false} FlattenGrows<T>(groups: seq<seq<T>>, i: nat, x: T)
    requires i < |groups|
    ensures multiset(Flatten(groups[i := groups[i] + [x]])) == multiset(Flatten(groups) + [x])
    ensures i == |groups| - 1 ==> Flatten(groups[i := groups[i] + [x]]) == Flatten(groups) + [x]
  {
    var last := |groups| - 1;
    var grown := groups[i := groups[i] + [x]];
    if i < last {
      var front := groups[..last];
      FlattenGrows(front, i, x);
      UpdatedInFront(groups, i, front[i] + [x]);
      MovedBehind(Flatten(grown[..last]), Flatten(groups[..last]), groups[last], x);
    } else {
      LastGrows(groups, x);
    }
  }

  /** No value is lost or repeated. */
  lemma {:induction false} GroupsConserveValues<T, K>(s: seq<T>, key: T -> K)
    ensures multiset(Flatten(Groups(s, key))) == multiset(s)
  {
    if s == [] {
    } else {
      var front, x := s[..|s| - 1], s[|s| - 1];
      assert s == front + [x];
      GroupsConserveValues(front, key);
      var i := GroupsGrow(front, key, x);
      if key(x) in Keys(front, key) {
        FlattenGrows(Groups(front, key), i, x);
      } else {
        var groups := Groups(front, key);
        assert (groups + [[x]])[..|groups|] == groups;
      }
    }
  }

  lemma {:induction false} FilterKeepsOrder<T>(s: seq<T>, p: T -> bool, r: (T, T) -> bool)
    requires Pairwise(s, r)
    ensures Pairwise(Filter(s, p), r)
  {
    if s == [] {
    } else {
      forall i, j | 0 <= i < j < |s[1..]|
        ensures r(s[1..][i], s[1..][j])
      {
        assert r(s[i + 1], s[j + 1]);
      }
      FilterKeepsOrder(s[1..], p, r);
      forall y | y in Filter(s[1..], p)
        ensures r(s[0], y)
      {
        FilterIn(s[1..], p, y);
        var i :| 0 <= i < |s[1..]| && s[1..][i] == y;
        assert r(s[0], s[i + 1]);
      }
    }
  }

  ghost predicate Heads<T>(groups: seq<seq<T>>, r: (T, T) -> bool) {
    && (forall i | 0 <= i < |groups| :: groups[i] != [])
    && (forall i, j | 0 <= i < j < |groups| :: r(groups[i][0], groups[j][0]))
  }

  /** Each group is in order, and so are the first values of the groups. */
  lemma {:induction false} GroupsAreInOrder<T, K>(s: seq<T>, key: T -> K, r: (T, T) -> bool)
    requires Pairwise(s, r)
    ensures forall g | g in Groups(s, key) :: Pairwise(g, r)
    ensures Heads(Groups(s, key), r)
  {
    forall g | g in Groups(s, key)
      ensures Pairwise(g, r)
    {
      var i :| 0 <= i < |Keys(s, key)| && g == Group(s, key, Keys(s, key)[i]);
      FilterKeepsOrder(s, KeyIs(key, Keys(s, key)[i]), r);
    }
    HeadsAreInOrder(s, key, r);
  }

  lemma {:induction false} HeadsAreInOrder<T, K>(s: seq<T>, key: T -> K, r: (T, T) -> bool)
    requires Pairwise(s, r)
    ensures Heads(Groups(s, key), r)
  {
    if s == [] {
    } else {
      var front, x := s[..|s| - 1], s[|s| - 1];
      assert s == front + [x];
      HeadsAreInOrder(front, key, r);
      var groups := Groups(front, key);
      var at := GroupsGrow(front, key, x);
      if key(x) !in Keys(front, key) {
        forall i | 0 <= i < |groups|
          ensures r(groups[i][0], x)
        {
          FilterIn(front, KeyIs(key, Keys(front, key)[i]), groups[i][0]);
          var j :| 0 <= j < |front| && front[j] == groups[i][0];
          assert r(s[j], s[|s| - 1]);
        }
        HeadsGrow(groups, x, r);
      } else {
        HeadsStay(groups, groups[at := groups[at] + [x]], r);
      }
    }
  }

  lemma HeadsGrow<T>(groups: seq<seq<T>>, x: T, r: (T, T) -> bool)
    requires Heads(groups, r) && forall i | 0 <= i < |groups| :: r(groups[i][0], x)
    ensures Heads(groups + [[x]], r)
  {
  }

  lemma HeadsStay<T>(groups: seq<seq<T>>, grown: seq<seq<T>>, r: (T, T) -> bool)
    requires Heads(groups, r) && |grown| == |groups|
    requires forall i | 0 <= i < |groups| :: grown[i] != [] && grown[i][0] == groups[i][0]
    ensures Heads(grown, r)
  {
  }

  /** Values of one key come without others between them. */
  ghost predicate Contiguous<T, K>(s: seq<T>, key: T -> K) {
    forall i, j, k | 0 <= i < j < k < |s| :: NotInterrupted(s, key, i, j, k)
  }

  ghost predicate NotInterrupted<T, K>(s: seq<T>, key: T -> K, i: nat, j: nat, k: nat)
    requires i < j < k < |s|
  {
    key(s[i]) == key(s[k]) ==> key(s[j]) == key(s[i])
  }

  lemma ContiguousGrows<T, K>(s: seq<T>, key: T -> K, x: T)
    ensures Contiguous(s + [x], key) <==>
            Contiguous(s, key) && (key(x) in Keys(s, key) ==> s != [] && key(s[|s| - 1]) == key(x))
  {
    KeysAreThoseOfValues(s, key, key(x));
    if Contiguous(s + [x], key) {
      ContiguousPrefix(s, key, x);
    }
    if Contiguous(s, key) && (key(x) in Keys(s, key) ==> s != [] && key(s[|s| - 1]) == key(x)) {
      ContiguousExtends(s, key, x);
    }
  }

  lemma ContiguousExtends<T, K>(s: seq<T>, key: T -> K, x: T)
    requires Contiguous(s, key)
    requires forall i | 0 <= i < |s| && key(s[i]) == key(x) :: key(s[|s| - 1]) == key(x)
    ensures Contiguous(s + [x], key)
  {
    forall i, j, k | 0 <= i < j < k < |s + [x]|
      ensures NotInterrupted(s + [x], key, i, j, k)
    {
      if k < |s| {
        assert NotInterrupted(s, key, i, j, k);
      } else if key(s[i]) == key(x) && j < |s| - 1 {
        assert NotInterrupted(s, key, i, j, |s| - 1);
      }
    }
  }

  lemma ContiguousPrefix<T, K>(s: seq<T>, key: T -> K, x: T)
    requires Contiguous(s + [x], key)
    ensures Contiguous(s, key)
    ensures forall i | 0 <= i < |s| && key(s[i]) == key(x) :: key(s[|s| - 1]) == key(x)
  {
    forall i, j, k | 0 <= i < j < k < |s|
      ensures NotInterrupted(s, key, i, j, k)
    {
      assert NotInterrupted(s + [x], key, i, j, k);
    }
    forall i | 0 <= i < |s| && key(s[i]) == key(x)
      ensures key(s[|s| - 1]) == key(x)
    {
      if i < |s| - 1 {
        assert NotInterrupted(s + [x], key, i, |s| - 1, |s|);
      }
    }
  }

  lemma {:induction false} LastKeyWhenContiguous<T, K>(s: seq<T>, key: T -> K)
    requires Contiguous(s, key) && s != []
    ensures Keys(s, key) != [] && Keys(s, key)[|Keys(s, key)| - 1] == key(s[|s| - 1])
  {
    var front, x := s[..|s| - 1], s[|s| - 1];
    assert s == front + [x];
    ContiguousGrows(front, key, x);
    if front == [] {
    } else {
      LastKeyWhenContiguous(front, key);
    }
  }

  /** One after the other, the groups give back the values in order exactly when equal keys are contiguous. */
  lemma {:induction false} FlatteningRestoresIffContiguous<T, K>(s: seq<T>, key: T -> K)
    ensures Flatten(Groups(s, key)) == s <==> Contiguous(s, key)
  {
    if s == [] {
    } else {
      var front, x := s[..|s| - 1], s[|s| - 1];
      assert s == front + [x];
      FlatteningRestoresIffContiguous(front, key);
      if key(x) !in Keys(front, key) {
        ContiguousGrows(front, key, x);
        NewKeyAppends(front, key, x);
      } else {
        var i :| 0 <= i < |Keys(front, key)| && Keys(front, key)[i] == key(x);
        KnownKeyKeepsContiguousIfLast(front, key, x, i);
        KnownKeyAppendsIfLast(front, key, x, i);
      }
    }
  }

  lemma KnownKeyKeepsContiguousIfLast<T, K>(s: seq<T>, key: T -> K, x: T, i: nat)
    requires i < |Keys(s, key)| && Keys(s, key)[i] == key(x)
    ensures Contiguous(s + [x], key) <==> Contiguous(s, key) && i == |Keys(s, key)| - 1
  {
    ContiguousGrows(s, key, x);
    if Contiguous(s, key) {
      LastKeyWhenContiguous(s, key);
      KeysAreDistinct(s, key);
    }
  }

  lemma NewKeyAppends<T, K>(s: seq<T>, key: T -> K, x: T)
    requires key(x) !in Keys(s, key)
    ensures Flatten(Groups(s + [x], key)) == s + [x] <==> Flatten(Groups(s, key)) == s
  {
    var groups := Groups(s, key);
    var i := GroupsGrow(s, key, x);
    assert (groups + [[x]])[..|groups|] == groups;
    assert Flatten(groups + [[x]]) == Flatten(groups) + [x];
    SameFront(Flatten(groups), s, x);
  }

  lemma KnownKeyAppendsIfLast<T, K>(s: seq<T>, key: T -> K, x: T, i: nat)
    requires i < |Keys(s, key)| && Keys(s, key)[i] == key(x)
    ensures Flatten(Groups(s + [x], key)) == s + [x] <==> Flatten(Groups(s, key)) == s && i == |Keys(s, key)| - 1
  {
    var groups := Groups(s, key);
    var j := GroupsGrow(s, key, x);
    KeysAreDistinct(s, key);
    assert i == j;
    if i == |groups| - 1 {
      FlattenGrows(groups, i, x);
      SameFront(Flatten(groups), s, x);
    } else {
      KeysOfOneMore(s, key, x);
      OtherGroupIsLast(s + [x], key, x, i);
    }
  }

  lemma SameFront<T>(a: seq<T>, b: seq<T>, x: T)
    ensures a + [x] == b + [x] <==> a == b
  {
    if a + [x] == b + [x] {
      assert a == (a + [x])[..|a|] && b == (b + [x])[..|b|];
    }
  }

  lemma OtherGroupIsLast<T, K>(s: seq<T>, key: T -> K, x: T, i: nat)
    requires s != [] && x == s[|s| - 1] && i < |Keys(s, key)| - 1 && Keys(s, key)[i] == key(x)
    ensures Flatten(Groups(s, key)) != s
  {
    var groups, last := Groups(s, key), |Keys(s, key)| - 1;
    var k := Keys(s, key)[last];
    KeysAreDistinct(s, key);
    GroupIsEmptyWithoutKey(s, key, k);
    var y := groups[last][|groups[last]| - 1];
    FilterIn(s, KeyIs(key, k), y);
    assert Flatten(groups)[|Flatten(groups)| - 1] == y;
  }

  /** The groups made of a list hold its values, each as often as the list, every group and the groups'
      beginnings in order of time, and follow one another in that order exactly when times of one key are
      never interrupted by others. */
  lemma GroupByTimeConserves<T(!new), K>(values: seq<T>, time: T -> int, key: T -> K)
    ensures var sorted := Sort(values, ByTime(time));
            var groups := Groups(sorted, key);
            && multiset(Flatten(groups)) == multiset(values)
            && (forall g | g in groups :: Pairwise(g, ByTime(time)))
            && Heads(groups, ByTime(time))
            && (Flatten(groups) == sorted <==> Contiguous(sorted, key))
  {
    var sorted := Sort(values, ByTime(time));
    SortPermutes(values, ByTime(time));
    SortSorts(values, ByTime(time));
    GroupsConserveValues(sorted, key);
    GroupsAreInOrder(sorted, key, ByTime(time));
    FlatteningRestoresIffContiguous(sorted, key);
  }
}

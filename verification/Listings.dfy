/** Listing the keys with a prefix page by page and reading their values, while others delete, add and change keys. */
module Listings {
  import opened KV = KeyValue
  import Keys
  import L = Links
  import opened Remote
  import opened StableSort
  import opened TextOrder
  import opened Wrappers

  const LIMIT: nat := 1000

  /** Where a listing goes on, and how many pages the service needs at most from there. Pages may be short or
      empty, and no more than that is known of when a listing ends. */
  datatype Cursor = Cursor(after: Option<string>, left: nat)

  datatype Page = Page(keys: seq<string>, cursor: Option<Cursor>, listComplete: bool)

  datatype Alias = Alias(alias: string, target: string)

  function AliasKey(alias: string): string {
    Keys.Key(Keys.AliasId(alias))
  }

  // ---- The order of keys ----

  type Order = (string, string) -> bool

  ghost predicate IsOrder(before: Order) {
    && (forall a :: !before(a, a))
    && (forall a, b :: a != b ==> before(a, b) || before(b, a))
    && (forall a, b, c :: before(a, b) && before(b, c) ==> before(a, c))
  }

  function KeyOrder(): Order {
    (a, b) => a != b && TextLeq(a, b)
  }

  lemma KeyOrderIsOrder()
    ensures IsOrder(KeyOrder())
  {
    forall a: string, b: string, c: string
      ensures a != b ==> KeyOrder()(a, b) || KeyOrder()(b, a)
      ensures KeyOrder()(a, b) && KeyOrder()(b, c) ==> KeyOrder()(a, c)
    {
      TextIsTotal(a, b, c);
    }
  }

  /** A key that comes after a position; `None` is the beginning. */
  predicate Beyond(before: Order, at: Option<string>, key: string) {
    at.None? || before(at.value, key)
  }

  function Position(cursor: Option<Cursor>): Option<string> {
    if cursor.Some? then cursor.value.after else None
  }

  /** The keys with a prefix beyond a position. */
  function Within(before: Order, keys: set<string>, prefix: string, at: Option<string>): set<string> {
    set k | k in keys && prefix <= k && Beyond(before, at, k)
  }

  function Remaining(before: Order, store: Store, prefix: string, at: Option<string>): set<string> {
    Within(before, store.Keys, prefix, at)
  }

  /** A page is the first of the keys beyond a position, any number of them. Its cursor, if it is not the last one,
      is at or after that position and stands between the keys of the page and those to come. */
  ghost predicate IsPage(before: Order, remaining: set<string>, at: Option<string>, page: Page) {
    && Pairwise(page.keys, before)
    && (forall k | k in page.keys :: k in remaining)
    && |page.keys| <= LIMIT
    && (page.listComplete <==> page.cursor.None?)
    && (page.cursor.None? ==> forall k | k in remaining :: k in page.keys)
    && (page.cursor.Some? ==>
          && (forall k | k in remaining :: Beyond(before, page.cursor.value.after, k) <==> k !in page.keys)
          && (forall k | Beyond(before, page.cursor.value.after, k) :: Beyond(before, at, k)))
  }

  /** The service can do with as many pages as the cursor says, whichever of the keys `all` others use. */
  ghost predicate IsCursor(before: Order, all: set<string>, prefix: string, cursor: Cursor) {
    |Within(before, all, prefix, cursor.after)| < cursor.left
  }

  // ---- What the store went through ----

  /** The keys that were there in every store from index `since` on. */
  ghost function Throughout(history: seq<Store>, since: nat): set<string>
    requires since < |history|
  {
    set k | k in history[since] && forall j | since <= j < |history| :: k in history[j]
  }

  /** The key had the value in one of those stores. */
  ghost predicate WasHeld(history: seq<Store>, since: nat, key: string, value: string) {
    exists j | since <= j < |history| :: key in history[j] && history[j][key] == value
  }

  ghost predicate Held(history: seq<Store>, since: nat, keys: seq<string>, values: seq<string>) {
    |values| == |keys| && forall i | 0 <= i < |keys| :: WasHeld(history, since, keys[i], values[i])
  }

  lemma HeldStays(was: seq<Store>, history: seq<Store>, since: nat, keys: seq<string>, values: seq<string>)
    requires Held(was, since, keys, values) && was <= history
    ensures Held(history, since, keys, values)
  {
    forall i | 0 <= i < |keys|
      ensures WasHeld(history, since, keys[i], values[i])
    {
      var j :| since <= j < |was| && keys[i] in was[j] && was[j][keys[i]] == values[i];
      assert history[j] == was[j];
    }
  }

  lemma ThroughoutShrinks(was: seq<Store>, history: seq<Store>, since: nat)
    requires since < |was| && was <= history
    ensures Throughout(history, since) <= Throughout(was, since)
    ensures Throughout(history, since) <= history[|history| - 1].Keys
  {
  }

  // ---- Pages ----

  lemma InOrderTogether(a: seq<string>, b: seq<string>, before: Order)
    requires Pairwise(a, before) && Pairwise(b, before)
    requires forall x, y | x in a && y in b :: before(x, y)
    ensures Pairwise(a + b, before)
  {
  }

  /** The keys found so far are up to a position, and among them are those of the keys `steady`. */
  ghost predicate FoundUpTo(
      before: Order, steady: set<string>, prefix: string, at: Option<string>, found: seq<string>) {
    && Pairwise(found, before)
    && (forall k | k in found :: prefix <= k && !Beyond(before, at, k))
    && (forall k | k in steady && prefix <= k && !Beyond(before, at, k) :: k in found)
  }

  /** `newly` are keys of a page, among them those of the keys `steady`. */
  ghost predicate FoundOf(page: Page, steady: set<string>, newly: seq<string>) {
    (forall k | k in newly :: k in page.keys) && forall k | k in page.keys && k in steady :: k in newly
  }

  lemma PageIsBehindFound(
      before: Order, listed: Store, earlier: set<string>, prefix: string, at: Option<string>, found: seq<string>,
      page: Page, newly: seq<string>)
    requires IsOrder(before) && FoundUpTo(before, earlier, prefix, at, found)
    requires IsPage(before, Remaining(before, listed, prefix, at), at, page)
    requires Pairwise(newly, before) && forall k | k in newly :: k in page.keys
    ensures Pairwise(found + newly, before)
    ensures forall k | k in found + newly :: prefix <= k
  {
    forall x, y | x in found && y in newly
      ensures before(x, y)
    {
      assert y in Remaining(before, listed, prefix, at);
    }
    InOrderTogether(found, newly, before);
  }

  /** After a page that is not the last, the keys found are up to its cursor, and among them are those that were
      there throughout: `earlier` up to the listing of the page, `now` up to the reading of its values. */
  lemma PageAdvances(
      before: Order, listed: Store, earlier: set<string>, now: set<string>, prefix: string, at: Option<string>,
      found: seq<string>, page: Page, newly: seq<string>)
    requires IsOrder(before) && FoundUpTo(before, earlier, prefix, at, found) && now <= earlier <= listed.Keys
    requires IsPage(before, Remaining(before, listed, prefix, at), at, page)
    requires Pairwise(newly, before) && FoundOf(page, now, newly) && page.cursor.Some?
    ensures FoundUpTo(before, now, prefix, page.cursor.value.after, found + newly)
  {
    var remaining, next := Remaining(before, listed, prefix, at), page.cursor.value.after;
    PageIsBehindFound(before, listed, earlier, prefix, at, found, page, newly);
    forall k | k in found + newly
      ensures !Beyond(before, next, k)
    {
      assert k in newly ==> k in remaining;
    }
    forall k | k in now && prefix <= k && !Beyond(before, next, k)
      ensures k in found + newly
    {
      assert Beyond(before, at, k) ==> k in remaining;
    }
  }

  lemma LastPageFindsTheRest(
      before: Order, listed: Store, earlier: set<string>, now: set<string>, prefix: string, at: Option<string>,
      found: seq<string>, page: Page, newly: seq<string>)
    requires IsOrder(before) && FoundUpTo(before, earlier, prefix, at, found) && now <= earlier <= listed.Keys
    requires IsPage(before, Remaining(before, listed, prefix, at), at, page)
    requires FoundOf(page, now, newly) && page.cursor.None?
    ensures forall k | k in now && prefix <= k :: k in found + newly
  {
    forall k | k in now && prefix <= k
      ensures k in found + newly
    {
      assert Beyond(before, at, k) ==> k in Remaining(before, listed, prefix, at);
    }
  }

  lemma PositionAdvances(before: Order, all: set<string>, prefix: string, at: Option<string>, key: string)
    requires IsOrder(before) && key in Within(before, all, prefix, at)
    ensures |Within(before, all, prefix, Some(key))| < |Within(before, all, prefix, at)|
  {
    var now, later := Within(before, all, prefix, at), Within(before, all, prefix, Some(key));
    SubsetSize(later, now - {key});
  }

  /** What stripping the prefix and then the suffix leaves of a key, if it has both. */
  function AliasOf(key: string): Option<string> {
    if Keys.ALIAS_KEY_PREFIX <= key then
      var rest := key[|Keys.ALIAS_KEY_PREFIX|..];
      if |rest| >= 3 && rest[|rest| - 3..] == Keys.ALIAS_ID_KEY_SUFFIX then Some(rest[..|rest| - 3]) else None
    else None
  }

  lemma AliasOfKey(key: string, alias: string)
    ensures AliasOf(key) == Some(alias) <==> key == AliasKey(alias)
  {
    var rest := alias + Keys.ALIAS_ID_KEY_SUFFIX;
    Keys.AliasScan(Keys.AliasId(alias));
    if key == AliasKey(alias) {
      assert key[|Keys.ALIAS_KEY_PREFIX|..] == rest;
    }
    if AliasOf(key) == Some(alias) {
      assert key == Keys.ALIAS_KEY_PREFIX + key[|Keys.ALIAS_KEY_PREFIX|..];
      assert key[|Keys.ALIAS_KEY_PREFIX|..] == rest;
    }
  }

  function AliasesOf(keys: seq<string>): seq<string> {
    if keys == [] then []
    else (match AliasOf(keys[0]) case Some(alias) => [alias] case None => []) + AliasesOf(keys[1..])
  }

  lemma {:induction false} AliasesOfKeys(keys: seq<string>, alias: string)
    ensures alias in AliasesOf(keys) <==> AliasKey(alias) in keys
    ensures |AliasesOf(keys)| <= |keys|
  {
    if keys == [] {
    } else {
      AliasesOfKeys(keys[1..], alias);
      AliasOfKey(keys[0], alias);
      assert keys == [keys[0]] + keys[1..];
    }
  }

  /** What is found of the first `n` keys of a page. */
  ghost predicate FoundOfFirst(
      before: Order, history: seq<Store>, since: nat, keys: seq<string>, n: nat, found: seq<string>,
      values: seq<string>)
    requires since < |history| && n <= |keys|
  {
    && Held(history, since, found, values)
    && Pairwise(found, before)
    && (forall k | k in found :: k in keys && forall j | n <= j < |keys| :: before(k, keys[j]))
    && (forall j | 0 <= j < n && keys[j] in Throughout(history, since) :: keys[j] in found)
  }

  lemma FoundOneMore(
      before: Order, was: seq<Store>, history: seq<Store>, since: nat, keys: seq<string>, n: nat, found: seq<string>,
      values: seq<string>, value: Option<string>)
    requires since < |was| && was <= history && n < |keys| && Pairwise(keys, before)
    requires FoundOfFirst(before, was, since, keys, n, found, values)
    requires value == L.Lookup(history[|history| - 1], keys[n])
    ensures value.Some? ==>
              FoundOfFirst(before, history, since, keys, n + 1, found + [keys[n]], values + [value.value])
    ensures value.None? ==> FoundOfFirst(before, history, since, keys, n + 1, found, values)
  {
    HeldStays(was, history, since, found, values);
    ThroughoutShrinks(was, history, since);
    InOrderTogether(found, [keys[n]], before);
    assert Throughout(history, since) <= history[|history| - 1].Keys;
  }

  /** What is found after a page, whether or not it is the last: `was` is what the store went through up to its listing,
      `history` up to the reading of its values. */
  lemma AfterPage(
      before: Order, was: seq<Store>, history: seq<Store>, since: nat, prefix: string, at: Option<string>,
      found: seq<string>, values: seq<string>, page: Page, newly: seq<string>, more: seq<string>)
    requires IsOrder(before) && since < |was| && was <= history
    requires FoundUpTo(before, Throughout(was, since), prefix, at, found) && Held(was, since, found, values)
    requires IsPage(before, Remaining(before, was[|was| - 1], prefix, at), at, page)
    requires FoundOfFirst(before, history, since, page.keys, |page.keys|, newly, more)
    ensures Held(history, since, found + newly, values + more)
    ensures Pairwise(found + newly, before) && forall k | k in found + newly :: prefix <= k
    ensures page.cursor.Some? ==>
              FoundUpTo(before, Throughout(history, since), prefix, page.cursor.value.after, found + newly)
    ensures page.cursor.None? ==> forall k | k in Throughout(history, since) && prefix <= k :: k in found + newly
  {
    var listed, earlier, now := was[|was| - 1], Throughout(was, since), Throughout(history, since);
    HeldStays(was, history, since, found, values);
    ThroughoutShrinks(was, was, since);
    ThroughoutShrinks(was, history, since);
    assert FoundOf(page, now, newly);
    PageIsBehindFound(before, listed, earlier, prefix, at, found, page, newly);
    if page.cursor.Some? {
      PageAdvances(before, listed, earlier, now, prefix, at, found, page, newly);
    } else {
      LastPageFindsTheRest(before, listed, earlier, now, prefix, at, found, page, newly);
    }
  }

  ghost predicate IsTaken(before: Order, all: set<string>, keys: seq<string>, rest: set<string>) {
    && Pairwise(keys, before)
    && (forall k | k in keys :: k in all && k !in rest)
    && (forall k | k in all && k !in keys :: k in rest)
    && (forall k | k in rest :: k in all && forall l | l in keys :: before(l, k))
  }

  lemma CursorAfter(
      before: Order, store: Store, prefix: string, at: Option<string>, keys: seq<string>, rest: set<string>,
      after: Option<string>)
    requires IsOrder(before) && IsTaken(before, Remaining(before, store, prefix, at), keys, rest)
    requires after == if keys == [] then at else Some(keys[|keys| - 1])
    ensures forall k | k in Remaining(before, store, prefix, at) :: Beyond(before, after, k) <==> k !in keys
    ensures forall k | Beyond(before, after, k) :: Beyond(before, at, k)
  {
    if keys != [] {
      var last := keys[|keys| - 1];
      assert last in keys;
      forall k | k in keys
        ensures !before(last, k)
      {
        var i :| 0 <= i < |keys| && keys[i] == k;
        assert i < |keys| - 1 ==> before(keys[i], keys[|keys| - 1]);
      }
    }
  }

  class Namespace {
    const wire: Wire
    const before: Order
    const fillsPages: bool          // whether the service only ends a page where it is full or nothing is left
    const names: set<string>        // the keys that may ever be used
    var store: Store
    ghost var history: seq<Store>   // the stores so far

    ghost predicate Valid()
      reads this
    {
      history != [] && history[|history| - 1] == store && store.Keys <= names
    }

    constructor (wire: Wire, store: Store, names: set<string>, fillsPages: bool)
      requires store.Keys <= names
      ensures Valid() && IsOrder(before) && history == [store] && this.names == names
      ensures this.wire == wire && this.store == store && this.fillsPages == fillsPages
    {
      KeyOrderIsOrder();
      this.wire, this.store, this.names, this.fillsPages := wire, store, names, fillsPages;
      before, history := KeyOrder(), [store];
    }

    /** What became of the store since is on record. */
    twostate predicate Recorded()
      reads this
    {
      Valid() && old(history) <= history
    }

    /** Others delete, add and change any entries between one's own calls. */
    method Interfere()
      requires Valid()
      modifies this`store, this`history
      ensures Recorded()
    {
      var next: Store := *;
      store := map k | k in next && k in names :: next[k];
      history := history + [store];
    }

    method First(keys: set<string>) returns (first: string)
      requires keys != {} && IsOrder(before)
      ensures first in keys && forall k | k in keys && k != first :: before(first, k)
    {
      first :| first in keys;
      var rest := keys - {first};
      while rest != {}
        invariant first in keys && rest <= keys && first !in rest
        invariant forall k | k in keys && k !in rest && k != first :: before(first, k)
        decreases rest
      {
        var k :| k in rest;
        rest := rest - {k};
        if before(k, first) {
          first := k;
        }
      }
    }

    method List(prefix: string, cursor: Option<Cursor>) returns (page: Option<Page>)
      requires IsOrder(before) && store.Keys <= names
      requires cursor.Some? ==> IsCursor(before, names, prefix, cursor.value)
      modifies wire
      ensures wire.faults == old(wire.faults) + if page.Some? then 0 else 1
      ensures page.Some? ==>
                IsPage(before, Remaining(before, store, prefix, Position(cursor)), Position(cursor), page.value)
      ensures page.Some? && page.value.cursor.Some? ==>
                && IsCursor(before, names, prefix, page.value.cursor.value)
                && (cursor.Some? ==> page.value.cursor.value.left < cursor.value.left)
      ensures page.Some? && fillsPages && |Remaining(before, store, prefix, Position(cursor))| <= LIMIT ==>
                page.value.cursor.None?
    {
      var reply := wire.Call();
      if !reply.Succeeded? {
        return None;
      }
      var all := Remaining(before, store, prefix, Position(cursor));
      var possible := |Within(before, names, prefix, Position(cursor))|;
      var spare: int := *;
      var left := if cursor.Some? then cursor.value.left else possible + 1 + if spare > 0 then spare else 0;
      var keys, rest := Take(all);
      var isLast: bool := left == possible + 1;  // the last page that can be empty
      var ends: bool := *;
      if rest == {} && (fillsPages || isLast || ends) {
        return Some(Page(keys, None, true));
      }
      if keys == [] && isLast {
        var k := First(rest);
        keys, rest := [k], rest - {k};
      }
      var after := if keys == [] then Position(cursor) else Some(keys[|keys| - 1]);
      CursorAfter(before, store, prefix, Position(cursor), keys, rest, after);
      if keys != [] {
        assert keys[|keys| - 1] in keys;
        PositionAdvances(before, names, prefix, Position(cursor), keys[|keys| - 1]);
      }
      page := Some(Page(keys, Some(Cursor(after, left - 1)), false));
    }

    /** Takes any number of first keys. */
    method Take(all: set<string>) returns (keys: seq<string>, rest: set<string>)
      requires IsOrder(before)
      ensures IsTaken(before, all, keys, rest) && |keys| <= LIMIT && |keys| + |rest| == |all|
      ensures fillsPages && |all| <= LIMIT ==> rest == {}
    {
      rest, keys := all, [];
      var more: bool := *;
      while rest != {} && |keys| < LIMIT && (fillsPages || more)
        invariant IsTaken(before, all, keys, rest) && |keys| <= LIMIT && |keys| + |rest| == |all|
        decreases rest
      {
        var k := First(rest);
        rest := rest - {k};
        keys := keys + [k];
        more := *;
      }
    }

    /** Reads one key, after whatever others did meanwhile. */
    method GetKey(key: string) returns (ok: bool, value: Option<string>)
      requires Valid()
      modifies this`store, this`history, wire
      ensures Recorded()
      ensures ok ==> value == L.Lookup(store, key)
      ensures wire.faults >= old(wire.faults)
      ensures ok <==> wire.faults == old(wire.faults)
    {
      Interfere();
      var reply := wire.Call();
      ok, value := reply.Succeeded?, L.Lookup(store, key);
    }

    /** Gets the values of keys one by one; keys that are gone by then are skipped. */
    method GetValues(keys: seq<string>, ghost since: nat)
      returns (values: Option<seq<string>>, ghost found: seq<string>)
      requires Valid() && Pairwise(keys, before) && since < |history|
      modifies this`store, this`history, wire
      ensures Recorded()
      ensures values.Some? ==> FoundOfFirst(before, history, since, keys, |keys|, found, values.value)
      ensures wire.faults >= old(wire.faults)
      ensures values.Some? <==> wire.faults == old(wire.faults)
    {
      var out: seq<string> := [];
      found := [];
      for i := 0 to |keys|
        invariant Recorded()
        invariant FoundOfFirst(before, history, since, keys, i, found, out)
        invariant wire.faults == old(wire.faults)
      {
        ghost var was := history;
        var ok, value := GetKey(keys[i]);
        if !ok {
          return None, found;
        }
        FoundOneMore(before, was, history, since, keys, i, found, out, value);
        if value.Some? {
          out := out + [value.value];
          found := found + [keys[i]];
        }
      }
      values := Some(out);
    }

    /** The values of all keys with a prefix, page after page. */
    method ListAll(prefix: string) returns (out: Option<seq<string>>, ghost found: seq<string>)
      requires Valid() && IsOrder(before)
      modifies this`store, this`history, wire
      ensures Recorded()
      ensures out.Some? ==> Held(history, |old(history)| - 1, found, out.value)
      ensures out.Some? ==> Pairwise(found, before) && forall k | k in found :: prefix <= k
      ensures out.Some? ==> forall k | k in Throughout(history, |old(history)| - 1) && prefix <= k :: k in found
      ensures wire.faults >= old(wire.faults)
      ensures out.Some? <==> wire.faults == old(wire.faults)
    {
      ghost var since := |history| - 1;
      var cursor: Option<Cursor> := None;
      var values: seq<string> := [];
      found := [];
      while true
        invariant Recorded()
        invariant Held(history, since, found, values)
        invariant FoundUpTo(before, Throughout(history, since), prefix, Position(cursor), found)
        invariant cursor.Some? ==> IsCursor(before, names, prefix, cursor.value)
        invariant wire.faults == old(wire.faults)
        decreases cursor.None?, if cursor.Some? then cursor.value.left else 0
      {
        var page := List(prefix, cursor);
        if page.None? {
          return None, found;
        }
        ghost var was := history;
        var more: Option<seq<string>>;
        ghost var newly: seq<string>;
        more, newly := GetValues(page.value.keys, since);
        if more.None? {
          return None, found;
        }
        AfterPage(before, was, history, since, prefix, Position(cursor), found, values, page.value, newly, more.value);
        found := found + newly;
        values := values + more.value;
        if page.value.cursor.Some? && !page.value.listComplete {
          cursor := page.value.cursor;
        } else {
          break;
        }
      }
      out := Some(values);
    }

    /** All subscriptions of an environment, page after page. While the store holds typed entries, and names have no
        colons: each subscription of that environment that is there throughout, none twice, and no other. */
    method ListSubscriptions(env: string) returns (out: Option<seq<string>>, ghost entries: seq<Keys.Entry>)
      requires Valid() && IsOrder(before)
      modifies this`store, this`history, wire
      ensures Recorded()
      ensures out.Some? && AllTyped(history, |old(history)| - 1) && Keys.ColonFree(env) ==>
                && AreSubscriptions(history, |old(history)| - 1, env, entries, out.value)
                && forall e | IsSubscription(env, e) && Keys.Key(e) in Throughout(history, |old(history)| - 1) ::
                     e in entries
      ensures wire.faults >= old(wire.faults)
      ensures out.Some? <==> wire.faults == old(wire.faults)
    {
      ghost var since := |history| - 1;
      ghost var found: seq<string>;
      out, found := ListAll(Keys.SubscriptionKeyPrefix(env));
      entries := [];
      if out.Some? && AllTyped(history, since) && Keys.ColonFree(env) {
        entries := SubscriptionsFound(before, history, since, env, found, out.value);
      }
    }

    /** The targets of aliases, one by one; aliases that are gone by then are skipped. */
    method GetTargets(names: seq<string>) returns (aliases: Option<seq<Alias>>)
      requires Valid()
      modifies this`store, this`history, wire
      ensures Recorded()
      ensures aliases.Some? ==> TargetsOfFirst(history, |old(history)| - 1, names, |names|, aliases.value)
      ensures wire.faults >= old(wire.faults)
      ensures aliases.Some? <==> wire.faults == old(wire.faults)
    {
      ghost var since := |history| - 1;
      var pairs: seq<Alias> := [];
      for i := 0 to |names|
        invariant Recorded()
        invariant TargetsOfFirst(history, since, names, i, pairs)
        invariant wire.faults == old(wire.faults)
      {
        ghost var was := history;
        var ok, target := GetKey(AliasKey(names[i]));
        if !ok {
          return None;
        }
        TargetsOneMore(was, history, since, names, i, pairs, target);
        if target.Some? {
          pairs := pairs + [Alias(names[i], target.value)];
        }
      }
      aliases := Some(pairs);
    }

    /** The aliases with their targets, of one page only. That is every alias that is there throughout if the page is
        complete, which it is if the service fills pages and there are no more aliases than fit one. */
    method ListAliases() returns (aliases: Option<seq<Alias>>, ghost complete: bool)
      requires Valid() && IsOrder(before)
      modifies this`store, this`history, wire
      ensures Recorded()
      ensures aliases.Some? ==> Targets(history, |old(history)| - 1, aliases.value) && |aliases.value| <= LIMIT
      ensures aliases.Some? && complete ==>
                forall a | AliasKey(a) in Throughout(history, |old(history)| - 1) :: Listed(aliases.value, a)
      ensures fillsPages && |Remaining(before, old(store), Keys.ALIAS_KEY_PREFIX, None)| <= LIMIT ==> complete
      ensures aliases.Some? && AllTyped(history, |old(history)| - 1) ==>
                AreAliases(history, |old(history)| - 1, aliases.value)
      ensures wire.faults >= old(wire.faults)
      ensures aliases.Some? <==> wire.faults == old(wire.faults)
    {
      ghost var since := |history| - 1;
      var page := List(Keys.ALIAS_KEY_PREFIX, None);
      if page.None? {
        return None, true;
      }
      complete := page.value.listComplete;
      var names := AliasesOf(page.value.keys);
      PageOfAliases(before, store, page.value);
      aliases := GetTargets(names);
      if aliases.Some? && AllTyped(history, since) {
        AliasesAreTyped(history, since, aliases.value);
      }
    }
  }

  ghost predicate ListedUpTo(steady: set<string>, names: seq<string>, n: nat, aliases: seq<Alias>)
    requires n <= |names|
  {
    forall j | 0 <= j < n && AliasKey(names[j]) in steady :: Listed(aliases, names[j])
  }

  lemma ListedMore(steady: set<string>, names: seq<string>, n: nat, aliases: seq<Alias>, target: string)
    requires n < |names| && ListedUpTo(steady, names, n, aliases)
    ensures ListedUpTo(steady, names, n + 1, aliases + [Alias(names[n], target)])
  {
    var more := aliases + [Alias(names[n], target)];
    assert more[|aliases|].alias == names[n];
    forall j | 0 <= j < n && AliasKey(names[j]) in steady
      ensures Listed(more, names[j])
    {
      var i :| 0 <= i < |aliases| && aliases[i].alias == names[j];
      assert more[i].alias == names[j];
    }
  }

  /** What is found of the first `n` aliases. */
  ghost predicate TargetsOfFirst(history: seq<Store>, since: nat, names: seq<string>, n: nat, aliases: seq<Alias>)
    requires since < |history| && n <= |names|
  {
    && Targets(history, since, aliases) && |aliases| <= n
    && ListedUpTo(Throughout(history, since), names, n, aliases)
  }

  lemma TargetsOneMore(
      was: seq<Store>, history: seq<Store>, since: nat, names: seq<string>, n: nat, aliases: seq<Alias>,
      target: Option<string>)
    requires since < |was| && was <= history && n < |names| && TargetsOfFirst(was, since, names, n, aliases)
    requires target == L.Lookup(history[|history| - 1], AliasKey(names[n]))
    ensures target.Some? ==>
              TargetsOfFirst(history, since, names, n + 1, aliases + [Alias(names[n], target.value)])
    ensures target.None? ==> TargetsOfFirst(history, since, names, n + 1, aliases)
  {
    TargetsStay(was, history, since, aliases);
    ThroughoutShrinks(was, history, since);
    assert ListedUpTo(Throughout(history, since), names, n, aliases);
    if target.Some? {
      ListedMore(Throughout(history, since), names, n, aliases, target.value);
    }
  }

  lemma PageOfAliases(before: Order, store: Store, page: Page)
    requires IsOrder(before) && IsPage(before, Remaining(before, store, Keys.ALIAS_KEY_PREFIX, None), None, page)
    ensures |AliasesOf(page.keys)| <= LIMIT
    ensures page.listComplete ==> forall a | AliasKey(a) in store :: a in AliasesOf(page.keys)
  {
    AliasesOfKeys(page.keys, "");
    if page.listComplete {
      forall a | AliasKey(a) in store
        ensures a in AliasesOf(page.keys)
      {
        AliasOfKey(AliasKey(a), a);
        assert AliasKey(a) in Remaining(before, store, Keys.ALIAS_KEY_PREFIX, None);
        AliasesOfKeys(page.keys, a);
      }
    }
  }

  ghost predicate Targets(history: seq<Store>, since: nat, aliases: seq<Alias>) {
    forall i | 0 <= i < |aliases| :: WasHeld(history, since, AliasKey(aliases[i].alias), aliases[i].target)
  }

  lemma TargetsStay(was: seq<Store>, history: seq<Store>, since: nat, aliases: seq<Alias>)
    requires Targets(was, since, aliases) && was <= history
    ensures Targets(history, since, aliases)
  {
    forall i | 0 <= i < |aliases|
      ensures WasHeld(history, since, AliasKey(aliases[i].alias), aliases[i].target)
    {
      HeldStays(was, history, since, [AliasKey(aliases[i].alias)], [aliases[i].target]);
      assert Held(history, since, [AliasKey(aliases[i].alias)], [aliases[i].target]);
    }
  }

  ghost predicate Listed(aliases: seq<Alias>, alias: string) {
    exists i :: 0 <= i < |aliases| && aliases[i].alias == alias
  }

  // ---- In terms of entries ----

  /** The store holds typed entries, this one with this value among them. */
  ghost predicate HoldsEntry(store: Store, entry: Keys.Entry, value: string) {
    exists typed: Typed :: Represents(Keys.BUILDERS, store, typed) && entry in typed && typed[entry] == value
  }

  ghost predicate IsTyped(store: Store) {
    exists typed: Typed :: Represents(Keys.BUILDERS, store, typed)
  }

  ghost predicate AllTyped(history: seq<Store>, since: nat) {
    forall j | since <= j < |history| :: IsTyped(history[j])
  }

  /** The entry had the value in one of those stores. */
  ghost predicate WasEntry(history: seq<Store>, since: nat, entry: Keys.Entry, value: string) {
    exists j | since <= j < |history| :: HoldsEntry(history[j], entry, value)
  }

  predicate IsSubscription(env: string, entry: Keys.Entry) {
    entry.Subscription? && entry.env == env
  }

  /** Different subscriptions of the environment, with values they had. */
  ghost predicate AreSubscriptions(
      history: seq<Store>, since: nat, env: string, entries: seq<Keys.Entry>, values: seq<string>) {
    && |entries| == |values|
    && (forall i | 0 <= i < |entries| ::
          IsSubscription(env, entries[i]) && WasEntry(history, since, entries[i], values[i]))
    && (forall i, j | 0 <= i < j < |entries| :: entries[i] != entries[j])
  }

  lemma EntryOfKey(history: seq<Store>, since: nat, key: string, value: string) returns (entry: Keys.Entry)
    requires AllTyped(history, since) && WasHeld(history, since, key, value)
    ensures WasEntry(history, since, entry, value) && Keys.Key(entry) == key && Keys.ColonFree(Keys.Middle(entry))
  {
    var j :| since <= j < |history| && key in history[j] && history[j][key] == value;
    assert IsTyped(history[j]);
    var typed: Typed :| Represents(Keys.BUILDERS, history[j], typed);
    entry :| entry in typed && Keys.BUILDERS.key(entry) == key;
    assert HoldsEntry(history[j], entry, value);
  }

  /** The keys found under the prefix of an environment's subscriptions are those of its subscriptions. */
  lemma SubscriptionsFound(
      before: Order, history: seq<Store>, since: nat, env: string, found: seq<string>, values: seq<string>)
    returns (entries: seq<Keys.Entry>)
    requires IsOrder(before) && AllTyped(history, since) && Keys.ColonFree(env)
    requires Held(history, since, found, values) && Pairwise(found, before)
    requires forall k | k in found :: Keys.SubscriptionKeyPrefix(env) <= k
    ensures AreSubscriptions(history, since, env, entries, values)
    ensures forall e | IsSubscription(env, e) ::
              Keys.SubscriptionKeyPrefix(env) <= Keys.Key(e) && (Keys.Key(e) in found ==> e in entries)
  {
    forall i | 0 <= i < |found|
      ensures HasEntry(history, since, env, found[i], values[i])
    {
      assert found[i] in found;
      var e := EntryOfKey(history, since, found[i], values[i]);
      Keys.SubscriptionScan(env, e);
      assert IsEntryOf(history, since, env, found[i], values[i], e);
    }
    entries := Entries(history, since, env, found, values);
    DifferentEntries(before, history, since, env, found, values, entries);
    forall e | IsSubscription(env, e)
      ensures Keys.SubscriptionKeyPrefix(env) <= Keys.Key(e) && (Keys.Key(e) in found ==> e in entries)
    {
      FoundEntry(env, found, entries, e);
    }
  }

  ghost predicate IsEntryOf(
      history: seq<Store>, since: nat, env: string, key: string, value: string, e: Keys.Entry) {
    Keys.Key(e) == key && IsSubscription(env, e) && WasEntry(history, since, e, value)
  }

  ghost predicate HasEntry(history: seq<Store>, since: nat, env: string, key: string, value: string) {
    exists e :: IsEntryOf(history, since, env, key, value, e)
  }

  ghost function EntryFor(history: seq<Store>, since: nat, env: string, key: string, value: string): (e: Keys.Entry)
    requires HasEntry(history, since, env, key, value)
    ensures IsEntryOf(history, since, env, key, value, e)
  {
    var e :| IsEntryOf(history, since, env, key, value, e);
    e
  }

  ghost function Entries(history: seq<Store>, since: nat, env: string, keys: seq<string>, values: seq<string>)
    : (entries: seq<Keys.Entry>)
    requires |keys| == |values|
    requires forall i | 0 <= i < |keys| :: HasEntry(history, since, env, keys[i], values[i])
    ensures |entries| == |keys|
    ensures forall i | 0 <= i < |keys| :: IsEntryOf(history, since, env, keys[i], values[i], entries[i])
  {
    seq(|keys|, i requires 0 <= i < |keys| => EntryFor(history, since, env, keys[i], values[i]))
  }

  lemma DifferentEntries(
      before: Order, history: seq<Store>, since: nat, env: string, keys: seq<string>, values: seq<string>,
      entries: seq<Keys.Entry>)
    requires IsOrder(before) && Pairwise(keys, before) && |entries| == |keys| == |values|
    requires forall i | 0 <= i < |keys| :: IsEntryOf(history, since, env, keys[i], values[i], entries[i])
    ensures AreSubscriptions(history, since, env, entries, values)
  {
    forall i, j | 0 <= i < j < |entries|
      ensures entries[i] != entries[j]
    {
      assert before(keys[i], keys[j]);
    }
  }

  lemma FoundEntry(env: string, found: seq<string>, entries: seq<Keys.Entry>, e: Keys.Entry)
    requires Keys.ColonFree(env) && IsSubscription(env, e) && |entries| == |found|
    requires forall i | 0 <= i < |found| :: Keys.Key(entries[i]) == found[i] && IsSubscription(env, entries[i])
    ensures Keys.SubscriptionKeyPrefix(env) <= Keys.Key(e)
    ensures Keys.Key(e) in found ==> e in entries
  {
    Keys.SubscriptionScan(env, e);
    if i :| 0 <= i < |found| && found[i] == Keys.Key(e) {
      Keys.KeysAreDistinct(entries[i], e);
    }
  }

  ghost predicate AreAliases(history: seq<Store>, since: nat, aliases: seq<Alias>) {
    forall i | 0 <= i < |aliases| :: WasEntry(history, since, Keys.AliasId(aliases[i].alias), aliases[i].target)
  }

  lemma AliasesAreTyped(history: seq<Store>, since: nat, aliases: seq<Alias>)
    requires AllTyped(history, since) && Targets(history, since, aliases)
    ensures AreAliases(history, since, aliases)
  {
    forall i | 0 <= i < |aliases|
      ensures WasEntry(history, since, Keys.AliasId(aliases[i].alias), aliases[i].target)
    {
      var entry := EntryOfKey(history, since, AliasKey(aliases[i].alias), aliases[i].target);
      Keys.AliasScan(entry);
      Keys.AliasScan(Keys.AliasId(aliases[i].alias));
      AliasOfKey(Keys.Key(entry), aliases[i].alias);
      AliasOfKey(Keys.Key(entry), if entry.AliasId? then entry.id else "");
    }
  }
}

/** The flat key-value store. For names and IDs without colons every operation on it does what it
    would do on a record of separate typed maps. */
module KeyValue {
  import opened Wrappers
  import opened Remote
  import opened Keys
  import L = Links

  type Store = map<string, string>
  type Typed = map<Entry, string>

  const LIST_LIMIT := 1000

  // ---- The store as a record of typed maps ----

  /** `typed` maps each kind of entry separately; `store` is the flat store that implements it. */
  ghost predicate Represents(b: Builders, store: Store, typed: Typed) {
    && (forall e | e in typed :: WellFormed(b, e) && b.key(e) in store && store[b.key(e)] == typed[e])
    && (forall k | k in store :: exists e :: e in typed && b.key(e) == k)
  }

  lemma GetCommutes(b: Builders, store: Store, typed: Typed, entry: Entry)
    requires Sound(b) && Represents(b, store, typed) && ColonFree(Middle(entry))
    ensures b.key(entry) in store <==> entry in typed
    ensures entry in typed ==> store[b.key(entry)] == typed[entry]
  {
  }

  lemma PutCommutes(b: Builders, store: Store, typed: Typed, entry: Entry, value: string)
    requires Sound(b) && Represents(b, store, typed) && WellFormed(b, entry)
    ensures Represents(b, store[b.key(entry) := value], typed[entry := value])
  {
  }

  lemma DeleteCommutes(b: Builders, store: Store, typed: Typed, entry: Entry)
    requires Sound(b) && Represents(b, store, typed) && ColonFree(Middle(entry))
    ensures Represents(b, store - {b.key(entry)}, typed - {entry})
  {
  }

  predicate IsCacheEntry(env: string, entry: Entry) {
    entry.Cache? && entry.env == env
  }

  /** What is cached in KV for an environment, and so what `delete_cache` is to remove. */
  predicate IsCachedFor(env: string, entry: Entry) {
    IsCacheEntry(env, entry) || entry == TablesOf(env) || entry == BaseIdOf(env)
  }

  function CacheKeys(b: Builders, store: Store, env: string): set<string> {
    set k | k in store && b.inCacheScan(env, k)
  }

  lemma SubsetSize<T>(a: set<T>, b: set<T>)
    requires a <= b
    ensures |a| <= |b|
  {
    if a == {} {
    } else {
      var x :| x in a;
      SubsetSize(a - {x}, b - {x});
    }
  }

  lemma ImageSize<T, U>(s: set<T>, f: T -> U)
    ensures |set x | x in s :: f(x)| <= |s|
  {
    if s == {} {
    } else {
      var x :| x in s;
      ImageSize(s - {x}, f);
      assert (set y | y in s :: f(y)) == (set y | y in s - {x} :: f(y)) + {f(x)};
    }
  }

  lemma CoveredSize<T, U>(found: set<U>, names: set<T>, f: T -> U)
    requires forall k | k in found :: exists n :: n in names && f(n) == k
    ensures |found| <= |names|
  {
    SubsetSize(found, set n | n in names :: f(n));
    ImageSize(names, f);
  }

  lemma Scanned(b: Builders, store: Store, typed: Typed, env: string, k: string) returns (name: string)
    requires Sound(b) && Represents(b, store, typed) && ColonFree(env)
    requires k in store && b.inCacheScan(env, k)
    ensures name in b.cached && k == b.key(Cache(env, name)) && Cache(env, name) in typed
  {
    var e :| e in typed && b.key(e) == k;
    name := e.name;
  }

  /** A scan for the cache of an environment finds no more keys than there are cached endpoints. */
  lemma ScanSize(b: Builders, store: Store, typed: Typed, env: string)
    requires Sound(b) && Represents(b, store, typed) && ColonFree(env)
    ensures |CacheKeys(b, store, env)| <= |b.cached|
  {
    var found := CacheKeys(b, store, env);
    var keyOf := n => b.key(Cache(env, n));
    forall k | k in found ensures exists n :: n in b.cached && keyOf(n) == k {
      var name := Scanned(b, store, typed, env, k);
      assert keyOf(name) == k;
    }
    CoveredSize(found, b.cached, keyOf);
  }

  /** So one page of a listing holds all of them. */
  lemma CacheKeysFitOnePage(b: Builders, store: Store, typed: Typed, env: string)
    requires Sound(b) && Represents(b, store, typed) && ColonFree(env)
    ensures |CacheKeys(b, store, env)| <= LIST_LIMIT
  {
    ScanSize(b, store, typed, env);
  }

  function Lookup(typed: Typed, entry: Entry): Option<string> {
    if entry in typed then Some(typed[entry]) else None
  }

  /** The environments that IDs map to are used to build keys in turn. */
  ghost predicate OwnersColonFree(typed: Typed) {
    forall e | e in typed && e.IdEnv? :: ColonFree(typed[e])
  }

  /** `after` is what is left of `before` when nothing but entries with `p` may be gone. */
  ghost predicate LosesOnly(before: Typed, after: Typed, p: Entry -> bool) {
    && (forall e | e in after :: e in before && after[e] == before[e])
    && (forall e | e in before && !p(e) :: e in after)
  }

  ghost predicate NoneLeft(typed: Typed, p: Entry -> bool) {
    forall e | e in typed :: !p(e)
  }

  function CachedEntries(env: string): Entry -> bool {
    e => IsCachedFor(env, e)
  }

  // ---- Wiping the cache of an environment ----

  /** The keys a wipe deletes, whatever they stand for. */
  predicate Doomed(b: Builders, env: string, k: string) {
    b.inCacheScan(env, k) || k == b.key(TablesOf(env)) || k == b.key(BaseIdOf(env))
  }

  /** What a complete wipe leaves. */
  ghost predicate Wiped(b: Builders, before: Store, after: Store, env: string) {
    forall k :: (k in after <==> k in before && !Doomed(b, env, k)) && (k in after ==> after[k] == before[k])
  }

  /** What a wipe that stops somewhere leaves. */
  ghost predicate PartlyWiped(b: Builders, before: Store, after: Store, env: string) {
    && (forall k | k in after :: k in before && after[k] == before[k])
    && (forall k | k in before && !Doomed(b, env, k) :: k in after)
  }

  ghost function Kept(b: Builders, typed: Typed, store: Store): Typed {
    map e | e in typed && b.key(e) in store :: typed[e]
  }

  lemma LessIsRepresented(b: Builders, before: Store, after: Store, typed: Typed)
    requires Represents(b, before, typed) && forall k | k in after :: k in before && after[k] == before[k]
    ensures Represents(b, after, Kept(b, typed, after))
  {
    var left := Kept(b, typed, after);
    forall k | k in after
      ensures exists e :: e in left && b.key(e) == k
    {
      var e :| e in typed && b.key(e) == k;
      assert e in left;
    }
  }

  lemma KeptWithoutOne(b: Builders, store: Store, typed: Typed, entry: Entry)
    requires Sound(b) && Represents(b, store, typed) && ColonFree(Middle(entry))
    ensures Kept(b, typed, store) == typed
    ensures Kept(b, typed, store - {b.key(entry)}) == typed - {entry}
  {
    assert b.entryOf(b.key(entry)) == Some(entry);
    forall e | e in typed
      ensures b.key(e) == b.key(entry) <==> e == entry
    {
      assert b.entryOf(b.key(e)) == Some(e);
    }
  }

  /** For names without colons a wipe loses what is cached for the environment and nothing else. */
  lemma WipeCommutes(b: Builders, before: Store, after: Store, typed: Typed, env: string)
    requires Sound(b) && Represents(b, before, typed) && ColonFree(env) && PartlyWiped(b, before, after, env)
    ensures Represents(b, after, Kept(b, typed, after))
    ensures LosesOnly(typed, Kept(b, typed, after), CachedEntries(env))
    ensures Wiped(b, before, after, env) ==> NoneLeft(Kept(b, typed, after), CachedEntries(env))
  {
    LessIsRepresented(b, before, after, typed);
    forall e | e in typed
      ensures Doomed(b, env, b.key(e)) <==> IsCachedFor(env, e)
    {
      DoomedIsCached(b, env, e);
    }
  }

  lemma DoomedIsCached(b: Builders, env: string, e: Entry)
    requires Sound(b) && ColonFree(env) && ColonFree(Middle(e))
    ensures Doomed(b, env, b.key(e)) <==> IsCachedFor(env, e)
  {
    assert b.entryOf(b.key(e)) == Some(e);
    assert b.entryOf(b.key(TablesOf(env))) == Some(TablesOf(env));
    assert b.entryOf(b.key(BaseIdOf(env))) == Some(BaseIdOf(env));
  }

  /** Where names may have colons, a complete wipe for one environment takes an entry of another one exactly when
      that one's name, with a colon, begins with `env:cache:`, or their keys coincide. */
  lemma WipeTakesAnothersEntryIff(before: Store, after: Store, env: string, entry: Entry)
    requires Wiped(BUILDERS, before, after, env)
    requires PlainSuffix(entry) && EnvKeyed(entry) && entry.env != env && Key(entry) in before
    ensures Key(entry) !in after <==>
            (env + ":") + "cache:" <= entry.env + ":" || Key(entry) in {Key(TablesOf(env)), Key(BaseIdOf(env))}
  {
    CacheScanWithColons(env, entry);
  }

  // ---- Two views of the same entries ----

  /** The links between environments and IDs that are stored. */
  ghost function LinksOf(typed: Typed): L.Links {
    L.Links(map env | env in (set e | e in typed && e.EnvId? :: e.env) :: typed[EnvId(env)],
            map id | id in (set e | e in typed && e.IdEnv? :: e.id) :: typed[IdEnv(id)])
  }

  /** What a wipe does to the cached tables and base ID of an environment, the two entries by which admin
      operations find its data: each is as it was or gone, and after a complete wipe both are gone. Those of other
      environments stay. */
  lemma WipeOfTablesAndBaseId(typed: Typed, after: Typed, env: string, other: string)
    requires LosesOnly(typed, after, CachedEntries(env))
    ensures Lookup(after, TablesOf(env)) in {Lookup(typed, TablesOf(env)), None}
    ensures Lookup(after, BaseIdOf(env)) in {Lookup(typed, BaseIdOf(env)), None}
    ensures NoneLeft(after, CachedEntries(env)) ==> Lookup(after, TablesOf(env)) == None == Lookup(after, BaseIdOf(env))
    ensures other != env ==>
              && Lookup(after, TablesOf(other)) == Lookup(typed, TablesOf(other))
              && Lookup(after, BaseIdOf(other)) == Lookup(typed, BaseIdOf(other))
  {
  }

  class KvStore {
    const wire: Wire
    const builders: Builders
    var store: Store
    ghost var typed: Typed

    ghost predicate Valid()
      reads this
    {
      Sound(builders) && Represents(builders, store, typed) && OwnersColonFree(typed)
    }

    constructor (wire: Wire)
      ensures Valid() && typed == map[]
      ensures builders == BUILDERS && this.wire == wire
    {
      BuildersAreSound();
      this.wire := wire;
      builders := BUILDERS;
      store, typed := map[], map[];
    }

    method Get(entry: Entry) returns (r: Result<Option<string>, ()>)
      requires Valid() && ColonFree(Middle(entry))
      modifies wire
      ensures r.Success? ==> r.value == Lookup(typed, entry)
      ensures wire.faults >= old(wire.faults)
      ensures r.Success? <==> wire.faults == old(wire.faults)
    {
      GetCommutes(builders, store, typed, entry);
      var reply := wire.Call();
      if !reply.Succeeded? {
        return Failure(());
      }
      return Success(if builders.key(entry) in store then Some(store[builders.key(entry)]) else None);
    }

    method Put(entry: Entry, value: string) returns (ok: bool)
      requires Valid() && WellFormed(builders, entry) && (entry.IdEnv? ==> ColonFree(value))
      modifies this`store, this`typed, wire
      ensures Valid()
      ensures ok ==> typed == old(typed)[entry := value]
      ensures typed in {old(typed), old(typed)[entry := value]}
      ensures wire.faults >= old(wire.faults)
      ensures ok <==> wire.faults == old(wire.faults)
    {
      PutCommutes(builders, store, typed, entry, value);
      var reply := wire.Call();
      if !reply.Refused? {
        store, typed := store[builders.key(entry) := value], typed[entry := value];
      }
      ok := reply.Succeeded?;
    }

    /** Deletes a key, whatever it stands for; `typed` is left behind. */
    method DeleteKey(name: string) returns (ok: bool)
      modifies this`store, wire
      ensures ok ==> store == old(store) - {name}
      ensures store in {old(store), old(store) - {name}}
      ensures wire.faults >= old(wire.faults)
      ensures ok <==> wire.faults == old(wire.faults)
    {
      var reply := wire.Call();
      if !reply.Refused? {
        store := store - {name};
      }
      ok := reply.Succeeded?;
    }

    method Delete(entry: Entry) returns (ok: bool)
      requires Valid() && ColonFree(Middle(entry))
      modifies this`store, this`typed, wire
      ensures Valid()
      ensures ok ==> typed == old(typed) - {entry}
      ensures typed in {old(typed), old(typed) - {entry}}
      ensures wire.faults >= old(wire.faults)
      ensures ok <==> wire.faults == old(wire.faults)
    {
      ok := DeleteKey(builders.key(entry));
      typed := Kept(builders, typed, store);
      KeptWithoutOne(builders, old(store), old(typed), entry);
      LessIsRepresented(builders, old(store), store, old(typed));
    }

    /** The first page of the scan for the cache of an environment, which is all of it if that fits one page. */
    method ListCache(env: string) returns (r: Result<set<string>, ()>)
      modifies wire
      ensures r.Success? ==> forall k | k in r.value :: k in store && builders.inCacheScan(env, k)
      ensures r.Success? && |CacheKeys(builders, store, env)| <= LIST_LIMIT ==>
                r.value == CacheKeys(builders, store, env)
      ensures wire.faults >= old(wire.faults)
      ensures r.Success? <==> wire.faults == old(wire.faults)
    {
      var reply := wire.Call();
      if !reply.Succeeded? {
        return Failure(());
      }
      var all := CacheKeys(builders, store, env);
      var page :| page <= all && (|all| <= LIST_LIMIT ==> page == all);
      return Success(page);
    }

    /** The environment an ID belongs to, if it is the current ID of that environment. */
    method GetIdEnv(id: string) returns (r: Result<Option<string>, ()>)
      requires Valid() && ColonFree(id)
      modifies wire
      ensures r.Success? ==> forall env ::
                r.value == Some(env) <==> Lookup(typed, IdEnv(id)) == Some(env) && Lookup(typed, EnvId(env)) == Some(id)
      ensures r.Success? ==> r.value == L.Resolve(LinksOf(typed), id)
      ensures wire.faults >= old(wire.faults)
      ensures r.Success? <==> wire.faults == old(wire.faults)
    {
      var env := Get(IdEnv(id));
      if env.Failure? {
        return Failure(());
      }
      if env.value.Some? {
        var current := Get(EnvId(env.value.value));
        if current.Failure? {
          return Failure(());
        }
        if current.value == Some(id) {
          return Success(env.value);
        }
      }
      return Success(None);
    }

    /** Deletes the keys the scan finds, then the tables, then the base ID, and stops at the first failure. For
        names without colons that is what is cached for this environment. */
    method DeleteCache(env: string) returns (ok: bool)
      modifies this`store, this`typed, wire
      ensures PartlyWiped(builders, old(store), store, env)
      ensures ok && |CacheKeys(builders, old(store), env)| <= LIST_LIMIT ==> Wiped(builders, old(store), store, env)
      ensures old(Valid()) && ColonFree(env) ==>
                && Valid()
                && LosesOnly(old(typed), typed, CachedEntries(env))
                && (ok ==> NoneLeft(typed, CachedEntries(env)))
      ensures wire.faults >= old(wire.faults)
      ensures ok <==> wire.faults == old(wire.faults)
    {
      ok := Wipe(env);
      typed := Kept(builders, typed, store);
      if old(Valid()) && ColonFree(env) {
        CacheKeysFitOnePage(builders, old(store), old(typed), env);
        WipeCommutes(builders, old(store), store, old(typed), env);
      }
    }

    /** The wipe in terms of keys. */
    method Wipe(env: string) returns (ok: bool)
      modifies this`store, wire
      ensures PartlyWiped(builders, old(store), store, env)
      ensures ok && |CacheKeys(builders, old(store), env)| <= LIST_LIMIT ==> Wiped(builders, old(store), store, env)
      ensures wire.faults >= old(wire.faults)
      ensures ok <==> wire.faults == old(wire.faults)
    {
      ok := DeleteKeys(env);
      if ok {
        ok := DeleteKey(builders.key(TablesOf(env)));
      }
      if ok {
        ok := DeleteKey(builders.key(BaseIdOf(env)));
      }
    }

    /** The listing and the loop over its keys. */
    method DeleteKeys(env: string) returns (ok: bool)
      modifies this`store, wire
      ensures forall k | k in store :: k in old(store) && store[k] == old(store)[k]
      ensures forall k | k in old(store) && !builders.inCacheScan(env, k) :: k in store
      ensures ok && |CacheKeys(builders, old(store), env)| <= LIST_LIMIT ==>
                forall k | k in store :: !builders.inCacheScan(env, k)
      ensures wire.faults >= old(wire.faults)
      ensures ok <==> wire.faults == old(wire.faults)
    {
      var listed := ListCache(env);
      if listed.Failure? {
        return false;
      }
      var rest := listed.value;
      while rest != {}
        invariant rest <= listed.value && wire.faults == old(wire.faults)
        invariant forall k | k in store :: k in old(store) && store[k] == old(store)[k]
        invariant forall k | k in old(store) && k !in listed.value :: k in store
        invariant forall k | k in store && k in listed.value :: k in rest
        decreases rest
      {
        var name :| name in rest;
        var deleted := DeleteKey(name);
        if !deleted {
          return false;
        }
        rest := rest - {name};
      }
      ok := true;
    }
  }

  /** With a colon in a name, an input for which the wipe for one environment deletes the ID of another. */
  method ColonsWipeAnothersId(kv: KvStore, id: string) returns (ok: bool)
    requires kv.builders == BUILDERS && kv.store == map[Key(EnvId("a:cache:b")) := id]
    modifies kv, kv.wire
    ensures kv.wire.faults == old(kv.wire.faults) <==> ok
    ensures ok ==> kv.store == map[]
  {
    ghost var key, before := Key(EnvId("a:cache:b")), kv.store;
    ok := kv.DeleteCache("a");
    assert CacheKeys(BUILDERS, before, "a") <= {key};
    SubsetSize(CacheKeys(BUILDERS, before, "a"), {key});
    ColonsMixEnvironments();
  }
}

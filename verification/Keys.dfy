/** The formatted string keys of the key-value store. For names and IDs without colons they are
    injective, pairwise disjoint, and their prefixes select one environment. */
module Keys {
  import opened Wrappers

  /** What a key stands for. */
  datatype Entry =
    | EnvId(env: string)
    | IdEnv(id: string)
    | AliasId(id: string)
    | EnvDomain(env: string)
    | DomainEnv(domain: string)
    | ApiToken(env: string)
    | TablesOf(env: string)
    | BaseIdOf(env: string)
    | EnvConfig(env: string)
    | Subscription(env: string, subscription: string)
    | Cache(env: string, name: string)

  const CACHE_NAMES := {"events", "info", "pages", "announcements", "files"}

  lemma FewCacheNames()
    ensures |CACHE_NAMES| <= 5
  {
  }

  // ---- The key builders ----

  function Prefix(entry: Entry): string {
    match entry
    case IdEnv(_) => "id"
    case AliasId(_) => "alias"
    case DomainEnv(_) => "domain"
    case _ => "env"
  }

  function Middle(entry: Entry): string {
    match entry
    case IdEnv(id) => id
    case AliasId(id) => id
    case DomainEnv(domain) => domain
    case _ => entry.env
  }

  function Suffix(entry: Entry): string {
    match entry
    case EnvId(_) => "id"
    case IdEnv(_) => "env"
    case AliasId(_) => "id"
    case EnvDomain(_) => "domain"
    case DomainEnv(_) => "env"
    case ApiToken(_) => "api-token"
    case TablesOf(_) => "tables"
    case BaseIdOf(_) => "base-id"
    case EnvConfig(_) => "config"
    case Subscription(_, id) => "subscription:" + id
    case Cache(_, name) => "cache:" + name
  }

  function Key(entry: Entry): string {
    Prefix(entry) + ":" + (Middle(entry) + ":" + Suffix(entry))
  }

  function CacheKeyPrefix(env: string): string {
    "env" + ":" + (env + ":" + "cache:")
  }

  function SubscriptionKeyPrefix(env: string): string {
    "env" + ":" + (env + ":" + "subscription:")
  }

  predicate ColonFree(s: string) {
    ':' !in s
  }

  // ---- Keys can be read back ----

  function BeforeColon(s: string): (r: string)
    ensures r <= s && ColonFree(r)
    ensures |r| < |s| ==> s[|r|] == ':'
  {
    if s == "" || s[0] == ':' then "" else [s[0]] + BeforeColon(s[1..])
  }

  lemma {:induction false} BeforeFirstColon(a: string, b: string)
    requires ColonFree(a)
    ensures BeforeColon(a + ":" + b) == a && (a + ":" + b)[|a| + 1..] == b
  {
    if a == "" {
    } else {
      assert (a + ":" + b)[1..] == a[1..] + ":" + b;
      BeforeFirstColon(a[1..], b);
    }
  }

  function Parse(key: string): Option<Entry> {
    var prefix := BeforeColon(key);
    if |prefix| == |key| then None
    else
      var rest := key[|prefix| + 1..];
      var middle := BeforeColon(rest);
      if |middle| == |rest| then None
      else Interpret(prefix, middle, rest[|middle| + 1..])
  }

  function Interpret(prefix: string, middle: string, suffix: string): Option<Entry> {
    if prefix == "id" then if suffix == "env" then Some(IdEnv(middle)) else None
    else if prefix == "alias" then if suffix == "id" then Some(AliasId(middle)) else None
    else if prefix == "domain" then if suffix == "env" then Some(DomainEnv(middle)) else None
    else if prefix != "env" then None
    else if suffix == "id" then Some(EnvId(middle))
    else if suffix == "domain" then Some(EnvDomain(middle))
    else if suffix == "api-token" then Some(ApiToken(middle))
    else if suffix == "tables" then Some(TablesOf(middle))
    else if suffix == "base-id" then Some(BaseIdOf(middle))
    else if suffix == "config" then Some(EnvConfig(middle))
    else if "subscription:" <= suffix then Some(Subscription(middle, suffix[13..]))
    else if "cache:" <= suffix then Some(Cache(middle, suffix[6..]))
    else None
  }

  lemma InterpretParts(entry: Entry)
    ensures Interpret(Prefix(entry), Middle(entry), Suffix(entry)) == Some(entry)
  {
    match entry
    case Subscription(_, id) =>
      assert Suffix(entry)[0] == 's' && Suffix(entry)[13..] == id;
    case Cache(_, name) =>
      assert Suffix(entry)[0] == 'c' && Suffix(entry)[1] == 'a' && Suffix(entry)[6..] == name;
      assert "config"[1] == 'o';
    case _ =>
  }

  lemma ParseParts(prefix: string, middle: string, suffix: string)
    requires ColonFree(prefix) && ColonFree(middle)
    ensures Parse(prefix + ":" + (middle + ":" + suffix)) == Interpret(prefix, middle, suffix)
  {
    BeforeFirstColon(prefix, middle + ":" + suffix);
    BeforeFirstColon(middle, suffix);
  }

  /** Reading back a key gives the entry it was built from; so no two entries share a key. */
  lemma ParseKey(entry: Entry)
    requires ColonFree(Middle(entry))
    ensures Parse(Key(entry)) == Some(entry)
  {
    ParseParts(Prefix(entry), Middle(entry), Suffix(entry));
    InterpretParts(entry);
  }

  lemma KeysAreDistinct(a: Entry, b: Entry)
    requires ColonFree(Middle(a)) && ColonFree(Middle(b))
    ensures Key(a) == Key(b) <==> a == b
  {
    ParseKey(a);
    ParseKey(b);
  }

  lemma Extend(prefix: string, middle: string, suffix: string, more: string)
    ensures prefix + ":" + (middle + ":" + suffix) + more == prefix + ":" + (middle + ":" + (suffix + more))
  {
  }

  lemma PrefixOf(prefix: string, more: string)
    ensures prefix <= prefix + more && (prefix + more)[|prefix|..] == more
  {
  }

  lemma KeysExtendPrefixes(env: string, name: string)
    ensures Key(Cache(env, name)) == CacheKeyPrefix(env) + name
    ensures Key(Subscription(env, name)) == SubscriptionKeyPrefix(env) + name
  {
    Extend("env", env, "cache:", name);
    Extend("env", env, "subscription:", name);
  }

  /** A scan by the cache prefix of an environment finds the keys of its cache entries and no others. */
  lemma CacheScan(env: string, entry: Entry)
    requires ColonFree(env) && ColonFree(Middle(entry))
    ensures CacheKeyPrefix(env) <= Key(entry) <==> entry.Cache? && entry.env == env
  {
    if CacheKeyPrefix(env) <= Key(entry) {
      ScannedCache(env, entry, CacheKeyPrefix(env));
    } else if entry.Cache? && entry.env == env {
      KeysExtendPrefixes(env, entry.name);
      PrefixOf(CacheKeyPrefix(env), entry.name);
    }
  }

  lemma ScannedCache(env: string, entry: Entry, prefix: string)
    requires ColonFree(env) && ColonFree(Middle(entry)) && prefix == CacheKeyPrefix(env) && prefix <= Key(entry)
    ensures entry.Cache? && entry.env == env
  {
    var name := Key(entry)[|prefix|..];
    KeysExtendPrefixes(env, name);
    assert prefix + name == Key(entry);
    KeysAreDistinct(entry, Cache(env, name));
  }

  lemma SubscriptionScan(env: string, entry: Entry)
    requires ColonFree(env) && ColonFree(Middle(entry))
    ensures SubscriptionKeyPrefix(env) <= Key(entry) <==> entry.Subscription? && entry.env == env
  {
    if SubscriptionKeyPrefix(env) <= Key(entry) {
      ScannedSubscription(env, entry, SubscriptionKeyPrefix(env));
    } else if entry.Subscription? && entry.env == env {
      KeysExtendPrefixes(env, entry.subscription);
      PrefixOf(SubscriptionKeyPrefix(env), entry.subscription);
    }
  }

  lemma ScannedSubscription(env: string, entry: Entry, prefix: string)
    requires ColonFree(env) && ColonFree(Middle(entry)) && prefix == SubscriptionKeyPrefix(env) && prefix <= Key(entry)
    ensures entry.Subscription? && entry.env == env
  {
    var id := Key(entry)[|prefix|..];
    KeysExtendPrefixes(env, id);
    assert prefix + id == Key(entry);
    KeysAreDistinct(entry, Subscription(env, id));
  }

  const ALIAS_KEY_PREFIX := "alias:"
  const ALIAS_ID_KEY_SUFFIX := ":id"

  lemma AliasScan(entry: Entry)
    ensures ALIAS_KEY_PREFIX <= Key(entry) <==> entry.AliasId?
    ensures entry.AliasId? ==> Key(entry) == ALIAS_KEY_PREFIX + (entry.id + ALIAS_ID_KEY_SUFFIX)
  {
    assert Key(entry)[0] == Prefix(entry)[0];
    if entry.AliasId? {
      assert "alias" + ":" == ALIAS_KEY_PREFIX && ":" + "id" == ALIAS_ID_KEY_SUFFIX;
      assert entry.id + ":" + "id" == entry.id + ALIAS_ID_KEY_SUFFIX;
    }
  }

  // ---- Names with colons ----

  /** The entries whose keys start with an environment. */
  predicate EnvKeyed(entry: Entry) {
    !entry.IdEnv? && !entry.AliasId? && !entry.DomainEnv?
  }

  /** Endpoints and the IDs of subscriptions have no colons; names of environments may. */
  predicate PlainSuffix(entry: Entry) {
    (entry.Subscription? ==> ColonFree(entry.subscription)) && (entry.Cache? ==> ColonFree(entry.name))
  }

  lemma PrefixEndsBefore(p: string, u: string, tail: string)
    requires p != "" && p[|p| - 1] == ':' && ColonFree(tail)
    ensures p <= u + tail <==> p <= u
  {
    forall i | |u| <= i < |u + tail|
      ensures (u + tail)[i] != ':'
    {
      assert tail[i - |u|] in tail;
    }
  }

  /** A text that ends with a colon begins `f:name:tail` only within `f:`, unless it is all of `f:name:`. */
  lemma PrefixWithinName(p: string, f: string, name: string, tail: string)
    requires p != "" && p[|p| - 1] == ':' && ColonFree(name) && ColonFree(tail)
    ensures p <= (f + ":") + name + ":" + tail <==> p <= f + ":" || p == (f + ":") + name + ":"
  {
    var u := (f + ":") + name;
    PrefixEndsBefore(p, u + ":", tail);
    PrefixEndsBefore(p, f + ":", name);
    if p <= u + ":" && p != u + ":" {
      assert p == (u + ":")[..|p|] == u[..|p|];
    }
  }

  lemma StripHead(head: string, a: string, b: string)
    ensures head + a <= head + b <==> a <= b
  {
    assert (head + b)[|head|..] == b;
    if head + a <= head + b {
      assert a == (head + a)[|head|..] == (head + b)[..|head + a|][|head|..] == b[..|a|];
    }
  }

  /** Where names of environments may have colons, the scan for the cache of `env` finds the key of an entry of
      another environment exactly when that one's name, with a colon, begins with `env:cache:`. */
  lemma CacheScanWithColons(env: string, entry: Entry)
    requires PlainSuffix(entry)
    ensures CacheKeyPrefix(env) <= Key(entry) <==>
            && EnvKeyed(entry)
            && ((env + ":") + "cache:" <= entry.env + ":" || (entry.Cache? && entry.env == env))
  {
    if EnvKeyed(entry) {
      var p, f := (env + ":") + "cache:", entry.env;
      StripHead("env" + ":", p, f + ":" + Suffix(entry));
      CacheScanOfEnv(p, env, entry);
    } else {
      assert CacheKeyPrefix(env)[0] == 'e' && Key(entry)[0] == Prefix(entry)[0];
    }
  }

  lemma CacheScanOfEnv(p: string, env: string, entry: Entry)
    requires PlainSuffix(entry) && EnvKeyed(entry) && p == (env + ":") + "cache:"
    ensures p <= entry.env + ":" + Suffix(entry) <==> p <= entry.env + ":" || (entry.Cache? && entry.env == env)
  {
    var f := entry.env;
    match entry
    case Subscription(_, id) =>
      assert f + ":" + ("subscription:" + id) == (f + ":") + "subscription" + ":" + id;
      PrefixWithinName(p, f, "subscription", id);
      assert p[|p| - 2] == 'e' && ((f + ":") + "subscription" + ":")[|f| + 12] == 'n';
    case Cache(_, name) =>
      assert f + ":" + ("cache:" + name) == (f + ":") + "cache" + ":" + name;
      PrefixWithinName(p, f, "cache", name);
      assert "cache" + ":" == "cache:" && (f + ":") + "cache" + ":" == (f + ":") + "cache:";
      assert |env| == |f| ==> p[..|env|] == env && ((f + ":") + "cache:")[..|f|] == f;
    case _ => PrefixEndsBefore(p, f + ":", Suffix(entry));
  }

  /** Two environments for which that is so. */
  lemma ColonsMixEnvironments()
    ensures CacheKeyPrefix("a") <= Key(EnvId("a:cache:b"))
    ensures Key(EnvId("a:cache:b")) == Key(Cache("a", "b:id"))
  {
  }

  /** The functions that build keys, one that reads them back, the test by which the scan for the
      cache of an environment picks keys, and the names of the cached endpoints. */
  datatype Builders = Builders(
    key: Entry -> string, entryOf: string -> Option<Entry>, inCacheScan: (string, string) -> bool, cached: set<string>)

  /** The entries the server writes, if no name or ID contains a colon. */
  predicate WellFormed(b: Builders, entry: Entry) {
    ColonFree(Middle(entry)) && (entry.Cache? ==> entry.name in b.cached)
  }

  /** What the store needs of them: every key can be read back, so that no two entries share one,
      and the scan for the cache of an environment finds just its cache entries. */
  ghost predicate Sound(b: Builders) {
    && (forall e {:trigger b.key(e)} :: ColonFree(Middle(e)) ==> b.entryOf(b.key(e)) == Some(e))
    && (forall env, e {:trigger b.inCacheScan(env, b.key(e))} :: ColonFree(env) && ColonFree(Middle(e)) ==>
          (b.inCacheScan(env, b.key(e)) <==> e.Cache? && e.env == env))
    && |b.cached| <= 5
  }

  const BUILDERS := Builders(e => Key(e), k => Parse(k), (env, k) => CacheKeyPrefix(env) <= k, CACHE_NAMES)

  lemma BuildersAreSound()
    ensures Sound(BUILDERS)
  {
    FewCacheNames();
    forall e | ColonFree(Middle(e)) ensures BUILDERS.entryOf(BUILDERS.key(e)) == Some(e) {
      ParseKey(e);
    }
    forall env, e | ColonFree(env) && ColonFree(Middle(e))
      ensures BUILDERS.inCacheScan(env, BUILDERS.key(e)) <==> e.Cache? && e.env == env
    {
      CacheScan(env, e);
    }
  }
}

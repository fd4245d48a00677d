/** The cached base ID and tables of an environment as they are in the key-value store. */
module Cache {
  import opened Wrappers
  import opened Database
  import opened Keys
  import opened KeyValue
  import opened Migrations
  import Admin

  /** How the values are read. */
  datatype Format = Format(baseId: string -> BaseId, tables: string -> Tables)

  function StoredBaseId(typed: Typed, env: string, format: Format): Option<BaseId> {
    match Lookup(typed, BaseIdOf(env))
    case Some(value) => Some(format.baseId(value))
    case None => None
  }

  function StoredTables(typed: Typed, env: string, format: Format): Option<Tables> {
    match Lookup(typed, TablesOf(env))
    case Some(value) => Some(format.tables(value))
    case None => None
  }

  /** The store's wipe does to what is cached for the environment what the admin operations take it to do, and
      nothing to what is cached for another. */
  method Wipe(kv: KvStore, env: string, format: Format) returns (ok: bool)
    requires kv.Valid() && ColonFree(env)
    modifies kv, kv.wire
    ensures kv.Valid()
    ensures Admin.CacheWiped(
              ok, StoredBaseId(old(kv.typed), env, format), StoredTables(old(kv.typed), env, format),
              StoredBaseId(kv.typed, env, format), StoredTables(kv.typed, env, format))
    ensures forall other | other != env ::
              && StoredBaseId(kv.typed, other, format) == StoredBaseId(old(kv.typed), other, format)
              && StoredTables(kv.typed, other, format) == StoredTables(old(kv.typed), other, format)
    ensures kv.wire.faults >= old(kv.wire.faults)
    ensures ok <==> kv.wire.faults == old(kv.wire.faults)
  {
    ghost var before := kv.typed;
    ok := kv.DeleteCache(env);
    forall other: string {
      WipeOfTablesAndBaseId(before, kv.typed, env, other);
    }
  }
}

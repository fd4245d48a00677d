/** The admin operations on one environment, over its database project and the part of the
    key-value store that caches where the data is. Every remote call may fail or be lost. */
module Admin {
  import opened Wrappers
  import opened Remote
  import opened Neon
  import opened Database
  import opened Migrations

  datatype Operation =
    | CreateBase
    | DeleteTheBase
    | ApplyMigrations
    | BackUpNow
    | Restore(kind: BackupKind)
    | WipeCache
    | Visit
    | Edit(records: int)
    | Configure(token: bool, config: bool)

  /** The cached tables give the table IDs that listing the tables of the current base would give. */
  ghost predicate TablesAgree(c: Content, tables: Tables) {
    |c.bases| == 1 && c.bases[0].baseId in c.noco && SameIds(tables, c.noco[c.bases[0].baseId].tables)
  }

  /** There is a base to read, and all its required tables are there. */
  predicate Readable(c: Content) {
    GetBase(c).Some? && GetBase(c).value in c.noco && Complete(c.noco[GetBase(c).value].tables)
  }

  lemma BaseIsReadable(c: Content, baseId: BaseId, v: Version)
    requires At(c, baseId, v) && Complete(c.noco[baseId].tables)
    ensures Readable(c)
  {
    RecordedVersionIsApplied(c, c.bases[0], v);
  }

  /** The backups an operation may replace. */
  function Replaces(operation: Operation): set<BackupSnapshot> {
    match operation
    case CreateBase => {Checkpoint, Migration}
    case ApplyMigrations => {Checkpoint, Migration}
    case DeleteTheBase => {Checkpoint, BaseDeletion}
    case BackUpNow => {Deployment}
    case Restore(_) => {ManualRestore}
    case _ => {}
  }

  ghost predicate IsReady(c: Content) {
    GetBase(c).Some? && Ready(c, GetBase(c).value, GetCurrentMigration(c))
  }

  ghost predicate OneBase(project: Project<Content>)
    reads project
  {
    forall d :: project.Holds(d) ==> |d.bases| <= 1
  }

  /** A cached base ID, if there is one, is that of the row. */
  predicate BaseIdFits(c: Content, baseId: Option<BaseId>) {
    baseId.Some? ==> GetBase(c) == baseId
  }

  /** Cached tables, if they are all there, are those of the base. */
  ghost predicate TablesFit(c: Content, tables: Option<Tables>) {
    tables.Some? && Complete(tables.value) ==> TablesAgree(c, tables.value)
  }

  /** What is cached and trusted is right. */
  ghost predicate CacheAgrees(
      c: Content, baseId: Option<BaseId>, tables: Option<Tables>, trusted: bool, tablesTrusted: bool) {
    (trusted ==> BaseIdFits(c, baseId)) && (trusted && tablesTrusted ==> TablesFit(c, tables))
  }

  /** What a wipe of the cache leaves of a cached base ID and cached tables: each is as it was or gone, and both are
      gone if the wipe succeeds. */
  predicate CacheWiped(
      ok: bool, baseId: Option<BaseId>, tables: Option<Tables>, baseId': Option<BaseId>, tables': Option<Tables>) {
    && baseId' in {baseId, None} && tables' in {tables, None}
    && (ok ==> baseId' == None && tables' == None)
  }

  /** What a migration of the base that was found leaves, from a database that was consistent unless `complete` is
      false: a consistent one, and a cache that is as right as before. */
  lemma MigrationKeeps(
      before: Content, after: Content, base: BaseId, reached: Version, complete: bool, baseId: Option<BaseId>,
      tables: Option<Tables>, trusted: bool, tablesTrusted: bool)
    requires CacheAgrees(before, baseId, tables, trusted, tablesTrusted) && after.bases == before.bases
    requires complete ==> Consistent(before) && Progress(before, after, base, GetCurrentMigration(before), reached)
    ensures CacheAgrees(after, baseId, tables, trusted, tablesTrusted && complete)
    ensures complete ==> Consistent(after)
    ensures complete && GetBase(before) == Some(base) ==>
              At(before, base, GetCurrentMigration(before)) && At(after, base, reached)
  {
    assert GetBase(after) == GetBase(before);
    if complete {
      ProgressKeepsConsistent(before, after, base, reached, tables);
    }
  }

  /** Migrations that are not left half done keep a consistent database consistent, and the cached tables right. */
  lemma ProgressKeepsConsistent(before: Content, after: Content, base: BaseId, reached: Version, tables: Option<Tables>)
    requires Consistent(before) && Progress(before, after, base, GetCurrentMigration(before), reached)
    ensures Consistent(after)
    ensures TablesFit(before, tables) ==> TablesFit(after, tables)
    ensures GetBase(before) == Some(base) ==> At(before, base, GetCurrentMigration(before)) && At(after, base, reached)
  {
    KnownOrAbsent(before, base);
  }

  /** What there is of an environment: its database and backups, what is cached, and its settings. */
  datatype World = World(
    data: Content, backups: map<BackupSnapshot, Content>, baseId: Option<BaseId>, tables: Option<Tables>,
    hasToken: bool, hasConfig: bool, trusted: bool)

  ghost predicate IsBackup(w: World, kind: BackupSnapshot, c: Content) {
    kind in w.backups && w.backups[kind] == c
  }

  /** There is a base to be found, cached or not. */
  predicate HasBase(w: World) {
    w.hasToken && (w.baseId.Some? || (w.hasConfig && GetBase(w.data).Some?))
  }

  /** The records of one base are others now, if there is a base. */
  ghost predicate Edited(before: Content, after: Content, records: int) {
    if before.noco == map[] then after == before
    else exists base | base in before.noco ::
           after == before.(noco := before.noco[base := before.noco[base].(records := records)])
  }

  /** From the same base, migrated from the version it was at to the latest. */
  ghost predicate BroughtUpToDate(before: Content, after: Content) {
    exists base :: At(before, base, GetCurrentMigration(before))
                   && At(after, base, Max(GetCurrentMigration(before), LATEST))
  }

  /** What an operation that succeeds has done. */
  ghost predicate Done(operation: Operation, before: World, after: World) {
    match operation
    case CreateBase =>
      && before.hasToken && before.hasConfig
      && (Consistent(before.data) ==> Empty(before.data) && exists base :: At(after.data, base, LATEST))
    case DeleteTheBase =>
      && before.hasToken && before.hasConfig
      && IsBackup(after, BaseDeletion, before.data) && after.baseId == None && after.tables == None
      && (Consistent(before.data) ==> Empty(after.data))
    case ApplyMigrations =>
      && before.hasToken && before.hasConfig
      && IsBackup(after, Migration, before.data)
      && (before.trusted && Consistent(before.data) ==> BroughtUpToDate(before.data, after.data))
    case BackUpNow => HasBase(before) && IsBackup(after, Deployment, before.data) && after.data == before.data
    case Restore(kind) => IsBackup(before, Source(kind), after.data) && IsBackup(after, ManualRestore, before.data)
    case WipeCache => after == before.(baseId := None, tables := None, trusted := true)
    case Visit => HasBase(before) && after.data == before.data
    case Edit(records) => Edited(before.data, after.data, records)
    case Configure(token, config) => after == before.(hasToken := token, hasConfig := config)
  }

  /** From here the operation succeeds if no call fails. */
  ghost predicate IsPossible(operation: Operation, w: World) {
    match operation
    case CreateBase => w.hasToken && w.hasConfig && Empty(w.data)
    case DeleteTheBase => w.hasToken && w.hasConfig && w.trusted && Consistent(w.data) && !Empty(w.data)
    case ApplyMigrations => w.hasToken && w.hasConfig && w.trusted && IsReady(w.data)
    case BackUpNow => HasBase(w)
    case Restore(kind) => Source(kind) in w.backups
    case Visit => w.hasToken && w.hasConfig && w.trusted && Readable(w.data)
    case _ => true
  }

  /** Whether an operation left a cached base ID, or cached tables, of another database behind. */
  datatype Stale = Stale(baseId: bool, tables: bool)

  class Environment {
    const project: Project<Content>
    var baseId: Option<BaseId>   // cached in KV
    var tables: Option<Tables>   // cached in KV
    var hasToken: bool           // whether an API token is stored
    var hasConfig: bool          // whether the connection to Postgres is configured
    ghost var trusted: bool        // the cache was wiped after the last restore
    ghost var tablesTrusted: bool  // it was wiped after the last failed rollback that may have changed tables

    /** No content anywhere has two base rows. While they are trusted, the cached base ID is that of the row and the
        cached tables are its tables. */
    ghost predicate Valid()
      reads this, project
    {
      && project.Valid()
      && OneBase(project)
      && CacheAgrees(project.data, baseId, tables, trusted, tablesTrusted)
    }

    predicate Configured()
      reads this
    {
      hasToken && hasConfig
    }

    constructor ()
      ensures Valid() && trusted && tablesTrusted && Empty(project.data) && Clean(project) && !hasToken && !hasConfig
      ensures fresh(project) && fresh(project.wire)
    {
      var wire := new Wire();
      project := new Project<Content>(Content([], [], 0, map[]), wire);
      baseId, tables, hasToken, hasConfig := None, None, false, false;
      trusted, tablesTrusted := true, true;
    }

    constructor With(project: Project<Content>, baseId: BaseId)
      requires project.Valid() && OneBase(project)
      requires GetBase(project.data) == Some(baseId)
      ensures Valid() && trusted && tablesTrusted && this.project == project && this.baseId == Some(baseId)
      ensures tables == None && Configured()
    {
      this.project, this.baseId := project, Some(baseId);
      tables, hasToken, hasConfig := None, true, true;
      trusted, tablesTrusted := true, true;
    }

    ghost function Seen(): World
      requires Valid()
      reads this, project
    {
      World(project.data, project.Backups(), baseId, tables, hasToken, hasConfig, trusted)
    }

    predicate BaseIdRight()
      reads this, project
    {
      BaseIdFits(project.data, baseId)
    }

    ghost predicate TablesRight()
      reads this, project
    {
      TablesFit(project.data, tables)
    }

    /** The backup of a kind, if there is one, has the base whose ID is cached, if one is. */
    ghost predicate SameBase(kind: BackupKind)
      requires project.Valid()
      reads this, project
    {
      project.Live(Source(kind)).Some? ==> BaseIdFits(project.Live(Source(kind)).value, baseId)
    }

    ghost predicate SameTables(kind: BackupKind)
      requires project.Valid()
      reads this, project
    {
      project.Live(Source(kind)).Some? ==> TablesFit(project.Live(Source(kind)).value, tables)
    }

    /** Wipes the cached data, then the tables, then the base ID, and stops at the first failure. */
    method DeleteCache() returns (ok: bool)
      requires Valid()
      modifies this`baseId, this`tables, this`trusted, this`tablesTrusted, project.wire
      ensures Valid()
      ensures CacheWiped(ok, old(baseId), old(tables), baseId, tables)
      ensures ok ==> trusted && tablesTrusted
      ensures !ok ==> trusted == old(trusted) && tablesTrusted == old(tablesTrusted)
      ensures project.wire.faults >= old(project.wire.faults)
      ensures ok <==> project.wire.faults == old(project.wire.faults)
    {
      var reply := project.wire.Call();  // the data keys, none of which matter here
      if !reply.Succeeded? {
        return false;
      }
      reply := project.wire.Call();
      if !reply.Refused? {
        tables := None;
      }
      if !reply.Succeeded? {
        return false;
      }
      reply := project.wire.Call();
      if !reply.Refused? {
        baseId := None;
      }
      ok := reply.Succeeded?;
      if ok {
        trusted, tablesTrusted := true, true;
      }
    }

    /** The current base ID: from KV, else from the config tables, in which case it is cached. */
    method FromEnvName() returns (r: Result<BaseId, Error>)
      requires Valid()
      modifies this`baseId, project.wire
      ensures Valid()
      ensures r.Success? && trusted ==> GetBase(project.data) == Some(r.value)
      ensures r.Success? ==> (old(baseId) == None ==> GetBase(project.data) == Some(r.value))
      ensures r.Failure? ==> r.error in {Internal, NoBaseId, NoApiToken, MissingEnvConfig}
      ensures r == Failure(NoApiToken) ==> !hasToken
      ensures r == Failure(MissingEnvConfig) ==> !hasConfig && old(baseId) == None
      ensures r == Failure(NoBaseId) ==> GetBase(project.data) == None && old(baseId) == None
      ensures r.Success? ==> HasBase(old(Seen())) && (old(baseId).Some? ==> Some(r.value) == old(baseId))
      ensures r.Success? && project.wire.tolerated == old(project.wire.tolerated) ==> baseId == Some(r.value)
      ensures project.wire.faults >= old(project.wire.faults)
      ensures r == Failure(Internal) <==> project.wire.faults > old(project.wire.faults)
    {
      var reply := project.wire.Call();
      if !reply.Succeeded? {
        return Failure(Internal);
      }
      if !hasToken {
        return Failure(NoApiToken);
      }
      if baseId.Some? {
        return Success(baseId.value);
      }
      if !hasConfig {
        return Failure(MissingEnvConfig);
      }
      reply := project.wire.Call();
      if !reply.Succeeded? {
        return Failure(Internal);
      }
      var row := GetBase(project.data);
      if row.None? {
        return Failure(NoBaseId);
      }
      reply := project.wire.Call();
      if !reply.Refused? {
        baseId := row;
      }
      if !reply.Succeeded? {
        project.wire.Tolerate();
      }
      return Success(row.value);
    }

    /** The table IDs: from KV if they are all there, else listed afresh and cached. */
    method GetTableIds(base: BaseId) returns (r: Result<Tables, Error>)
      requires Valid()
      requires trusted ==> GetBase(project.data) == Some(base)
      modifies this`tables, project.wire
      ensures Valid()
      ensures r.Success? && trusted && tablesTrusted ==> TablesAgree(project.data, r.value)
      ensures r.Success? ==> Complete(r.value) && tables == Some(r.value)
      ensures r.Success? && project.wire.tolerated == old(project.wire.tolerated) ==>
                old(tables).Some? && Complete(old(tables).value) ==> r.value == old(tables).value
      ensures r.Success? ==>
                Some(r.value) == old(tables) || (base in project.data.noco && r.value == project.data.noco[base].tables)
      ensures project.wire.faults >= old(project.wire.faults)
      ensures r.Success? ==> project.wire.faults == old(project.wire.faults)
      ensures r.Failure? && base in project.data.noco && Complete(project.data.noco[base].tables) ==>
                project.wire.faults > old(project.wire.faults)
      ensures r.Failure? ==> r.error == Internal
    {
      var reply := project.wire.Call();
      if reply.Succeeded? && tables.Some? && Complete(tables.value) {
        return Success(tables.value);
      }
      if !reply.Succeeded? {
        project.wire.Tolerate();
      }
      reply := project.wire.Call();
      if !reply.Succeeded? || base !in project.data.noco {
        return Failure(Internal);
      }
      var listed := project.data.noco[base].tables;
      reply := project.wire.Call();
      if !reply.Refused? {
        tables := Some(listed);
      }
      if !reply.Succeeded? || !Complete(listed) {
        return Failure(Internal);
      }
      return Success(listed);
    }

    method GetTables() returns (r: Result<Tables, Error>)
      requires Valid()
      modifies this`baseId, this`tables, project.wire
      ensures Valid()
      ensures r.Success? && trusted && tablesTrusted ==> TablesAgree(project.data, r.value)
      ensures project.wire.faults >= old(project.wire.faults)
      ensures r.Success? ==> project.wire.faults == old(project.wire.faults)
      ensures r.Failure? && trusted && Configured() && Readable(project.data) ==>
                project.wire.faults > old(project.wire.faults)
      ensures r.Success? ==> HasBase(old(Seen()))
      ensures r != Failure(RestoreFailed)
    {
      var base := FromEnvName();
      if base.Failure? {
        return Failure(base.error);
      }
      r := GetTableIds(base.value);
    }

    method PostBackup() returns (r: Result<(), Error>)
      requires Valid()
      modifies this`baseId, project`snapshots, project`latest, project.wire
      ensures Valid()
      ensures r.Success? ==> project.Live(Deployment) == Some(project.data)
      ensures forall k :: k != Deployment ==> project.Live(k) == old(project.Live(k))
      ensures project.wire.faults >= old(project.wire.faults)
      ensures r.Success? ==> project.wire.faults == old(project.wire.faults)
      ensures old(Clean(project)) ==> Clean(project)
      ensures r.Success? ==> Done(BackUpNow, old(Seen()), Seen())
      ensures r.Failure? && IsPossible(BackUpNow, old(Seen())) ==> project.wire.faults > old(project.wire.faults)
    {
      var base := FromEnvName();
      if base.Failure? {
        return Failure(base.error);
      }
      r := BackUp(Deployment);
    }

    method BackUp(kind: BackupSnapshot) returns (r: Result<(), Error>)
      requires Valid() && !kind.Archived?
      modifies project`snapshots, project`latest, project.wire
      ensures Valid()
      ensures r.Success? ==> project.Live(kind) == Some(project.data)
      ensures forall k :: k != kind ==> project.Live(k) == old(project.Live(k))
      ensures r.Failure? ==> r.error == Internal
      ensures project.wire.faults >= old(project.wire.faults)
      ensures r.Success? <==> project.wire.faults == old(project.wire.faults)
      ensures old(Clean(project)) ==> Clean(project)
    {
      var found := project.LookupProject();
      if !found {
        return Failure(Internal);
      }
      var backup := project.CreateBackup(kind);
      r := if backup.Success? then Success(()) else Failure(backup.error);
    }

    /** Applies the missing migrations to the current base. */
    method ApplyMigration() returns (r: Result<(Version, Version), Error>)
      requires Valid()
      modifies this`baseId, this`tablesTrusted, project, project.wire
      ensures Valid()
      ensures forall k :: k != Checkpoint && k != Migration ==> project.Live(k) == old(project.Live(k))
      ensures old(Clean(project)) && r != Failure(RestoreFailed) ==> Clean(project)
      ensures old(Consistent(project.data)) && r != Failure(RestoreFailed) ==> Consistent(project.data)
      ensures old(Consistent(project.data)) && r != Failure(RestoreFailed) ==> tablesTrusted == old(tablesTrusted)
      ensures r.Success? && old(Consistent(project.data)) && trusted ==>
                exists b :: At(old(project.data), b, r.value.0) && At(project.data, b, r.value.1)
      ensures r.Success? ==> r.value == (old(GetCurrentMigration(project.data)), Max(r.value.0, LATEST))
      ensures r.Success? ==> project.Live(Migration) == Some(old(project.data))
      ensures project.data.bases == old(project.data.bases)
      ensures project.wire.faults >= old(project.wire.faults)
      ensures r.Success? ==> project.wire.faults == old(project.wire.faults)
      ensures r.Success? ==> Done(ApplyMigrations, old(Seen()), Seen())
      ensures r.Failure? && IsPossible(ApplyMigrations, old(Seen())) ==> project.wire.faults > old(project.wire.faults)
    {
      var base := FromEnvName();
      if base.Failure? {
        return Failure(base.error);
      }
      r := MigrateFrom(base.value);
    }

    /** The migration of the base that was found. */
    method MigrateFrom(base: BaseId) returns (r: Result<(Version, Version), Error>)
      requires Valid() && (trusted ==> GetBase(project.data) == Some(base))
      modifies this`tablesTrusted, project, project.wire
      ensures Valid()
      ensures forall k :: k != Checkpoint && k != Migration ==> project.Live(k) == old(project.Live(k))
      ensures old(Clean(project)) && r != Failure(RestoreFailed) ==> Clean(project)
      ensures old(Consistent(project.data)) && r != Failure(RestoreFailed) ==> Consistent(project.data)
      ensures old(Consistent(project.data)) && r != Failure(RestoreFailed) ==> tablesTrusted == old(tablesTrusted)
      ensures r.Success? && old(Consistent(project.data)) && trusted ==>
                exists b :: At(old(project.data), b, r.value.0) && At(project.data, b, r.value.1)
      ensures r.Success? ==> r.value == (old(GetCurrentMigration(project.data)), Max(r.value.0, LATEST))
      ensures r.Success? ==> project.Live(Migration) == Some(old(project.data))
      ensures project.data.bases == old(project.data.bases)
      ensures project.wire.faults >= old(project.wire.faults)
      ensures r.Success? ==> project.wire.faults == old(project.wire.faults)
      ensures r.Failure? && hasConfig && old(trusted && IsReady(project.data)) ==>
                project.wire.faults > old(project.wire.faults)
      ensures r.Success? ==> hasConfig
      ensures r == Failure(MissingEnvConfig) ==> !hasConfig
    {
      if !hasConfig {
        return Failure(MissingEnvConfig);
      }
      var reply := project.wire.Call();
      if !reply.Succeeded? {
        return Failure(Internal);
      }
      r := MigrateAt(base, GetCurrentMigration(project.data));
    }

    /** The migration from the recorded version. */
    method MigrateAt(base: BaseId, version: Version) returns (r: Result<(Version, Version), Error>)
      requires Valid() && (trusted ==> GetBase(project.data) == Some(base))
      requires version == GetCurrentMigration(project.data)
      modifies this`tablesTrusted, project, project.wire
      ensures Valid()
      ensures forall k :: k != Checkpoint && k != Migration ==> project.Live(k) == old(project.Live(k))
      ensures old(Clean(project)) && r != Failure(RestoreFailed) ==> Clean(project)
      ensures old(Consistent(project.data)) && r != Failure(RestoreFailed) ==> Consistent(project.data)
      ensures old(Consistent(project.data)) && r != Failure(RestoreFailed) ==> tablesTrusted == old(tablesTrusted)
      ensures r.Success? && old(Consistent(project.data)) && trusted ==>
                exists b :: At(old(project.data), b, version) && At(project.data, b, r.value.1)
      ensures r.Success? ==> r.value == (version, Max(version, LATEST))
      ensures r.Success? ==> project.Live(Migration) == Some(old(project.data))
      ensures project.data.bases == old(project.data.bases)
      ensures project.wire.faults >= old(project.wire.faults)
      ensures r.Success? ==> project.wire.faults == old(project.wire.faults)
      ensures r.Failure? && old(trusted && IsReady(project.data)) ==> project.wire.faults > old(project.wire.faults)
      ensures r.Failure? ==> r.error in {Internal, RestoreFailed}
    {
      ghost var before, consistent := project.data, Consistent(project.data);
      if consistent {
        KnownOrAbsent(before, base);
      }
      var migrated: Result<Version, Error>;
      ghost var reached: Version;
      migrated, reached := Migrate(project, base, version);
      ghost var complete := consistent && migrated != Failure(RestoreFailed);
      MigrationKeeps(before, project.data, base, reached, complete, baseId, tables, trusted, tablesTrusted);
      tablesTrusted := tablesTrusted && complete;
      r := if migrated.Success? then Success((version, migrated.value)) else Failure(migrated.error);
    }

    /** Backs up, wipes the cache, then deletes the NocoDB base and its row under a rollback. */
    method DeleteBase() returns (r: Result<(), Error>)
      requires Valid()
      modifies this`baseId, this`tables, this`trusted, this`tablesTrusted, project, project.wire
      ensures Valid()
      ensures forall k :: k != Checkpoint && k != BaseDeletion ==> project.Live(k) == old(project.Live(k))
      ensures r.Success? ==> project.Live(BaseDeletion) == Some(old(project.data))
      ensures r.Success? && old(Consistent(project.data)) ==> Empty(project.data)
      ensures r.Success? ==> baseId == None && tables == None && trusted && tablesTrusted
      ensures r.Failure? && r.error != RestoreFailed ==> project.data == old(project.data)
      ensures old(Clean(project)) && r != Failure(RestoreFailed) ==> Clean(project)
      ensures (old(trusted) ==> trusted) && (old(tablesTrusted) ==> tablesTrusted)
      ensures project.wire.faults >= old(project.wire.faults)
      ensures r.Success? ==> project.wire.faults == old(project.wire.faults)
      ensures r.Success? ==> Done(DeleteTheBase, old(Seen()), Seen())
      ensures r.Failure? && IsPossible(DeleteTheBase, old(Seen())) ==> project.wire.faults > old(project.wire.faults)
    {
      var base := FromEnvName();
      if base.Failure? {
        return Failure(base.error);
      }
      var prepared := BackUpAndWipe();
      if prepared.Failure? {
        return Failure(Internal);
      }
      r := DeleteUnderRollback(base.value);
    }

    /** What comes before the deletion: a backup, and a wipe of the cache. */
    method BackUpAndWipe() returns (r: Result<(), Error>)
      requires Valid()
      modifies this`baseId, this`tables, this`trusted, this`tablesTrusted
      modifies project`snapshots, project`latest, project.wire
      ensures Valid()
      ensures forall k :: k != BaseDeletion ==> project.Live(k) == old(project.Live(k))
      ensures r.Success? ==> project.Live(BaseDeletion) == Some(project.data)
      ensures r.Success? ==> baseId == None && tables == None && trusted && tablesTrusted
      ensures old(Clean(project)) ==> Clean(project)
      ensures (old(trusted) ==> trusted) && (old(tablesTrusted) ==> tablesTrusted)
      ensures project.wire.faults >= old(project.wire.faults)
      ensures r.Success? <==> project.wire.faults == old(project.wire.faults)
    {
      var backup := BackUp(BaseDeletion);
      if backup.Failure? {
        return Failure(Internal);
      }
      var wiped := DeleteCache();
      if !wiped {
        return Failure(Internal);
      }
      r := Success(());
    }

    method DeleteUnderRollback(base: BaseId) returns (r: Result<(), Error>)
      requires Valid() && trusted && baseId == None && tables == None
      modifies project, project.wire
      ensures Valid()
      ensures forall k :: k != Checkpoint ==> project.Live(k) == old(project.Live(k))
      ensures r.Success? && old(Consistent(project.data)) ==> Empty(project.data)
      ensures r.Failure? && r.error != RestoreFailed ==> project.data == old(project.data)
      ensures old(Clean(project)) && r != Failure(RestoreFailed) ==> Clean(project)
      ensures r.Failure? ==> r.error in {Internal, RestoreFailed, MissingEnvConfig}
      ensures project.wire.faults >= old(project.wire.faults)
      ensures r.Success? ==> project.wire.faults == old(project.wire.faults)
      ensures r.Failure? && hasConfig && base in old(project.data.noco) ==>
                project.wire.faults > old(project.wire.faults)
      ensures r.Success? ==> hasConfig
      ensures r == Failure(MissingEnvConfig) ==> !hasConfig
    {
      if !hasConfig {
        return Failure(MissingEnvConfig);
      }
      var reply := project.wire.Call();
      if !reply.Succeeded? {
        return Failure(Internal);
      }
      var t := project.Begin();
      if t.Failure? {
        return Failure(Internal);
      }
      var outcome := DeleteBaseAndRow(base);
      r := project.End(t.value, outcome);
    }

    /** The operation `DeleteBase` protects. NocoDB refuses to delete a base it does not have. */
    method DeleteBaseAndRow(base: BaseId) returns (r: Result<(), Error>)
      requires project.Valid()
      modifies project`data, project.wire
      ensures project.Valid()
      ensures forall k :: project.Live(k) == old(project.Live(k))
      ensures r.Success? && old(Consistent(project.data)) ==> Empty(project.data)
      ensures |project.data.bases| <= |old(project.data.bases)|
      ensures r.Failure? ==> r.error == Internal
      ensures project.wire.faults >= old(project.wire.faults)
      ensures r.Success? ==> project.wire.faults == old(project.wire.faults)
      ensures r.Failure? && base in old(project.data.noco) ==> project.wire.faults > old(project.wire.faults)
    {
      if Consistent(project.data) && base in project.data.noco {
        KnownOrAbsent(project.data, base);
        BaseDeletedThenRow(project.data, project.data.bases[0], GetCurrentMigration(project.data));
      }
      var reply := project.wire.Call();
      if base !in project.data.noco {
        return Failure(Internal);
      }
      if !reply.Refused? {
        project.data := project.data.(noco := project.data.noco - {base});
      }
      if !reply.Succeeded? {
        return Failure(Internal);
      }
      var ok := Execute(project, Some(Database.DeleteBase(project.data, base)));
      r := if ok then Success(()) else Failure(Internal);
    }

    /** Makes way for a new base. An existing base is an error and nothing changes; a row whose base
        was deleted behind the server's back is dropped, and the cache wiped before it. */
    method DropOrphanedRow() returns (r: Result<(), Error>)
      requires Valid()
      modifies this`baseId, this`tables, this`trusted, this`tablesTrusted, project`data, project.wire
      ensures Valid()
      ensures forall k :: project.Live(k) == old(project.Live(k))
      ensures (old(trusted) ==> trusted) && (old(tablesTrusted) ==> tablesTrusted)
      ensures r.Success? ==> project.data.bases == []
      ensures r == Failure(BaseAlreadyExists) || old(Consistent(project.data)) ==> project.data == old(project.data)
      ensures r == Failure(BaseAlreadyExists) ==>
                GetBase(project.data).Some? && GetBase(project.data).value in project.data.noco
      ensures old(Empty(project.data)) ==> project.data == old(project.data)
      ensures r.Success? && old(Consistent(project.data)) ==> Empty(project.data)
      ensures project.data.noco == old(project.data.noco)
      ensures r.Failure? ==> r.error in {Internal, BaseAlreadyExists}
      ensures project.wire.faults >= old(project.wire.faults)
      ensures r.Success? ==> project.wire.faults == old(project.wire.faults)
      ensures r.Failure? && r.error != BaseAlreadyExists ==> project.wire.faults > old(project.wire.faults)
    {
      var reply := project.wire.Call();
      if !reply.Succeeded? {
        return Failure(Internal);
      }
      var existing := GetBase(project.data);
      if existing.None? {
        return Success(());
      }
      reply := project.wire.Call();
      if !reply.Succeeded? {
        return Failure(Internal);
      }
      if Consistent(project.data) {
        KnownOrAbsent(project.data, existing.value);
      }
      if existing.value in project.data.noco {
        return Failure(BaseAlreadyExists);
      }
      var wiped := DeleteCache();
      if !wiped {
        return Failure(Internal);
      }
      var ok := Execute(project, Some(Database.DeleteBase(project.data, existing.value)));
      r := if ok then Success(()) else Failure(Internal);
    }

    method PostBase() returns (r: Result<BaseId, Error>)
      requires Valid()
      modifies this`baseId, this`tables, this`trusted, this`tablesTrusted, project, project.wire
      ensures Valid()
      ensures forall k :: k != Checkpoint && k != Migration ==> project.Live(k) == old(project.Live(k))
      ensures old(Clean(project)) && r != Failure(RestoreFailed) ==> Clean(project)
      ensures old(Consistent(project.data)) && r != Failure(RestoreFailed) ==> Consistent(project.data)
      ensures r.Success? && old(Consistent(project.data)) ==>
                old(Empty(project.data)) && At(project.data, r.value, LATEST) && Readable(project.data)
      ensures r == Failure(NoApiToken) <==> !hasToken
      ensures r == Failure(MissingEnvConfig) <==> hasToken && !hasConfig
      ensures r == Failure(BaseAlreadyExists) ==> project.data == old(project.data)
      ensures old(Consistent(project.data)) && old(!Empty(project.data)) ==>
                r.Failure? && project.data == old(project.data)
      ensures (old(trusted) ==> trusted) && (old(tablesTrusted) ==> tablesTrusted)
      ensures project.wire.faults >= old(project.wire.faults)
      ensures r.Success? ==> project.wire.faults == old(project.wire.faults)
      ensures r.Success? ==> Done(CreateBase, old(Seen()), Seen())
      ensures r.Failure? && IsPossible(CreateBase, old(Seen())) ==> project.wire.faults > old(project.wire.faults)
    {
      if !hasToken {
        return Failure(NoApiToken);
      }
      if !hasConfig {
        return Failure(MissingEnvConfig);
      }
      var cleared := DropOrphanedRow();
      if cleared.Failure? {
        return Failure(cleared.error);
      }
      r := CreateWhereNoneIs();
    }

    /** The creation, once there is no row. */
    method CreateWhereNoneIs() returns (r: Result<BaseId, Error>)
      requires Valid() && project.data.bases == []
      modifies project, project.wire
      ensures Valid()
      ensures forall k :: k != Checkpoint && k != Migration ==> project.Live(k) == old(project.Live(k))
      ensures old(Clean(project)) && r != Failure(RestoreFailed) ==> Clean(project)
      ensures old(Empty(project.data)) && r != Failure(RestoreFailed) ==> Consistent(project.data)
      ensures r.Success? && old(Empty(project.data)) ==>
                At(project.data, r.value, LATEST) && Readable(project.data)
      ensures r.Failure? ==> r.error in {Internal, RestoreFailed}
      ensures project.wire.faults >= old(project.wire.faults)
      ensures r.Success? ==> project.wire.faults == old(project.wire.faults)
      ensures r.Failure? && old(Empty(project.data)) ==> project.wire.faults > old(project.wire.faults)
    {
      var reply := project.wire.Call();
      if !reply.Succeeded? {
        return Failure(Internal);
      }
      ghost var wasEmpty := Empty(project.data);
      assert Clean(project) ==> wasEmpty by {
        assert project.Holds(project.data);
      }
      var created := CreateBaseAndMigrate(project);
      if wasEmpty && created.Success? {
        BaseIsReadable(project.data, created.value.0, LATEST);
      }
      r := if created.Success? then Success(created.value.0) else Failure(created.error);
    }

    /** Puts back the content of a backup, then wipes the cache. A restore that takes effect and then ends in an error,
        be it a lost reply or a failing wipe, leaves what it did not wipe of the cache right exactly when the backup
        has the same base and the same tables. */
    method PostRestoreBackup(kind: BackupKind) returns (r: Result<(), Error>)
      requires Valid()
      modifies this`baseId, this`tables, this`trusted, this`tablesTrusted, project, project.wire
      ensures Valid()
      ensures r.Success? ==> Done(Restore(kind), old(Seen()), Seen())
      ensures r.Success? || r == Failure(StaleCache) ==>
                && old(project.Live(Source(kind))) == Some(project.data)
                && project.Live(ManualRestore) == Some(old(project.data))
      ensures r.Success? ==> trusted && tablesTrusted
      ensures old(trusted) && (project.data == old(project.data) || old(SameBase(kind))) ==> trusted
      ensures old(tablesTrusted) && (project.data == old(project.data) || old(SameTables(kind))) ==> tablesTrusted
      ensures r.Failure? && project.data != old(project.data) && baseId == old(baseId) ==>
                (BaseIdRight() <==> old(SameBase(kind)))
      ensures r.Failure? && project.data != old(project.data) && tables == old(tables) ==>
                (TablesRight() <==> old(SameTables(kind)))
      ensures old(project.Live(Source(kind))) == None ==> r.Failure? && project.data == old(project.data)
      ensures project.data == old(project.data) || old(project.Live(Source(kind))) == Some(project.data)
      ensures forall k :: k != ManualRestore ==> project.Live(k) == old(project.Live(k))
      ensures old(Clean(project)) ==> Clean(project)
      ensures r.Failure? ==> r.error in {Internal, NoSnapshot, StaleCache}
      ensures project.wire.faults >= old(project.wire.faults)
      ensures r.Success? ==> project.wire.faults == old(project.wire.faults)
      ensures r.Failure? && old(project.Live(Source(kind))).Some? ==> project.wire.faults > old(project.wire.faults)
    {
      var restored := RestoreContent(kind);
      if restored.Failure? {
        return restored;
      }
      var wiped := DeleteCache();
      if !wiped {
        return Failure(StaleCache);
      }
      var reply := project.wire.Call();  // purging the edge cache
      r := if reply.Succeeded? then Success(()) else Failure(Internal);
    }

    /** The restore of the database, before the cache is wiped. */
    method RestoreContent(kind: BackupKind) returns (r: Result<(), Error>)
      requires Valid()
      modifies this`trusted, this`tablesTrusted, project, project.wire
      ensures Valid()
      ensures r.Success? ==>
                && old(project.Live(Source(kind))) == Some(project.data)
                && project.Live(ManualRestore) == Some(old(project.data))
      ensures project.data == old(project.data) || old(project.Live(Source(kind))) == Some(project.data)
      ensures trusted == (old(trusted) && (project.data == old(project.data) || old(SameBase(kind))))
      ensures tablesTrusted == (old(tablesTrusted) && (project.data == old(project.data) || old(SameTables(kind))))
      ensures old(project.Live(Source(kind))) == None ==> r.Failure? && project.data == old(project.data)
      ensures forall k :: k != ManualRestore ==> project.Live(k) == old(project.Live(k))
      ensures old(Clean(project)) ==> Clean(project)
      ensures r.Failure? ==> r.error in {Internal, NoSnapshot}
      ensures project.wire.faults >= old(project.wire.faults)
      ensures r.Success? ==> project.wire.faults == old(project.wire.faults)
      ensures r.Failure? && old(project.Live(Source(kind))).Some? ==> project.wire.faults > old(project.wire.faults)
    {
      ghost var before, sameBase, sameTables := project.data, SameBase(kind), SameTables(kind);
      r := project.RestoreBackup(kind);
      if project.data != before {
        trusted, tablesTrusted := trusted && sameBase, tablesTrusted && sameTables;
      }
    }

    /** The organizers change the records of the base. */
    method EditRecords(records: int)
      requires Valid()
      modifies project`data
      ensures Valid()
      ensures forall k :: project.Live(k) == old(project.Live(k))
      ensures project.data.bases == old(project.data.bases)
      ensures old(Consistent(project.data)) ==> Consistent(project.data)
      ensures Edited(old(project.data), project.data, records)
      ensures forall d :: Captured(project.snapshots, d) ==> old(project.Holds(d))
    {
      if base :| base in project.data.noco {
        var before := project.data;
        project.data := before.(noco := before.noco[base := before.noco[base].(records := records)]);
        if Consistent(before) {
          KnownOrAbsent(before, base);
          assert At(project.data, base, GetCurrentMigration(before));
        }
      }
    }

    /** The operations that Neon snapshots protect. */
    method PerformProtected(operation: Operation) returns (error: Option<Error>)
      requires Valid() && operation in {CreateBase, DeleteTheBase, ApplyMigrations, BackUpNow}
      modifies this`baseId, this`tables, this`trusted, this`tablesTrusted, project, project.wire
      ensures Valid()
      ensures forall k | k !in Replaces(operation) :: project.Live(k) == old(project.Live(k))
      ensures old(Clean(project)) && error != Some(RestoreFailed) ==> Clean(project)
      ensures old(Consistent(project.data)) && error != Some(RestoreFailed) ==> Consistent(project.data)
      ensures error.None? ==> Done(operation, old(Seen()), Seen())
      ensures error.Some? && IsPossible(operation, old(Seen())) ==> project.wire.faults > old(project.wire.faults)
      ensures old(trusted) ==> trusted
      ensures old(tablesTrusted && Consistent(project.data)) && error != Some(RestoreFailed) ==> tablesTrusted
      ensures project.wire.faults >= old(project.wire.faults)
      ensures error.None? ==> project.wire.faults == old(project.wire.faults)
    {
      match operation {
        case CreateBase =>
          var r := PostBase();
          error := ErrorOf(r);
        case DeleteTheBase =>
          var r := DeleteBase();
          error := ErrorOf(r);
        case ApplyMigrations =>
          var r := ApplyMigration();
          error := ErrorOf(r);
        case BackUpNow =>
          var r := PostBackup();
          error := ErrorOf(r);
      }
    }

    /** The operations that touch no snapshot. */
    method PerformSimple(operation: Operation) returns (error: Option<Error>)
      requires Valid() && (operation in {WipeCache, Visit} || operation.Edit? || operation.Configure?)
      modifies this, project`data, project.wire
      ensures Valid()
      ensures forall k :: project.Live(k) == old(project.Live(k))
      ensures forall d :: project.Holds(d) ==> old(project.Holds(d)) || d == project.data
      ensures old(Consistent(project.data)) ==> Consistent(project.data)
      ensures error.None? ==> Done(operation, old(Seen()), Seen())
      ensures error.Some? && IsPossible(operation, old(Seen())) ==> project.wire.faults > old(project.wire.faults)
      ensures error != Some(RestoreFailed)
      ensures old(trusted) ==> trusted
      ensures old(tablesTrusted) ==> tablesTrusted
      ensures project.wire.faults >= old(project.wire.faults)
      ensures error.None? ==> project.wire.faults == old(project.wire.faults)
    {
      match operation {
        case WipeCache =>
          var ok := DeleteCache();
          error := if ok then None else Some(Internal);
        case Visit =>
          var r := GetTables();
          error := ErrorOf(r);
        case Edit(records) =>
          EditRecords(records);
          error := None;
        case Configure(token, config) =>
          hasToken, hasConfig := token, config;
          error := None;
      }
    }

    /** Carries out an operation and tells how it failed, if it did, and whether it left a cached base ID or cached
        tables of another database behind. */
    method Perform(operation: Operation) returns (error: Option<Error>, ghost stale: Stale)
      requires Valid()
      modifies this, project, project.wire
      ensures Valid()
      ensures forall k | k !in Replaces(operation) :: project.Live(k) == old(project.Live(k))
      ensures old(Clean(project)) && error != Some(RestoreFailed) ==> Clean(project)
      ensures old(Consistent(project.data)) && !operation.Restore? && error != Some(RestoreFailed) ==>
                Consistent(project.data)
      ensures stale.baseId <==>
                && operation.Restore? && error.Some? && project.data != old(project.data)
                && !old(operation.Restore? && SameBase(operation.kind))
      ensures stale.tables <==>
                && operation.Restore? && error.Some? && project.data != old(project.data)
                && !old(operation.Restore? && SameTables(operation.kind))
      ensures error.None? ==> Done(operation, old(Seen()), Seen())
      ensures error.Some? && IsPossible(operation, old(Seen())) ==> project.wire.faults > old(project.wire.faults)
      ensures old(trusted) && !stale.baseId ==> trusted
      ensures old(tablesTrusted && Consistent(project.data)) && error != Some(RestoreFailed) && !stale.tables ==>
                tablesTrusted
      ensures project.wire.faults >= old(project.wire.faults)
      ensures error.None? ==> project.wire.faults == old(project.wire.faults)
    {
      ghost var before := project.data;
      ghost var sameBase := operation.Restore? && SameBase(operation.kind);
      ghost var sameTables := operation.Restore? && SameTables(operation.kind);
      if operation.Restore? {
        var r := PostRestoreBackup(operation.kind);
        error := ErrorOf(r);
      } else if operation in {CreateBase, DeleteTheBase, ApplyMigrations, BackUpNow} {
        error := PerformProtected(operation);
      } else {
        error := PerformSimple(operation);
      }
      ghost var took := operation.Restore? && error.Some? && project.data != before;
      stale := Stale(took && !sameBase, took && !sameTables);
    }

    /** Every run of operations, with failures anywhere, keeps the bookkeeping: unless a rollback fails, every content
        on the default branch and in snapshots stays consistent. The cached base ID stays right unless a restore took
        effect, ended in an error, and brought back another base; so do the cached tables, if no rollback fails. A
        backup that no operation replaces stays what it is in any case. */
    method RunAll(operations: seq<Operation>)
      returns (errors: seq<Option<Error>>, ghost stale: seq<Stale>, ghost worlds: seq<World>)
      requires Valid()
      modifies this, project, project.wire
      ensures Valid() && |errors| == |stale| == |operations|
      ensures IsTrace(operations, errors, stale, worlds) && worlds[0] == old(Seen()) && worlds[|operations|] == Seen()
      ensures project.wire.faults == old(project.wire.faults) ==> NoneFailsInVain(operations, errors, stale, worlds)
      ensures old(Clean(project)) && Some(RestoreFailed) !in errors ==> Clean(project)
      ensures old(Consistent(project.data)) && Some(RestoreFailed) !in errors && NoRestore(operations) ==>
                Consistent(project.data)
      ensures old(trusted) && NoBaseIdStale(stale) ==> trusted
      ensures old(tablesTrusted && Clean(project)) && Some(RestoreFailed) !in errors && NoTablesStale(stale) ==>
                tablesTrusted
      ensures forall k | NoneReplaces(operations, k) :: project.Live(k) == old(project.Live(k))
      ensures project.wire.faults >= old(project.wire.faults)
    {
      errors, stale, worlds := [], [], [Seen()];
      for i := 0 to |operations|
        invariant Valid() && |errors| == |stale| == i
        invariant IsTrace(operations, errors, stale, worlds) && worlds[0] == old(Seen()) && worlds[i] == Seen()
        invariant project.wire.faults == old(project.wire.faults) ==> NoneFailsInVain(operations, errors, stale, worlds)
        invariant project.wire.faults >= old(project.wire.faults)
        invariant old(Clean(project)) && Some(RestoreFailed) !in errors ==> Clean(project)
        invariant old(Consistent(project.data)) && Some(RestoreFailed) !in errors && NoRestore(operations) ==>
                    Consistent(project.data)
        invariant old(trusted) && NoBaseIdStale(stale) ==> trusted
        invariant (old(tablesTrusted && Clean(project)) && Some(RestoreFailed) !in errors && NoTablesStale(stale)) ==>
                    tablesTrusted
        invariant forall k | NoneReplaces(operations, k) :: project.Live(k) == old(project.Live(k))
      {
        var error: Option<Error>;
        ghost var now: Stale;
        error, now := Perform(operations[i]);
        TraceGrows(operations, errors, stale, worlds, error, now, Seen());
        errors, stale, worlds := errors + [error], stale + [now], worlds + [Seen()];
      }
    }

    /** Whatever happens after a consistent backup of a kind, failed rollbacks included, as long as no operation
        replaces it, restoring it brings back a consistent database with nothing stale cached. */
    method Recover(kind: BackupKind, between: seq<Operation>) returns (restored: bool)
      requires Valid() && NoneReplaces(between, Source(kind))
      modifies this, project, project.wire
      ensures Valid()
      ensures restored ==> old(project.Live(Source(kind))) == Some(project.data) && trusted && tablesTrusted
      ensures restored && old(Clean(project)) ==> Consistent(project.data)
      ensures project.wire.faults >= old(project.wire.faults)
      ensures !restored && old(project.Live(Source(kind))).Some? ==> project.wire.faults > old(project.wire.faults)
      ensures project.Live(Source(kind)) == old(project.Live(Source(kind)))
    {
      ghost var backup := project.Live(Source(kind));
      if Clean(project) {
        LiveIsConsistent(Source(kind));
      }
      var _, _, _ := RunAll(between);
      var r := PostRestoreBackup(kind);
      restored := r.Success?;
    }

    lemma LiveIsConsistent(kind: BackupSnapshot)
      requires project.Valid() && Clean(project)
      ensures project.Live(kind).Some? ==> Consistent(project.Live(kind).value)
    {
      if id :| IsLive(project.snapshots, id, kind) {
        assert Captured(project.snapshots, project.snapshots[id].data);
      }
    }

    /** Deleting the base, then doing anything but delete a base again, then restoring the deletion
        backup gives back the database as it was before the deletion. */
    method DeleteThenRestore(between: seq<Operation>) returns (restored: bool)
      requires Valid() && DeleteTheBase !in between
      modifies this, project, project.wire
      ensures Valid()
      ensures restored ==> project.data == old(project.data) && project.Live(BaseDeletion) == Some(project.data)
      ensures project.wire.faults >= old(project.wire.faults)
      ensures !restored && IsPossible(DeleteTheBase, old(Seen())) ==> project.wire.faults > old(project.wire.faults)
    {
      var deleted := DeleteBase();
      if deleted.Failure? {
        return false;
      }
      restored := Recover(DeletionBackup, between);
    }

    /** A deployment backup, then anything but another one, then restoring the deployment backup gives back the
        database as it was at the backup. */
    method BackUpThenRestore(between: seq<Operation>) returns (restored: bool)
      requires Valid() && BackUpNow !in between
      modifies this, project, project.wire
      ensures Valid()
      ensures restored ==> project.data == old(project.data) && project.Live(Deployment) == Some(project.data)
      ensures project.wire.faults >= old(project.wire.faults)
      ensures !restored && IsPossible(BackUpNow, old(Seen())) ==> project.wire.faults > old(project.wire.faults)
    {
      var backedUp := PostBackup();
      if backedUp.Failure? {
        return false;
      }
      restored := Recover(DeploymentBackup, between);
    }

    /** A migration, then anything that migrates no base, then restoring the migration backup gives back the database
        as it was before the migration. */
    method MigrateThenRestore(between: seq<Operation>) returns (restored: bool)
      requires Valid() && CreateBase !in between && ApplyMigrations !in between
      modifies this, project, project.wire
      ensures Valid()
      ensures restored ==> project.data == old(project.data) && project.Live(Migration) == Some(project.data)
      ensures project.wire.faults >= old(project.wire.faults)
      ensures !restored && IsPossible(ApplyMigrations, old(Seen())) ==> project.wire.faults > old(project.wire.faults)
    {
      var migrated := ApplyMigration();
      if migrated.Failure? {
        return false;
      }
      restored := Recover(MigrationBackup, between);
    }
  }

  function ErrorOf<T>(r: Result<T, Error>): Option<Error> {
    if r.Failure? then Some(r.error) else None
  }

  /** An operation that succeeded did what it is for; only a restore that ended in an error leaves a cached base ID or
      cached tables behind. */
  ghost predicate IsStep(operation: Operation, error: Option<Error>, stale: Stale, before: World, after: World) {
    && (error.None? ==> Done(operation, before, after))
    && (stale.baseId || stale.tables ==> operation.Restore? && error.Some?)
  }

  /** The worlds before, between and after the first operations of a run. */
  ghost predicate IsTrace(
      operations: seq<Operation>, errors: seq<Option<Error>>, stale: seq<Stale>, worlds: seq<World>) {
    && |errors| == |stale| <= |operations| && |worlds| == |errors| + 1
    && forall i | 0 <= i < |errors| :: IsStep(operations[i], errors[i], stale[i], worlds[i], worlds[i + 1])
  }

  /** No operation failed where it could have succeeded. */
  ghost predicate NoneFailsInVain(
      operations: seq<Operation>, errors: seq<Option<Error>>, stale: seq<Stale>, worlds: seq<World>)
    requires IsTrace(operations, errors, stale, worlds)
  {
    forall i | 0 <= i < |errors| && IsPossible(operations[i], worlds[i]) :: errors[i].None?
  }

  lemma TraceGrows(
      operations: seq<Operation>, errors: seq<Option<Error>>, stale: seq<Stale>, worlds: seq<World>,
      error: Option<Error>, now: Stale, world: World)
    requires IsTrace(operations, errors, stale, worlds) && |errors| < |operations|
    requires IsStep(operations[|errors|], error, now, worlds[|errors|], world)
    ensures IsTrace(operations, errors + [error], stale + [now], worlds + [world])
    ensures NoneFailsInVain(operations, errors, stale, worlds) ==>
              (IsPossible(operations[|errors|], worlds[|errors|]) ==> error.None?) ==>
                NoneFailsInVain(operations, errors + [error], stale + [now], worlds + [world])
  {
    var all := worlds + [world];
    forall i | 0 <= i < |errors + [error]|
      ensures IsStep(operations[i], (errors + [error])[i], (stale + [now])[i], all[i], all[i + 1])
    {
      assert i < |errors| ==> IsStep(operations[i], errors[i], stale[i], worlds[i], worlds[i + 1]);
    }
  }

  predicate NoBaseIdStale(stale: seq<Stale>) {
    forall x | x in stale :: !x.baseId
  }

  predicate NoTablesStale(stale: seq<Stale>) {
    forall x | x in stale :: !x.tables
  }

  predicate NoRestore(operations: seq<Operation>) {
    forall o | o in operations :: !o.Restore?
  }

  predicate NoneReplaces(operations: seq<Operation>, kind: BackupSnapshot) {
    forall o | o in operations :: kind !in Replaces(o)
  }

  /** A database with a new base. */
  function Fresh(baseId: BaseId): Content {
    Content([BaseRow(0, baseId, 0)], [], 1, map[baseId := NocoBase([], map[], 0)])
  }

  lemma FreshIsConsistent(baseId: BaseId)
    ensures GetBase(Fresh(baseId)) == Some(baseId) && At(Fresh(baseId), baseId, 0) && Consistent(Fresh(baseId))
  {
    assert Populated(Fresh(baseId), BaseRow(0, baseId, 0), 0);
    RecordedVersionIsApplied(Fresh(baseId), BaseRow(0, baseId, 0), 0);
    assert At(Fresh(baseId), baseId, 0);
  }

  /** An environment in which everything is right, and the backup of a kind has another base: a restore of it that
      takes effect and whose reply is lost leaves the ID of the wrong base cached. */
  method TwoBases(kind: BackupKind) returns (env: Environment)
    ensures fresh(env) && env.Valid() && Clean(env.project) && env.trusted && env.BaseIdRight() && env.baseId.Some?
    ensures env.project.Live(Source(kind)).Some? && !env.SameBase(kind)
  {
    FreshIsConsistent(1);
    FreshIsConsistent(2);
    var wire := new Wire();
    var project := new Project<Content>.With(Fresh(2), Source(kind), Fresh(1), wire);
    env := new Environment.With(project, 2);
  }
}

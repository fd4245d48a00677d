/** The base schema migrations as their effect on the tables of a base, and the migrator
    that applies the missing ones, each under its own rollback. */
module Migrations {
  import opened Wrappers
  import opened Remote
  import opened Neon
  import opened Database

  type Tables = map<string, TableId>

  datatype Outcome = AlreadyUpToDate | Migrated

  const LATEST: Version := 5

  const FIRST_TABLES :=
    {"events", "locations", "people", "categories", "tags", "announcements", "about", "links", "files"}

  // `TableIds` needs these; `files` is optional there.
  const REQUIRED_TABLES := {"events", "people", "tags", "about", "links", "pages", "announcements"}

  predicate Complete(tables: Tables) {
    REQUIRED_TABLES <= tables.Keys
  }

  /** `a` and `b` give the same `TableIds`, the optional table aside. */
  ghost predicate SameIds(a: Tables, b: Tables) {
    Complete(a) && Complete(b) && forall n | n in REQUIRED_TABLES :: a[n] == b[n]
  }

  function Created(version: Version): set<string> {
    match version
    case 1 => FIRST_TABLES
    case 2 => {"pages"}
    case _ => {}
  }

  function Dropped(version: Version): set<string> {
    if version == 4 then {"files"} else {}
  }

  /** From the third on, migrations start by looking up the tables they edit. */
  predicate CanRun(version: Version, tables: Tables) {
    && Created(version) !! tables.Keys
    && Dropped(version) <= tables.Keys
    && (version > 2 ==> Complete(tables))
  }

  ghost predicate RunsTo(version: Version, before: NocoBase, after: NocoBase) {
    && CanRun(version, before.tables)
    && after.log == before.log + [version]
    && exists created: Tables :: created.Keys == Created(version)
                              && after.tables == before.tables + created - Dropped(version)
  }

  /** The first two migrations create tables that must not be there yet; the others edit tables that must. */
  lemma EachMigrationNeeds(tables: Tables)
    ensures CanRun(1, tables) <==>
            && "events" !in tables && "locations" !in tables && "people" !in tables && "categories" !in tables
            && "tags" !in tables && "announcements" !in tables && "about" !in tables && "links" !in tables
            && "files" !in tables
    ensures CanRun(2, tables) <==> "pages" !in tables
    ensures CanRun(3, tables) <==> Complete(tables)
    ensures CanRun(4, tables) <==> Complete(tables) && "files" in tables
    ensures CanRun(5, tables) <==> Complete(tables)
  {
    forall t: string
      ensures t in FIRST_TABLES && t in tables.Keys ==> t in FIRST_TABLES * tables.Keys
    {
    }
  }

  /** No migration changes the ID of a required table that is already there. */
  lemma MigrationsKeepRequiredTables(version: Version, before: NocoBase, after: NocoBase)
    requires RunsTo(version, before, after) && Complete(before.tables)
    ensures SameIds(before.tables, after.tables)
  {
  }

  /** The tables of a base after a number of migrations, its users leaving them alone. */
  function TablesAfter(version: Version): set<string> {
    if version == 0 then {} else TablesAfter(version - 1) + Created(version) - Dropped(version)
  }

  /** The base has just the tables that the migrations it went through left. */
  predicate Regular(base: NocoBase, version: Version) {
    base.tables.Keys == TablesAfter(version)
  }

  lemma TablesAtEachVersion(version: Version)
    requires version <= LATEST
    ensures version == 1 ==> TablesAfter(1) == FIRST_TABLES
    ensures version in {2, 3} ==> TablesAfter(version) == FIRST_TABLES + {"pages"}
    ensures version in {4, 5} ==> TablesAfter(version) == FIRST_TABLES + {"pages"} - {"files"}
    ensures version >= 2 ==> REQUIRED_TABLES <= TablesAfter(version)
  {
    if version == 0 {
    } else {
      TablesAtEachVersion(version - 1);
    }
  }

  /** Each migration finds what it needs in what the ones before it left. */
  lemma NextMigrationCanRun(base: NocoBase, version: Version)
    requires Regular(base, version) && version < LATEST
    ensures CanRun(version + 1, base.tables)
  {
    TablesAtEachVersion(version);
  }

  function IdsFor(names: set<string>, ids: Tables): (created: Tables)
    ensures created.Keys == names
  {
    map n | n in names :: if n in ids then ids[n] else 0
  }

  /** The dispatch on the version. A migration that fails leaves the NocoDB side of the
      database in any state whatsoever. */
  method Run(project: Project<Content>, baseId: BaseId, version: Version) returns (r: Result<Outcome, Error>)
    modifies project`data, project.wire
    ensures version == 0 || version > LATEST ==> r == Success(AlreadyUpToDate) && project.data == old(project.data)
    ensures 1 <= version <= LATEST ==> r != Success(AlreadyUpToDate)
    ensures r == Success(Migrated) ==>
              && baseId in old(project.data.noco)
              && baseId in project.data.noco
              && RunsTo(version, old(project.data.noco)[baseId], project.data.noco[baseId])
              && project.data.noco == old(project.data.noco)[baseId := project.data.noco[baseId]]
    ensures project.data == old(project.data).(noco := project.data.noco)
    ensures r.Failure? ==> r.error == Internal
    ensures project.wire.faults >= old(project.wire.faults)
    ensures r.Success? ==> project.wire.faults == old(project.wire.faults)
    ensures r.Failure? ==>
              || project.wire.faults > old(project.wire.faults)
              || baseId !in old(project.data.noco) || !CanRun(version, old(project.data.noco)[baseId].tables)
  {
    if version == 0 || version > LATEST {
      return Success(AlreadyUpToDate);
    }
    var reply := project.wire.Call();
    if reply.Succeeded? && baseId in project.data.noco && CanRun(version, project.data.noco[baseId].tables) {
      var base := project.data.noco[baseId];
      var ids: Tables := *;
      var created := IdsFor(Created(version), ids);
      var records: int := *;
      var after := NocoBase(base.log + [version], base.tables + created - Dropped(version), records);
      project.data := project.data.(noco := project.data.noco[baseId := after]);
      return Success(Migrated);
    }
    var wreckage: map<BaseId, NocoBase> := *;
    project.data := project.data.(noco := wreckage);
    return Failure(Internal);
  }

  /** An SQL statement that writes; a lost reply leaves the write in place. */
  method Execute(project: Project<Content>, effect: Option<Content>) returns (ok: bool)
    modifies project`data, project.wire
    ensures project.data == old(project.data) || effect == Some(project.data)
    ensures ok ==> effect == Some(project.data)
    ensures project.wire.faults >= old(project.wire.faults)
    ensures ok ==> project.wire.faults == old(project.wire.faults)
    ensures !ok ==> effect.None? || project.wire.faults > old(project.wire.faults)
  {
    var reply := project.wire.Call();
    if effect.None? {
      return false;
    }
    if !reply.Refused? {
      project.data := effect.value;
    }
    ok := reply.Succeeded?;
  }

  /** Every content the project holds, on its default branch or in a snapshot, is consistent. */
  ghost predicate Clean(project: Project<Content>)
    reads project
  {
    forall d :: project.Holds(d) ==> Consistent(d)
  }

  /** The base is at a version, and its tables are as its migrations left them. */
  ghost predicate Ready(c: Content, baseId: BaseId, version: Version) {
    At(c, baseId, version) && Regular(c.noco[baseId], version)
  }

  /** From `before` to `after` the next migration ran to completion and was recorded. */
  ghost predicate Advanced(before: Content, after: Content, baseId: BaseId, version: Version) {
    && baseId in before.noco
    && (At(before, baseId, version) ==>
          At(after, baseId, version + 1) && RunsTo(version + 1, before.noco[baseId], after.noco[baseId]))
  }

  /** What each pass of the migration loop protects: the next migration and its record. */
  method RunAndRecord(project: Project<Content>, baseId: BaseId, version: Version) returns (r: Result<bool, Error>)
    modifies project`data, project.wire
    ensures project.data.bases == old(project.data.bases)
    ensures r == Success(true) ==> version >= LATEST && project.data == old(project.data)
    ensures r == Success(false) ==> version < LATEST && Advanced(old(project.data), project.data, baseId, version)
    ensures r.Failure? ==> r.error == Internal && version < LATEST
    ensures project.wire.faults >= old(project.wire.faults)
    ensures r.Success? ==> project.wire.faults == old(project.wire.faults)
    ensures r.Failure? && old(Ready(project.data, baseId, version)) ==> project.wire.faults > old(project.wire.faults)
  {
    ghost var before := project.data;
    if version < LATEST && Ready(before, baseId, version) {
      NextMigrationCanRun(before.noco[baseId], version);
    }
    var run := Run(project, baseId, version + 1);
    match run {
      case Success(AlreadyUpToDate) =>
        r := Success(true);
      case Failure(e) =>
        r := Failure(e);
      case Success(Migrated) =>
        if At(before, baseId, version) {
          MigrationThenRecord(before, before.bases[0], version, project.data.noco[baseId]);
        }
        var ok := Execute(project, SetMigration(project.data, baseId, version + 1));
        r := if ok then Success(false) else Failure(Internal);
    }
  }

  /** One pass of the migration loop. Unless the rollback itself fails, a pass either does nothing
      or runs the next migration to completion and records it. */
  method Step(project: Project<Content>, baseId: BaseId, version: Version) returns (r: Result<bool, Error>)
    requires project.Valid()
    modifies project, project.wire
    ensures project.Valid()
    ensures forall k :: k != Checkpoint ==> project.Live(k) == old(project.Live(k))
    ensures forall d :: project.Holds(d) ==> old(project.Holds(d)) || d == project.data
    ensures project.data.bases == old(project.data.bases)
    ensures r.Success? ==> (r.value <==> version >= LATEST)
    ensures version >= LATEST || (r.Failure? && r.error != RestoreFailed) ==> project.data == old(project.data)
    ensures r == Success(false) ==> Advanced(old(project.data), project.data, baseId, version)
    ensures r.Failure? ==> r.error in {Internal, RestoreFailed} && (version >= LATEST ==> r.error == Internal)
    ensures project.wire.faults >= old(project.wire.faults)
    ensures r.Success? ==> project.wire.faults == old(project.wire.faults)
    ensures r.Failure? && old(Ready(project.data, baseId, version)) ==> project.wire.faults > old(project.wire.faults)
  {
    var t := project.Begin();
    if t.Failure? {
      return Failure(Internal);
    }
    var outcome := RunAndRecord(project, baseId, version);
    r := project.End(t.value, outcome);
  }

  /** How a base that was recorded at `from` in `before` has got to version `v` in `c`. */
  ghost predicate Progress(before: Content, c: Content, baseId: BaseId, from: Version, v: Version) {
    && c.bases == before.bases
    && (baseId !in before.noco ==> c == before)
    && (At(before, baseId, from) ==>
          && At(c, baseId, v)
          && (Regular(before.noco[baseId], from) ==> Regular(c.noco[baseId], v))
          && (Complete(before.noco[baseId].tables) ==> SameIds(before.noco[baseId].tables, c.noco[baseId].tables)))
  }

  lemma ProgressMade(before: Content, c: Content, after: Content, baseId: BaseId, from: Version, v: Version)
    requires Progress(before, c, baseId, from, v) && after.bases == c.bases && Advanced(c, after, baseId, v)
    ensures Progress(before, after, baseId, from, v + 1)
  {
  }

  function Max(a: nat, b: nat): nat {
    if a < b then b else a
  }

  ghost predicate Reached(before: Content, c: Content, baseId: BaseId, from: Version) {
    exists v: Version :: Progress(before, c, baseId, from, v)
  }

  lemma ReachedIsConsistent(before: Content, baseId: BaseId, from: Version)
    ensures forall c | Reached(before, c, baseId, from) :: c.bases == before.bases
    ensures Consistent(before) && (At(before, baseId, from) || baseId !in before.noco) ==>
              forall c | Reached(before, c, baseId, from) :: Consistent(c)
  {
  }

  /** One pass of the migration loop on the way from `before`, with what it leaves in the project. */
  method Pass(project: Project<Content>, baseId: BaseId, ghost before: Content, ghost from: Version, v: Version)
    returns (r: Result<bool, Error>)
    requires project.Valid() && Progress(before, project.data, baseId, from, v)
    modifies project, project.wire
    ensures project.Valid()
    ensures forall k :: k != Checkpoint ==> project.Live(k) == old(project.Live(k))
    ensures r.Success? ==> (r.value <==> v >= LATEST)
    ensures r.Failure? ==> r.error in {Internal, RestoreFailed}
    ensures r != Failure(RestoreFailed) ==>
              Progress(before, project.data, baseId, from, if r == Success(false) then v + 1 else v)
    ensures project.data.bases == before.bases
    ensures forall d :: project.Holds(d) ==> old(project.Holds(d)) || d == project.data
    ensures project.wire.faults >= old(project.wire.faults)
    ensures r.Success? ==> project.wire.faults == old(project.wire.faults)
    ensures r.Failure? && Ready(before, baseId, from) ==> project.wire.faults > old(project.wire.faults)
  {
    ghost var last := project.data;
    r := Step(project, baseId, v);
    if r == Success(false) {
      ProgressMade(before, last, project.data, baseId, from, v);
    }
  }

  /** The migration loop. */
  method ApplyMissing(project: Project<Content>, baseId: BaseId, version: Version)
    returns (r: Result<Version, Error>, ghost reached: Version)
    requires project.Valid()
    modifies project, project.wire
    ensures project.Valid()
    ensures forall k :: k != Checkpoint ==> project.Live(k) == old(project.Live(k))
    ensures r.Success? ==> r.value == reached == Max(version, LATEST)
    ensures r.Failure? ==> r.error in {Internal, RestoreFailed}
    ensures r != Failure(RestoreFailed) ==>
              && version <= reached <= Max(version, LATEST)
              && Progress(old(project.data), project.data, baseId, version, reached)
    ensures project.data.bases == old(project.data.bases)
    ensures forall d :: project.Holds(d) ==>
              old(project.Holds(d)) || Reached(old(project.data), d, baseId, version) || r == Failure(RestoreFailed)
    ensures forall d :: project.Holds(d) ==> old(project.Holds(d)) || d.bases == old(project.data.bases)
    ensures project.wire.faults >= old(project.wire.faults)
    ensures r.Success? ==> project.wire.faults == old(project.wire.faults)
    ensures r.Failure? && old(Ready(project.data, baseId, version)) ==>
              project.wire.faults > old(project.wire.faults)
  {
    var v := version;
    var isUpToDate := false;
    ghost var before := project.data;
    while !isUpToDate
      invariant project.Valid()
      invariant forall k :: k != Checkpoint ==> project.Live(k) == old(project.Live(k))
      invariant version <= v <= Max(version, LATEST)
      invariant isUpToDate ==> v == Max(version, LATEST)
      invariant Progress(before, project.data, baseId, version, v)
      invariant project.wire.faults == old(project.wire.faults)
      invariant forall d :: project.Holds(d) ==> old(project.Holds(d)) || Reached(before, d, baseId, version)
      decreases !isUpToDate, Max(version, LATEST) - v
    {
      var step := Pass(project, baseId, before, version, v);
      if step.Failure? {
        return Failure(step.error), v;
      }
      isUpToDate := step.value;
      if !isUpToDate {
        v := v + 1;
      }
      assert Reached(before, project.data, baseId, version);
    }
    ReachedIsConsistent(before, baseId, version);
    return Success(v), v;
  }

  /** Applies every missing migration. From a base whose recorded version is `version`, success
      means that all missing migrations ran, once each and in order; any failure short of a
      failed rollback leaves the base at some version on the way, with nothing half done. */
  method Migrate(project: Project<Content>, baseId: BaseId, version: Version)
    returns (r: Result<Version, Error>, ghost reached: Version)
    requires project.Valid()
    modifies project, project.wire
    ensures project.Valid()
    ensures forall k :: k != Checkpoint && k != Migration ==> project.Live(k) == old(project.Live(k))
    ensures r.Success? ==> project.Live(Migration) == Some(old(project.data))
    ensures r.Success? ==> r.value == reached == Max(version, LATEST)
    ensures r.Failure? ==> r.error in {Internal, RestoreFailed}
    ensures r != Failure(RestoreFailed) ==>
              && version <= reached <= Max(version, LATEST)
              && Progress(old(project.data), project.data, baseId, version, reached)
    ensures project.data.bases == old(project.data.bases)
    ensures forall d :: project.Holds(d) ==> old(project.Holds(d)) || d.bases == old(project.data.bases)
    ensures old(Clean(project)) && (old(At(project.data, baseId, version)) || baseId !in old(project.data.noco)) ==>
              r == Failure(RestoreFailed) || Clean(project)
    ensures project.wire.faults >= old(project.wire.faults)
    ensures r.Success? ==> project.wire.faults == old(project.wire.faults)
    ensures r.Failure? && old(Ready(project.data, baseId, version)) ==> project.wire.faults > old(project.wire.faults)
  {
    var found := project.LookupProject();
    if !found {
      return Failure(Internal), version;
    }
    var backup := project.CreateBackup(Migration);
    if backup.Failure? {
      return Failure(Internal), version;
    }
    ReachedIsConsistent(project.data, baseId, version);
    r, reached := ApplyMissing(project, baseId, version);
  }

  /** A base at the latest version went through the five migrations there are, in their order. */
  lemma LatestIsTheFifth(c: Content, baseId: BaseId)
    requires At(c, baseId, LATEST)
    ensures c.noco[baseId].log == [1, 2, 3, 4, 5] && GetCurrentMigration(c) == 5
  {
    RecordedVersionIsApplied(c, c.bases[0], LATEST);
    assert UpTo(LATEST) == [1, 2, 3, 4, 5];
  }

  /** Creates the base, then migrates it from the initial version. */
  method CreateBaseAndMigrate(project: Project<Content>) returns (r: Result<(BaseId, Version), Error>)
    requires project.Valid() && project.data.bases == []
    modifies project, project.wire
    ensures project.Valid()
    ensures forall k :: k != Checkpoint && k != Migration ==> project.Live(k) == old(project.Live(k))
    ensures |project.data.bases| <= 1
    ensures forall d :: project.Holds(d) ==> old(project.Holds(d)) || |d.bases| <= 1
    ensures r.Success? && old(Empty(project.data)) ==> At(project.data, r.value.0, r.value.1) && r.value.1 == LATEST
    ensures r.Failure? && r.error != RestoreFailed && old(Empty(project.data)) ==>
              Empty(project.data) || exists baseId, v: Version :: v <= LATEST && At(project.data, baseId, v)
    ensures r != Failure(RestoreFailed) && old(Clean(project)) && old(Empty(project.data)) ==> Clean(project)
    ensures r.Failure? ==> r.error in {Internal, RestoreFailed}
    ensures r.Success? && old(Empty(project.data)) ==> Complete(project.data.noco[r.value.0].tables)
    ensures project.wire.faults >= old(project.wire.faults)
    ensures r.Success? ==> project.wire.faults == old(project.wire.faults)
    ensures r.Failure? && old(Empty(project.data)) ==> project.wire.faults > old(project.wire.faults)
  {
    var created := CreateBase(project);
    if created.Failure? {
      return Failure(created.error);
    }
    ghost var reached: Version;
    var migrated: Result<Version, Error>;
    migrated, reached := Migrate(project, created.value, INITIAL);
    TablesAtEachVersion(LATEST);
    r := if migrated.Success? then Success((created.value, migrated.value)) else Failure(migrated.error);
  }

  /** Creates the base with its row, under a rollback. */
  method CreateBase(project: Project<Content>) returns (r: Result<BaseId, Error>)
    requires project.Valid() && project.data.bases == []
    modifies project, project.wire
    ensures project.Valid()
    ensures forall k :: k != Checkpoint ==> project.Live(k) == old(project.Live(k))
    ensures forall d :: Captured(project.snapshots, d) ==> old(project.Holds(d))
    ensures |project.data.bases| <= 1
    ensures r.Success? && old(Empty(project.data)) ==> Ready(project.data, r.value, INITIAL)
    ensures r.Failure? ==> r.error in {Internal, RestoreFailed}
    ensures r.Failure? && r.error != RestoreFailed ==> project.data == old(project.data)
    ensures project.wire.faults >= old(project.wire.faults)
    ensures r.Success? <==> project.wire.faults == old(project.wire.faults)
  {
    var t := project.Begin();
    if t.Failure? {
      return Failure(Internal);
    }
    var baseId := FreshBaseId(project.data.noco.Keys);
    var outcome := CreateBaseAndRow(project, baseId);
    var ended := project.End(t.value, outcome);
    r := if ended.Success? then Success(baseId) else Failure(ended.error);
  }

  method FreshBaseId(taken: set<BaseId>) returns (id: BaseId)
    ensures id !in taken
  {
    FreshId(taken);
    id :| id !in taken;
  }

  /** `create_base` and `set_base`, the operation `migrate` protects. */
  method CreateBaseAndRow(project: Project<Content>, baseId: BaseId) returns (r: Result<(), Error>)
    requires baseId !in project.data.noco && project.data.bases == []
    modifies project`data, project.wire
    ensures r.Success? && old(Empty(project.data)) ==> Ready(project.data, baseId, INITIAL)
    ensures |project.data.bases| <= 1
    ensures r.Success? ==> exists row: BaseRow :: row.baseId == baseId && project.data.bases == [row]
    ensures r.Failure? ==> r.error == Internal
    ensures project.wire.faults >= old(project.wire.faults)
    ensures r.Success? <==> project.wire.faults == old(project.wire.faults)
  {
    var base := NocoBase([], map[], 0);
    if Empty(project.data) {
      NewBase(project.data, baseId, base);
    }
    var reply := project.wire.Call();
    if !reply.Refused? {
      project.data := project.data.(noco := project.data.noco[baseId := base]);
    }
    if !reply.Succeeded? {
      return Failure(Internal);
    }
    reply := project.wire.Call();  // adding the initial user does not touch the tables of the model
    if !reply.Succeeded? {
      return Failure(Internal);
    }
    var ok := Execute(project, SetBase(project.data, baseId));
    r := if ok then Success(()) else Failure(Internal);
  }
}

/** The content of an environment's Postgres database: the config tables `noco_bases` and
    `noco_migrations`, and the NocoDB bases that live in the same database. */
module Database {
  import opened Wrappers

  type BaseId = nat
  type TableId = nat
  type Version = nat

  datatype BaseRow = BaseRow(id: nat, baseId: BaseId, sequence: nat)

  datatype MigrationRow = MigrationRow(base: nat, version: Version)

  /** A NocoDB base. `log` lists the migrations that ran to completion on it, in order;
      `records` stands for everything its users typed in. */
  datatype NocoBase = NocoBase(log: seq<Version>, tables: map<string, TableId>, records: int)

  datatype Content = Content(
    bases: seq<BaseRow>, migrations: seq<MigrationRow>, serial: nat, noco: map<BaseId, NocoBase>)

  const INITIAL: Version := 0

  // ---- The statements of the SQL client ----

  /** `ORDER BY sequence DESC LIMIT 1` */
  function Newest(rows: seq<BaseRow>): (r: Option<BaseRow>)
    ensures r.None? <==> rows == []
    ensures r.Some? ==> r.value in rows && forall q | q in rows :: q.sequence <= r.value.sequence
  {
    if rows == [] then None
    else
      var rest := Newest(rows[1..]);
      if rest.Some? && rows[0].sequence <= rest.value.sequence then rest else Some(rows[0])
  }

  function GetBase(c: Content): Option<BaseId> {
    var row := Newest(c.bases);
    if row.Some? then Some(row.value.baseId) else None
  }

  /** `base_id` is UNIQUE, so inserting it twice is an error. */
  function SetBase(c: Content, baseId: BaseId): Option<Content> {
    if exists row | row in c.bases :: row.baseId == baseId then None
    else Some(c.(bases := c.bases + [BaseRow(c.serial, baseId, c.serial)], serial := c.serial + 1))
  }

  /** Base IDs are unique, and the one set last is the current one. */
  lemma SetBaseRefusesIffKnown(c: Content, baseId: BaseId)
    requires forall row | row in c.bases :: row.sequence < c.serial
    ensures SetBase(c, baseId).None? <==> exists row | row in c.bases :: row.baseId == baseId
    ensures SetBase(c, baseId).Some? ==>
              var after := SetBase(c, baseId).value;
              GetBase(after) == Some(baseId) && forall row | row in after.bases :: row.sequence < after.serial
  {
    if SetBase(c, baseId).Some? {
      var after := SetBase(c, baseId).value;
      var row := BaseRow(c.serial, baseId, c.serial);
      assert row in after.bases;
      assert forall other | other in after.bases :: other == row || other in c.bases;
    }
  }

  function WithoutBase(rows: seq<BaseRow>, baseId: BaseId): (r: seq<BaseRow>)
    ensures forall row :: row in r <==> row in rows && row.baseId != baseId
    ensures |r| <= |rows|
  {
    if rows == [] then []
    else (if rows[0].baseId == baseId then [] else [rows[0]]) + WithoutBase(rows[1..], baseId)
  }

  /** Deleting a base row deletes the migration rows that refer to it (`ON DELETE CASCADE`). */
  function Referring(rows: seq<MigrationRow>, bases: seq<BaseRow>): (r: seq<MigrationRow>)
    ensures forall m :: m in r <==> m in rows && exists b :: b in bases && b.id == m.base
    ensures bases == [] ==> r == []
  {
    if rows == [] then []
    else (if exists b | b in bases :: b.id == rows[0].base then [rows[0]] else []) + Referring(rows[1..], bases)
  }

  function DeleteBase(c: Content, baseId: BaseId): Content {
    var bases := WithoutBase(c.bases, baseId);
    c.(bases := bases, migrations := Referring(c.migrations, bases))
  }

  /** `INSERT ... SELECT`: one row for each base row with this ID, so none if there is no such row.
      `(version, base)` is UNIQUE. */
  function SetMigration(c: Content, baseId: BaseId, version: Version): Option<Content> {
    var added := NewRows(c.bases, baseId, version);
    if exists m | m in added :: m in c.migrations then None
    else Some(c.(migrations := c.migrations + added))
  }

  function NewRows(rows: seq<BaseRow>, baseId: BaseId, version: Version): (r: seq<MigrationRow>)
    ensures forall m :: m in r <==>
              m.version == version && exists b :: b in rows && b.baseId == baseId && b.id == m.base
  {
    if rows == [] then []
    else (if rows[0].baseId == baseId then [MigrationRow(rows[0].id, version)] else [])
         + NewRows(rows[1..], baseId, version)
  }

  /** The base row a migration row joins with. */
  function Joined(bases: seq<BaseRow>, m: MigrationRow): Option<BaseRow> {
    if bases == [] then None else if bases[0].id == m.base then Some(bases[0]) else Joined(bases[1..], m)
  }

  /** `ORDER BY noco_bases.sequence DESC, noco_migrations.version DESC LIMIT 1` over the join */
  function NewestMigration(bases: seq<BaseRow>, rows: seq<MigrationRow>): Option<MigrationRow> {
    if rows == [] then None
    else
      var rest := NewestMigration(bases, rows[1..]);
      var base := Joined(bases, rows[0]);
      if base.None? then rest
      else if rest.None? then Some(rows[0])
      else
        var other := Joined(bases, rest.value);
        if other.None? || base.value.sequence > other.value.sequence
           || (base.value.sequence == other.value.sequence && rows[0].version > rest.value.version)
        then Some(rows[0]) else rest
  }

  /** Whether the join puts `n` behind `m`, or neither before the other. */
  predicate IsBehind(bases: seq<BaseRow>, m: MigrationRow, n: MigrationRow)
    requires Joined(bases, m).Some? && Joined(bases, n).Some?
  {
    var a, b := Joined(bases, m).value.sequence, Joined(bases, n).value.sequence;
    b < a || (b == a && n.version <= m.version)
  }

  /** The row that comes first by sequence and then version, of those that join. */
  lemma {:induction false} NewestMigrationComesFirst(bases: seq<BaseRow>, rows: seq<MigrationRow>)
    ensures var r := NewestMigration(bases, rows);
            && (r.None? <==> forall m | m in rows :: Joined(bases, m).None?)
            && (r.Some? ==> r.value in rows && Joined(bases, r.value).Some?)
            && (r.Some? ==> forall m | m in rows && Joined(bases, m).Some? :: IsBehind(bases, r.value, m))
  {
    if rows == [] {
    } else {
      var rest := rows[1..];
      NewestMigrationComesFirst(bases, rest);
      assert rows[0] in rows && forall m :: m in rest ==> m in rows;
    }
  }

  function GetCurrentMigration(c: Content): Version {
    var row := NewestMigration(c.bases, c.migrations);
    if row.Some? then row.value.version else INITIAL
  }

  // ---- Consistency ----

  function UpTo(v: Version): (r: seq<Version>)
    ensures |r| == v && forall i | 0 <= i < v :: r[i] == i + 1
  {
    if v == 0 then [] else UpTo(v - 1) + [v]
  }

  function RowsUpTo(base: nat, v: Version): (r: seq<MigrationRow>)
    ensures |r| == v && forall i | 0 <= i < v :: r[i] == MigrationRow(base, i + 1)
  {
    if v == 0 then [] else RowsUpTo(base, v - 1) + [MigrationRow(base, v)]
  }

  ghost predicate Empty(c: Content) {
    c.bases == [] && c.migrations == [] && c.noco == map[]
  }

  /** There is one base row; its base is the one base that exists in NocoDB; the recorded
      migrations are exactly the ones that ran on it, each once and in order. */
  ghost predicate Populated(c: Content, row: BaseRow, v: Version) {
    && c.bases == [row]
    && row.sequence < c.serial
    && c.noco.Keys == {row.baseId}
    && c.noco[row.baseId].log == UpTo(v)
    && c.migrations == RowsUpTo(row.id, v)
  }

  /** `Populated`, by the ID of the base. */
  ghost predicate At(c: Content, baseId: BaseId, v: Version) {
    |c.bases| == 1 && c.bases[0].baseId == baseId && Populated(c, c.bases[0], v)
  }

  ghost predicate Consistent(c: Content) {
    Empty(c) || exists baseId, v :: At(c, baseId, v)
  }

  lemma {:induction false} CurrentAmong(row: BaseRow, rows: seq<MigrationRow>, from: nat, v: Version)
    requires from <= v && rows == RowsUpTo(row.id, v)[from..]
    ensures NewestMigration([row], rows) == if from == v then None else Some(MigrationRow(row.id, v))
    decreases v - from
  {
    if from == v {
    } else {
      CurrentAmong(row, rows[1..], from + 1, v);
    }
  }

  /** The version read back from the config tables is the number of migrations that were
      fully applied. */
  lemma RecordedVersionIsApplied(c: Content, row: BaseRow, v: Version)
    requires Populated(c, row, v)
    ensures GetCurrentMigration(c) == v == |c.noco[row.baseId].log|
    ensures GetBase(c) == Some(row.baseId)
  {
    assert RowsUpTo(row.id, v)[0..] == c.migrations;
    CurrentAmong(row, c.migrations, 0, v);
  }

  /** `set_migration` records the version exactly when a base row carries the ID it is given;
      with any other ID it succeeds and records nothing. */
  lemma SetMigrationRecordsIffBaseIsKnown(c: Content, row: BaseRow, v: Version, baseId: BaseId)
    requires Populated(c, row, v)
    ensures var after := SetMigration(c, baseId, v + 1);
            after.Some? && (GetCurrentMigration(after.value) == v + 1 <==> baseId == row.baseId)
                        && (baseId != row.baseId ==> after.value == c)
  {
    var after := SetMigration(c, baseId, v + 1);
    assert NewRows([row], baseId, v + 1) == if row.baseId == baseId then [MigrationRow(row.id, v + 1)] else [] by {
      assert NewRows([row][1..], baseId, v + 1) == [];
    }
    assert forall m | m in RowsUpTo(row.id, v) :: m.version <= v;
    assert after.Some?;
    RecordedVersionIsApplied(c, row, v);
    if baseId == row.baseId {
      var rows := RowsUpTo(row.id, v + 1);
      assert after.value.migrations == rows == rows[0..];
      CurrentAmong(row, rows, 0, v + 1);
    } else {
      assert c.migrations + [] == c.migrations;
    }
  }

  /** A finished migration together with its record leads from one consistent content to the next. */
  lemma MigrationThenRecord(c: Content, row: BaseRow, v: Version, after: NocoBase)
    requires Populated(c, row, v) && after.log == UpTo(v) + [v + 1]
    ensures var recorded := SetMigration(c.(noco := c.noco[row.baseId := after]), row.baseId, v + 1);
            recorded.Some? && Populated(recorded.value, row, v + 1)
  {
    var migrated := c.(noco := c.noco[row.baseId := after]);
    assert NewRows([row], row.baseId, v + 1) == [MigrationRow(row.id, v + 1)] by {
      assert NewRows([row][1..], row.baseId, v + 1) == [];
    }
    assert forall m | m in RowsUpTo(row.id, v) :: m.version <= v;
    var recorded := SetMigration(migrated, row.baseId, v + 1);
    assert recorded.value.noco.Keys == {row.baseId};
  }

  /** A new base with its row makes an empty content consistent at the initial version. */
  lemma NewBase(c: Content, baseId: BaseId, base: NocoBase)
    requires Empty(c) && base.log == []
    ensures var recorded := SetBase(c.(noco := c.noco[baseId := base]), baseId);
            recorded.Some? && Populated(recorded.value, BaseRow(c.serial, baseId, c.serial), 0)
  {
  }

  /** Deleting the base and then its row empties a consistent content. */
  lemma BaseDeletedThenRow(c: Content, row: BaseRow, v: Version)
    requires Populated(c, row, v)
    ensures Empty(DeleteBase(c.(noco := c.noco - {row.baseId}), row.baseId))
  {
  }

  /** In a consistent content an ID is either that of the base, whose version is then the
      recorded one, or it belongs to no base at all. */
  lemma KnownOrAbsent(c: Content, base: BaseId)
    requires Consistent(c)
    ensures At(c, base, GetCurrentMigration(c)) || base !in c.noco
    ensures GetBase(c) == Some(base) ==> At(c, base, GetCurrentMigration(c))
  {
    if !Empty(c) {
      var b, v :| At(c, b, v);
      RecordedVersionIsApplied(c, c.bases[0], v);
    }
  }
}

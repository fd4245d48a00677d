/** One tenant's Neon project: a default branch, named snapshots of it, and the
    branches restores leave behind. `D` is the content of the database. */
module Neon {
  import opened Wrappers
  import opened Remote

  type SnapshotId = nat
  type BranchId = nat

  datatype BackupSnapshot = Checkpoint | Deployment | Migration | BaseDeletion | ManualRestore | Archived

  datatype BackupKind = DeletionBackup | DeploymentBackup | MigrationBackup

  datatype Error =
    | Internal        // a call failed
    | NoSnapshot      // there is no live snapshot of the requested kind
    | RestoreFailed   // the rollback of a failed operation failed as well
    | NoBaseId
    | NoApiToken
    | MissingEnvConfig
    | BaseAlreadyExists
    | StaleCache      // the database was restored, but the key-value cache was not wiped

  /** The name of a snapshot, by what it was made from. Neon sees its text only. */
  datatype SnapshotName = SnapshotName(snapshot: BackupSnapshot, digits: string)

  datatype Snapshot<+D> = Snapshot(name: SnapshotName, data: D)

  datatype Branch = Branch(name: string, restoredFrom: Option<SnapshotId>, isDefault: bool)

  datatype Transaction = Transaction(branch: BranchId, checkpoint: SnapshotId)

  const ARCHIVED_PREFIX := "noco-archived-"
  const DEFAULT_BRANCH := "main"

  function Name(snapshot: BackupSnapshot, digits: string): string {
    match snapshot
    case Checkpoint => "noco-checkpoint"
    case Deployment => "noco-pre-deployment"
    case BaseDeletion => "noco-pre-base-deletion"
    case Migration => "noco-pre-migration"
    case ManualRestore => "noco-pre-manual-restore"
    case Archived => ARCHIVED_PREFIX + digits
  }

  function Text(name: SnapshotName): string {
    Name(name.snapshot, name.digits)
  }

  function ReservedName(snapshot: BackupSnapshot): SnapshotName
    requires !snapshot.Archived?
  {
    SnapshotName(snapshot, "")
  }

  /** The texts by which snapshots are found again. */
  lemma ReservedTexts()
    ensures [Text(ReservedName(Checkpoint)), Text(ReservedName(Deployment)), Text(ReservedName(BaseDeletion)),
             Text(ReservedName(Migration)), Text(ReservedName(ManualRestore))] ==
            ["noco-checkpoint", "noco-pre-deployment", "noco-pre-base-deletion", "noco-pre-migration",
             "noco-pre-manual-restore"]
  {
  }

  predicate IsArchived(name: SnapshotName) {
    ARCHIVED_PREFIX <= Text(name)
  }

  function Source(kind: BackupKind): (snapshot: BackupSnapshot)
    ensures !snapshot.Archived? && !snapshot.ManualRestore? && !snapshot.Checkpoint?
  {
    match kind
    case DeletionBackup => BaseDeletion
    case DeploymentBackup => Deployment
    case MigrationBackup => Migration
  }

  /** The text of a name tells what it was made from; that of an archived one, and no other, begins with the
      prefix for archived snapshots. */
  lemma NamesAreDistinct(a: SnapshotName, b: SnapshotName)
    ensures IsArchived(a) <==> a.snapshot.Archived?
    ensures Text(a) == Text(b) ==> a.snapshot == b.snapshot
  {
    ArchivedHavePrefix(a);
    ArchivedHavePrefix(b);
    assert "noco-checkpoint"[5] == 'c' && "noco-pre-deployment"[5] == 'p';
    assert "noco-pre-deployment"[9] == 'd' && "noco-pre-migration"[9] == 'm' && "noco-pre-base-deletion"[9] == 'b';
    assert "noco-pre-manual-restore"[9..11] == "ma" && "noco-pre-migration"[9..11] == "mi";
  }

  lemma ArchivedHavePrefix(a: SnapshotName)
    ensures IsArchived(a) <==> a.snapshot.Archived?
  {
    if !a.snapshot.Archived? {
      assert Text(a)[5] != 'a' && ARCHIVED_PREFIX[5] == 'a';
    }
  }

  lemma FreshId(ids: set<nat>)
    ensures exists id: nat :: id !in ids
  {
    var bound := FreshBound(ids);
    assert bound !in ids;
  }

  lemma FreshBound(ids: set<nat>) returns (bound: nat)
    ensures forall id | id in ids :: id < bound
  {
    if ids == {} {
      bound := 0;
    } else {
      var id :| id in ids;
      var rest := FreshBound(ids - {id});
      assert forall i | i in ids :: i == id || i in ids - {id};
      bound := if rest <= id then id + 1 else rest;
    }
  }

  ghost predicate IsLive<D>(snapshots: map<SnapshotId, Snapshot<D>>, id: SnapshotId, kind: BackupSnapshot) {
    !kind.Archived? && id in snapshots && snapshots[id].name.snapshot == kind
  }

  ghost predicate HasLive<D>(snapshots: map<SnapshotId, Snapshot<D>>, kind: BackupSnapshot) {
    exists id :: IsLive(snapshots, id, kind)
  }

  /** A reserved name has at most one live snapshot, which holds what was captured last
      under that name. */
  ghost predicate SnapshotsValid<D>(snapshots: map<SnapshotId, Snapshot<D>>, latest: map<BackupSnapshot, D>) {
    && (forall i, j, kind :: IsLive(snapshots, i, kind) && IsLive(snapshots, j, kind) ==> i == j)
    && (forall i, kind :: IsLive(snapshots, i, kind) ==> kind in latest && snapshots[i].data == latest[kind])
  }

  ghost predicate NoneArchived<D>(snapshots: map<SnapshotId, Snapshot<D>>) {
    forall i | i in snapshots :: !snapshots[i].name.snapshot.Archived?
  }

  ghost predicate Captured<D>(snapshots: map<SnapshotId, Snapshot<D>>, d: D) {
    exists id :: id in snapshots && snapshots[id].data == d
  }

  /** Losing archived snapshots only does not touch a live one. */
  lemma OnlyArchivedGone<D>(
      before: map<SnapshotId, Snapshot<D>>, after: map<SnapshotId, Snapshot<D>>, latest: map<BackupSnapshot, D>)
    requires SnapshotsValid(before, latest)
    requires forall i | i in after :: i in before && after[i] == before[i]
    requires forall i | i in before && i !in after :: before[i].name.snapshot.Archived?
    ensures SnapshotsValid(after, latest)
    ensures forall k :: HasLive(after, k) <==> HasLive(before, k)
  {
    assert forall i, k :: IsLive(before, i, k) ==> IsLive(after, i, k);
    assert forall i, k :: IsLive(after, i, k) ==> IsLive(before, i, k);
  }

  lemma SnapshotAdded<D>(
      before: map<SnapshotId, Snapshot<D>>, latest: map<BackupSnapshot, D>, id: SnapshotId, kind: BackupSnapshot,
      data: D)
    requires SnapshotsValid(before, latest) && !kind.Archived? && !HasLive(before, kind) && id !in before
    ensures var after := before[id := Snapshot(ReservedName(kind), data)];
            && SnapshotsValid(after, latest[kind := data])
            && IsLive(after, id, kind)
            && (forall k :: k != kind ==> (HasLive(after, k) <==> HasLive(before, k)))
            && (forall d :: Captured(after, d) ==> d == data || Captured(before, d))
  {
    var after := before[id := Snapshot(ReservedName(kind), data)];
    assert IsLive(after, id, kind);
    assert forall i, k :: IsLive(after, i, k) ==> if i == id then k == kind else IsLive(before, i, k);
    assert forall i, k :: IsLive(before, i, k) ==> IsLive(after, i, k);
  }

  class Project<D(0, !new)> {
    const wire: Wire
    var main: BranchId   // the default branch
    var data: D
    var snapshots: map<SnapshotId, Snapshot<D>>
    var branches: map<BranchId, Branch>
    // What the most recent snapshot of each kind captured, whether or not it is still live.
    ghost var latest: map<BackupSnapshot, D>

    /** The default branch is there to be found, and found by its name only. */
    ghost predicate Valid()
      reads this
    {
      && main in branches
      && (forall b | b in branches :: branches[b].isDefault <==> b == main)
      && (forall b | b in branches :: branches[b].name == DEFAULT_BRANCH <==> b == main)
      && SnapshotsValid(snapshots, latest)
    }

    /** What the live snapshot of a kind holds. */
    ghost function Live(kind: BackupSnapshot): Option<D>
      requires Valid()
      reads this
    {
      if HasLive(snapshots, kind) then Some(latest[kind]) else None
    }

    /** What every live snapshot holds. */
    ghost function Backups(): (backups: map<BackupSnapshot, D>)
      requires Valid()
      reads this
      ensures forall k :: Live(k) == if k in backups then Some(backups[k]) else None
    {
      map k | k in latest && HasLive(snapshots, k) :: latest[k]
    }

    /** Whether `d` is anywhere in the project: on the default branch or in a snapshot. */
    ghost predicate Holds(d: D)
      reads this
    {
      d == data || Captured(snapshots, d)
    }

    constructor (initial: D, wire: Wire)
      ensures Valid() && data == initial && this.wire == wire
      ensures forall d :: Holds(d) ==> d == initial
      ensures forall kind :: Live(kind) == None
    {
      this.wire := wire;
      main := 0;
      data := initial;
      snapshots := map[];
      branches := map[0 := Branch(DEFAULT_BRANCH, None, true)];
      latest := map[];
    }

    /** A project with one backup. */
    constructor With(initial: D, kind: BackupSnapshot, captured: D, wire: Wire)
      requires !kind.Archived?
      ensures Valid() && data == initial && this.wire == wire
      ensures forall d :: Holds(d) ==> d == initial || d == captured
      ensures forall k :: Live(k) == if k == kind then Some(captured) else None
    {
      this.wire := wire;
      main := 0;
      data := initial;
      snapshots := map[0 := Snapshot(ReservedName(kind), captured)];
      branches := map[0 := Branch(DEFAULT_BRANCH, None, true)];
      latest := map[kind := captured];
      new;
      assert IsLive(snapshots, 0, kind);
    }

    // ---- Single calls of the Neon API ----

    method LookupProject() returns (ok: bool)
      modifies wire
      ensures wire.faults >= old(wire.faults)
      ensures ok <==> wire.faults == old(wire.faults)
    {
      var reply := wire.Call();
      ok := reply.Succeeded?;
    }

    method LookupDefaultBranch() returns (r: Result<BranchId, Error>)
      requires Valid()
      modifies wire
      ensures r.Success? ==> r.value == main
      ensures wire.faults >= old(wire.faults)
      ensures r.Success? <==> wire.faults == old(wire.faults)
      ensures wire.tolerated == old(wire.tolerated)
    {
      var reply := wire.Call();
      if !reply.Succeeded? {
        return Failure(Internal);
      }
      var id :| id in branches && branches[id].name == DEFAULT_BRANCH;
      return Success(id);
    }

    /** Looks for a reserved name by its text. */
    method LookupSnapshot(kind: BackupSnapshot) returns (r: Result<Option<SnapshotId>, Error>)
      requires !kind.Archived?
      modifies wire
      ensures r.Success? && r.value.Some? ==> IsLive(snapshots, r.value.value, kind)
      ensures r.Success? && r.value.None? ==> !HasLive(snapshots, kind)
      ensures wire.faults >= old(wire.faults)
      ensures r.Success? <==> wire.faults == old(wire.faults)
      ensures wire.tolerated == old(wire.tolerated)
    {
      var reply := wire.Call();
      if !reply.Succeeded? {
        return Failure(Internal);
      }
      if id :| id in snapshots && Text(snapshots[id].name) == Text(ReservedName(kind)) {
        NamesAreDistinct(snapshots[id].name, ReservedName(kind));
        return Success(Some(id));
      }
      return Success(None);
    }

    method RenameSnapshot(id: SnapshotId, name: SnapshotName) returns (ok: bool)
      requires id in snapshots
      modifies this`snapshots, wire
      ensures ok ==> snapshots == old(snapshots)[id := Snapshot(name, old(snapshots)[id].data)]
      ensures snapshots in {old(snapshots), old(snapshots)[id := Snapshot(name, old(snapshots)[id].data)]}
      ensures wire.faults >= old(wire.faults)
      ensures ok <==> wire.faults == old(wire.faults)
      ensures wire.tolerated == old(wire.tolerated)
    {
      var reply := wire.Call();
      if !reply.Refused? {
        snapshots := snapshots[id := Snapshot(name, snapshots[id].data)];
      }
      ok := reply.Succeeded?;
    }

    /** A "400 Bad Request" counts as success, so success does not mean that the snapshot is gone. */
    method TryDeleteSnapshot(id: SnapshotId) returns (ok: bool)
      modifies this`snapshots, wire
      ensures snapshots == old(snapshots) || snapshots == old(snapshots) - {id}
      ensures wire.faults == old(wire.faults) && wire.tolerated == old(wire.tolerated) ==>
                snapshots == old(snapshots) - {id}
      ensures wire.tolerated >= old(wire.tolerated)
      ensures wire.faults >= old(wire.faults)
      ensures ok <==> wire.faults == old(wire.faults)
    {
      var reply := wire.Call();
      var badRequest: bool := *;
      if !reply.Refused? {
        snapshots := snapshots - {id};
      }
      if reply.Refused? && badRequest {
        wire.Tolerate();
        return true;
      }
      ok := reply.Succeeded?;
    }

    method CreateSnapshot(branch: BranchId, kind: BackupSnapshot) returns (r: Result<SnapshotId, Error>)
      requires branch == main && !kind.Archived? && Valid() && !HasLive(snapshots, kind)
      modifies this`snapshots, this`latest, wire
      ensures Valid()
      ensures r.Success? ==> IsLive(snapshots, r.value, kind) && Live(kind) == Some(data)
      ensures Live(kind) in {None, Some(data)}
      ensures forall k :: k != kind ==> Live(k) == old(Live(k))
      ensures forall i | i in old(snapshots) :: i in snapshots && snapshots[i] == old(snapshots)[i]
      ensures forall i | i in snapshots && i !in old(snapshots) :: snapshots[i].name == ReservedName(kind)
      ensures forall d :: Captured(snapshots, d) ==> old(Holds(d))
      ensures r.Failure? ==> r.error == Internal
      ensures wire.faults >= old(wire.faults)
      ensures r.Success? <==> wire.faults == old(wire.faults)
      ensures wire.tolerated == old(wire.tolerated)
    {
      var reply := wire.Call();
      if reply.Refused? {
        return Failure(Internal);
      }
      FreshId(snapshots.Keys);
      var id :| id !in snapshots.Keys;
      SnapshotAdded(snapshots, latest, id, kind, data);
      snapshots := snapshots[id := Snapshot(ReservedName(kind), data)];
      latest := latest[kind := data];
      r := if reply.Succeeded? then Success(id) else Failure(Internal);
    }

    method PostRestore(branch: BranchId, to: SnapshotId) returns (ok: bool, ghost left: BranchId)
      requires Valid() && branch == main && to in snapshots
      modifies this`main, this`data, this`branches, wire
      ensures Valid()
      ensures forall k :: Live(k) == old(Live(k))
      ensures ok ==> data == snapshots[to].data
      ensures data == old(data) || data == snapshots[to].data
      ensures wire.faults >= old(wire.faults)
      ensures ok <==> wire.faults == old(wire.faults)
      ensures forall b | b in branches && b !in {old(main), left} ::
                b in old(branches) && branches[b] == old(branches)[b]
    {
      left := branch;
      var reply := wire.Call();
      if !reply.Refused? {
        data := snapshots[to].data;
        FreshId(branches.Keys);
        var other :| other !in branches.Keys;
        left := other;
        var takesOver: bool, leavesBranch: bool := *, *;
        if takesOver {
          var replaced := branches[main].(name := "main-old", isDefault := false);
          branches := branches[main := replaced][other := Branch(DEFAULT_BRANCH, Some(to), true)];
          main := other;
        } else if leavesBranch {
          branches := branches[other := Branch("main-old", Some(to), false)];
        }
      }
      ok := reply.Succeeded?;
    }

    // ---- Operations made of several calls ----

    /** Deletes the branches that earlier restores left behind, never the default branch. */
    method DeleteSnapshotRestoreBranches() returns (ok: bool)
      requires Valid()
      modifies this`branches, wire
      ensures Valid()
      ensures forall k :: Live(k) == old(Live(k))
      ensures branches.Keys <= old(branches).Keys
      ensures forall b | b in old(branches) && (old(branches)[b].isDefault || old(branches)[b].restoredFrom.None?) ::
                b in branches && branches[b] == old(branches)[b]
      ensures ok ==> forall b | b in branches :: branches[b].isDefault || branches[b].restoredFrom.None?
      ensures wire.faults >= old(wire.faults)
      ensures ok <==> wire.faults == old(wire.faults)
    {
      var reply := wire.Call();
      if !reply.Succeeded? {
        return false;
      }
      var doomed := set b | b in branches && branches[b].restoredFrom.Some? && !branches[b].isDefault;
      while doomed != {}
        invariant wire.faults == old(wire.faults)
        invariant Valid()
        invariant forall k :: Live(k) == old(Live(k))
        invariant branches.Keys <= old(branches).Keys
        invariant forall b | b in branches :: branches[b] == old(branches)[b]
        invariant forall b | b in old(branches) &&
                  (old(branches)[b].isDefault || old(branches)[b].restoredFrom.None?) ::
                    b in branches && b !in doomed
        invariant forall b | b in branches && branches[b].restoredFrom.Some? && !branches[b].isDefault :: b in doomed
        decreases doomed
      {
        var b :| b in doomed;
        doomed := doomed - {b};
        reply := wire.Call();
        if !reply.Refused? {
          branches := branches - {b};
        }
        if !reply.Succeeded? {
          return false;
        }
      }
      ok := true;
    }

    /** Takes the live snapshot of a kind, if any, out of use by giving it an archived name. */
    method SoftDeleteSnapshotWithName(kind: BackupSnapshot) returns (ok: bool)
      requires Valid() && !kind.Archived?
      modifies this`snapshots, wire
      ensures Valid()
      ensures ok ==> !HasLive(snapshots, kind)
      ensures Live(kind) in {None, old(Live(kind))}
      ensures forall k :: k != kind ==> Live(k) == old(Live(k))
      ensures forall i | i in old(snapshots) && old(snapshots)[i].name.snapshot != kind ::
                i in snapshots && snapshots[i] == old(snapshots)[i]
      ensures forall d :: Captured(snapshots, d) ==> old(Captured(snapshots, d))
      ensures wire.faults >= old(wire.faults)
      ensures ok <==> wire.faults == old(wire.faults)
      ensures wire.tolerated == old(wire.tolerated)
    {
      var lookup := LookupSnapshot(kind);
      if lookup.Failure? {
        return false;
      }
      if lookup.value.None? {
        return true;
      }
      var id := lookup.value.value;
      var digits: string := *;
      ghost var was := snapshots;
      ok := RenameSnapshot(id, SnapshotName(Archived, digits));
      assert forall i, k :: IsLive(snapshots, i, k) ==> IsLive(was, i, k) && snapshots[i] == was[i];
      assert forall i, k | k != kind :: IsLive(was, i, k) ==> IsLive(snapshots, i, k);
      assert ok && HasLive(snapshots, kind) ==> IsLive(was, id, kind);
    }

    /** Deletes archived snapshots; no live one is ever removed. */
    method GarbageCollectArchivedSnapshots() returns (ok: bool)
      requires Valid()
      modifies this`snapshots, wire
      ensures Valid()
      ensures forall k :: Live(k) == old(Live(k))
      ensures snapshots.Keys <= old(snapshots).Keys
      ensures forall i | i in snapshots :: snapshots[i] == old(snapshots)[i]
      ensures forall i | i in old(snapshots) && i !in snapshots :: old(snapshots)[i].name.snapshot.Archived?
      ensures wire.faults == old(wire.faults) && wire.tolerated == old(wire.tolerated) ==> NoneArchived(snapshots)
      ensures wire.tolerated >= old(wire.tolerated)
      ensures wire.faults >= old(wire.faults)
      ensures ok <==> wire.faults == old(wire.faults)
    {
      var reply := wire.Call();
      if !reply.Succeeded? {
        return false;
      }
      forall i | i in snapshots
        ensures IsArchived(snapshots[i].name) <==> snapshots[i].name.snapshot.Archived?
      {
        ArchivedHavePrefix(snapshots[i].name);
      }
      var archived := set i | i in snapshots && IsArchived(snapshots[i].name);
      ok := true;
      while ok && archived != {}
        invariant wire.faults >= old(wire.faults) && (ok <==> wire.faults == old(wire.faults))
        invariant wire.tolerated >= old(wire.tolerated)
        invariant snapshots.Keys <= old(snapshots).Keys
        invariant forall i | i in snapshots :: snapshots[i] == old(snapshots)[i]
        invariant forall i | i in archived :: i in old(snapshots) && old(snapshots)[i].name.snapshot.Archived?
        invariant forall i | i in old(snapshots) && i !in snapshots :: old(snapshots)[i].name.snapshot.Archived?
        invariant ok && wire.tolerated == old(wire.tolerated) ==>
                    forall i | i in snapshots && snapshots[i].name.snapshot.Archived? :: i in archived
        decreases archived
      {
        var i :| i in archived;
        archived := archived - {i};
        ok := TryDeleteSnapshot(i);
      }
      OnlyArchivedGone(old(snapshots), snapshots, latest);
    }

    /** On success the one live snapshot of `kind` holds the current content. Whatever happens,
        the snapshots of the other kinds stay what they were and no content is made up. */
    method CreateBackup(kind: BackupSnapshot) returns (r: Result<SnapshotId, Error>)
      requires Valid() && !kind.Archived?
      modifies this`snapshots, this`latest, wire
      ensures Valid()
      ensures r.Success? ==> IsLive(snapshots, r.value, kind) && Live(kind) == Some(data)
      ensures Live(kind) in {old(Live(kind)), None, Some(data)}
      ensures forall k :: k != kind ==> Live(k) == old(Live(k))
      ensures forall i | i in old(snapshots) && old(snapshots)[i].name.snapshot != kind
                      && !old(snapshots)[i].name.snapshot.Archived? ::
                i in snapshots && snapshots[i] == old(snapshots)[i]
      ensures forall d :: Captured(snapshots, d) ==> old(Holds(d))
      ensures r.Failure? ==> r.error == Internal
      ensures wire.faults == old(wire.faults) && wire.tolerated == old(wire.tolerated) ==> NoneArchived(snapshots)
      ensures wire.tolerated >= old(wire.tolerated)
      ensures wire.faults >= old(wire.faults)
      ensures r.Success? <==> wire.faults == old(wire.faults)
    {
      var branch := LookupDefaultBranch();
      if branch.Failure? {
        return Failure(Internal);
      }
      var ok := SoftDeleteSnapshotWithName(kind);
      if !ok {
        return Failure(Internal);
      }
      ok := GarbageCollectArchivedSnapshots();
      if !ok {
        return Failure(Internal);
      }
      r := CreateSnapshot(branch.value, kind);
    }

    /** Puts the content of a snapshot on the default branch. Branches that earlier restores left behind are gone
        then; this one leaves no more than the branch it replaced and a new one. */
    method RestoreToSnapshot(branch: BranchId, to: SnapshotId) returns (ok: bool, ghost left: BranchId)
      requires Valid() && branch == main && to in snapshots
      modifies this`main, this`data, this`branches, wire
      ensures Valid()
      ensures forall k :: Live(k) == old(Live(k))
      ensures ok ==> data == snapshots[to].data
      ensures data == old(data) || data == snapshots[to].data
      ensures wire.faults >= old(wire.faults)
      ensures ok <==> wire.faults == old(wire.faults)
      ensures ok ==> forall b | b in branches && branches[b].restoredFrom.Some? :: b in {old(main), left}
    {
      left := branch;
      ok := DeleteSnapshotRestoreBranches();
      if ok {
        ok, left := PostRestore(branch, to);
      }
    }

    /** A successful restore of `kind` puts back exactly what its live snapshot held, and keeps
        the replaced content in the manual-restore snapshot. Without a live snapshot nothing is restored. */
    method RestoreBackup(kind: BackupKind) returns (r: Result<(), Error>)
      requires Valid()
      modifies this`main, this`data, this`snapshots, this`branches, this`latest, wire
      ensures Valid()
      ensures r.Success? ==> old(Live(Source(kind))) == Some(data) && Live(ManualRestore) == Some(old(data))
      ensures r.Failure? ==> data == old(data) || old(Live(Source(kind))) == Some(data)
      ensures old(Live(Source(kind))) == None ==> r.Failure? && data == old(data)
      ensures r.Failure? ==> r.error in {Internal, NoSnapshot}
      ensures forall k :: k != ManualRestore ==> Live(k) == old(Live(k))
      ensures forall d :: Holds(d) ==> old(Holds(d))
      ensures wire.faults >= old(wire.faults)
      ensures r.Success? ==> wire.faults == old(wire.faults)
      ensures r.Failure? && old(Live(Source(kind))).Some? ==> wire.faults > old(wire.faults)
    {
      var ok := LookupProject();
      if !ok {
        return Failure(Internal);
      }
      var branch := LookupDefaultBranch();
      if branch.Failure? {
        return Failure(Internal);
      }
      var manual := CreateBackup(ManualRestore);
      if manual.Failure? {
        return Failure(Internal);
      }
      var source := LookupSnapshot(Source(kind));
      if source.Failure? {
        return Failure(Internal);
      }
      if source.value.None? {
        return Failure(NoSnapshot);
      }
      assert IsLive(snapshots, source.value.value, Source(kind));
      assert Live(Source(kind)) == Some(snapshots[source.value.value].data) == old(Live(Source(kind)));
      ghost var left: BranchId;
      ok, left := RestoreToSnapshot(branch.value, source.value.value);
      r := if ok then Success(()) else Failure(Internal);
    }

    /** The part of `with_rollback` before the protected operation. */
    method Begin() returns (r: Result<Transaction, Error>)
      requires Valid()
      modifies this`snapshots, this`latest, wire
      ensures Valid()
      ensures r.Success? ==> r.value.branch == main && IsLive(snapshots, r.value.checkpoint, Checkpoint)
      ensures r.Success? ==> snapshots[r.value.checkpoint].data == data
      ensures forall k :: k != Checkpoint ==> Live(k) == old(Live(k))
      ensures forall d :: Captured(snapshots, d) ==> old(Holds(d))
      ensures r.Failure? ==> r.error == Internal
      ensures wire.faults >= old(wire.faults)
      ensures r.Success? <==> wire.faults == old(wire.faults)
    {
      var ok := LookupProject();
      if !ok {
        return Failure(Internal);
      }
      var branch := LookupDefaultBranch();
      if branch.Failure? {
        return Failure(Internal);
      }
      var checkpoint := CreateBackup(Checkpoint);
      if checkpoint.Failure? {
        return Failure(Internal);
      }
      r := Success(Transaction(branch.value, checkpoint.value));
    }

    /** The part of `with_rollback` after the protected operation: undo it if it failed.
        The error tells whether the content is back to what it was at `Begin`. */
    method End<T>(t: Transaction, outcome: Result<T, Error>) returns (r: Result<T, Error>)
      requires Valid() && t.branch == main && t.checkpoint in snapshots
      requires outcome.Failure? ==> outcome.error != RestoreFailed
      modifies this`main, this`data, this`branches, wire
      ensures Valid()
      ensures forall k :: Live(k) == old(Live(k))
      ensures outcome.Success? ==> r == outcome && data == old(data)
      ensures outcome.Failure? ==> r == outcome || r == Failure(RestoreFailed)
      ensures r == outcome && r.Failure? ==> data == snapshots[t.checkpoint].data
      ensures data == old(data) || data == snapshots[t.checkpoint].data
      ensures wire.faults >= old(wire.faults)
      ensures r == outcome ==> wire.faults == old(wire.faults)
      ensures r != outcome ==> wire.faults > old(wire.faults)
    {
      r := outcome;
      if outcome.Failure? {
        var ok: bool;
        ghost var left: BranchId;
        ok, left := RestoreToSnapshot(t.branch, t.checkpoint);
        if !ok {
          r := Failure(RestoreFailed);
        }
      }
    }
  }
}

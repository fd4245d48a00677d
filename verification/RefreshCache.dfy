/** The two-level stale-while-revalidate cache as interleaved steps: client requests, the background
    tasks they start in any number of isolates, and everything that can happen around them.
    The edge cache expires; the persistent cache in KV does not. */
module RefreshCache {
  import opened Wrappers

  type Isolate = nat
  type TaskId = nat
  type Value = string

  datatype Key = Key(env: string, endpoint: string)

  /** The text under which an isolate notes that a refresh of a key is running. */
  function RefreshKey(key: Key): string {
    key.env + ":" + key.endpoint
  }

  /** It stands for one environment and endpoint, colons in the name of the environment or not. */
  lemma RefreshKeysAreDistinct(a: Key, b: Key)
    requires ':' !in a.endpoint && ':' !in b.endpoint
    ensures RefreshKey(a) == RefreshKey(b) <==> a == b
  {
    LastColon(a);
    LastColon(b);
    if RefreshKey(a) == RefreshKey(b) {
      assert |a.env| == |b.env|;
      assert a.env == RefreshKey(a)[..|a.env|] && a.endpoint == RefreshKey(a)[|a.env| + 1..];
      assert b.env == RefreshKey(b)[..|b.env|] && b.endpoint == RefreshKey(b)[|b.env| + 1..];
    }
  }

  lemma LastColon(key: Key)
    requires ':' !in key.endpoint
    ensures RefreshKey(key)[|key.env|] == ':'
    ensures forall i | |key.env| < i < |RefreshKey(key)| :: RefreshKey(key)[i] != ':'
  {
  }

  /** A value NocoDB holds from a certain time on. */
  datatype Revision = Revision(value: Value, since: nat)

  /** A value fetched from NocoDB: the `index`th revision, read at `fetchedAt`. */
  datatype Fetched = Fetched(value: Value, index: nat, fetchedAt: nat)

  datatype EdgeEntry = EdgeEntry(fetched: Fetched, putAt: nat, ttlMillis: nat)

  /** `Refresh` is the background task of a warm request and holds the lock of its key; `Fill` is
      a cold request that waits for NocoDB; `Announce` re-seeds the caches after a webhook. */
  datatype Kind = Refresh | Fill | Announce

  datatype Phase = Fetching | Putting(fetched: Fetched) | Caching(fetched: Fetched) | Finished

  datatype Task = Task(isolate: Isolate, key: Key, kind: Kind, phase: Phase)

  datatype Answer = Answer(key: Key, fetched: Fetched, stale: bool, at: nat, edge: Option<EdgeEntry>)

  datatype KvWrite = KvWrite(task: Task, fetched: Fetched)

  datatype State = State(
    now: nat,                               // milliseconds
    history: map<Key, seq<Revision>>,
    kv: map<Key, Fetched>,
    edge: map<Key, EdgeEntry>,
    inflight: set<(Isolate, Key)>,
    tasks: map<TaskId, Task>,
    answers: seq<Answer>,
    kvWrites: seq<KvWrite>)

  datatype Event =
    | Tick(millis: nat)
    | Change(key: Key, value: Value)
    | Request(isolate: Isolate, key: Key, task: TaskId, kvFails: bool)
    | StartAnnounce(isolate: Isolate, env: string, task: TaskId)
    | Fetch(task: TaskId, ok: bool)
    | PutKv(task: TaskId, ok: bool)
    | PutEdge(task: TaskId, ok: bool, ttlMillis: nat)
    | PurgeAfterAnnounce(task: TaskId, ok: bool)
    | Release(task: TaskId)
    | Evict(key: Key)
    | Purge(env: string)
    | DeleteCache(env: string)

  function Initial(history: map<Key, seq<Revision>>): State {
    State(0, history, map[], map[], {}, map[], [], [])
  }

  /** `s-maxage` is in whole seconds. */
  function MaxAge(ttlMillis: nat): nat {
    ttlMillis / 1000 * 1000
  }

  predicate EdgeHit(s: State, key: Key) {
    key in s.edge && s.now < s.edge[key].putAt + MaxAge(s.edge[key].ttlMillis)
  }

  predicate HasValue(s: State, k: Key) {
    k in s.history && s.history[k] != []
  }

  predicate Enabled(s: State, e: Event) {
    match e
    case Tick(_) => true
    case Change(_, _) => true
    case Request(_, _, id, _) => id !in s.tasks
    case StartAnnounce(_, _, id) => id !in s.tasks
    case Fetch(id, ok) => id in s.tasks && s.tasks[id].phase.Fetching?
                          && (ok ==> HasValue(s, s.tasks[id].key))
    case PutKv(id, _) => id in s.tasks && s.tasks[id].phase.Putting?
    case PutEdge(id, _, _) => id in s.tasks && s.tasks[id].phase.Caching? && !s.tasks[id].kind.Announce?
    case PurgeAfterAnnounce(id, _) => id in s.tasks && s.tasks[id].phase.Caching? && s.tasks[id].kind.Announce?
    case Release(id) => id in s.tasks && s.tasks[id].phase.Finished?
    case Evict(_) => true
    case Purge(_) => true
    case DeleteCache(_) => true
  }

  function OfEnv(keys: set<Key>, env: string): set<Key> {
    set k | k in keys && k.env == env
  }

  function Move(s: State, id: TaskId, phase: Phase): State
    requires id in s.tasks
  {
    s.(tasks := s.tasks[id := s.tasks[id].(phase := phase)])
  }

  function Drop(s: State, id: TaskId): State {
    s.(tasks := s.tasks - {id})
  }

  function Reply(s: State, key: Key, fetched: Fetched, stale: bool, edge: Option<EdgeEntry>): State {
    s.(answers := s.answers + [Answer(key, fetched, stale, s.now, edge)])
  }

  function Latest(s: State, key: Key): Fetched
    requires HasValue(s, key)
  {
    var index := |s.history[key]| - 1;
    Fetched(s.history[key][index].value, index, s.now)
  }

  function OnRequest(s: State, isolate: Isolate, key: Key, id: TaskId, kvFails: bool): State {
    if EdgeHit(s, key) then
      Reply(s, key, s.edge[key].fetched, false, Some(s.edge[key]))
    else if key in s.kv && !kvFails then
      var answered := Reply(s, key, s.kv[key], true, None);
      if (isolate, key) in s.inflight then answered
      else answered.(inflight := s.inflight + {(isolate, key)},
                     tasks := s.tasks[id := Task(isolate, key, Refresh, Fetching)])
    else
      s.(tasks := s.tasks[id := Task(isolate, key, Fill, Fetching)])
  }

  function OnFetch(s: State, id: TaskId, ok: bool): State
    requires Enabled(s, Fetch(id, ok))
  {
    var task := s.tasks[id];
    if ok then
      var latest := Latest(s, task.key);
      var moved := Move(s, id, Putting(latest));
      if task.kind.Fill? then Reply(moved, task.key, latest, true, None) else moved
    else if task.kind.Refresh? then Move(s, id, Finished)
    else Drop(s, id)
  }

  function OnPutKv(s: State, id: TaskId, ok: bool): State
    requires Enabled(s, PutKv(id, ok))
  {
    var task := s.tasks[id];
    var fetched := task.phase.fetched;
    if ok then
      Move(s, id, Caching(fetched)).(kv := s.kv[task.key := fetched], kvWrites := s.kvWrites + [KvWrite(task, fetched)])
    else if task.kind.Announce? then Drop(s, id)
    else Move(s, id, Caching(fetched))
  }

  function OnPutEdge(s: State, id: TaskId, ok: bool, ttlMillis: nat): State
    requires Enabled(s, PutEdge(id, ok, ttlMillis))
  {
    var task := s.tasks[id];
    var done := if task.kind.Refresh? then Move(s, id, Finished) else Drop(s, id);
    if ok then done.(edge := s.edge[task.key := EdgeEntry(task.phase.fetched, s.now, ttlMillis)]) else done
  }

  function OnChange(s: State, key: Key, value: Value): State {
    var past := if key in s.history then s.history[key] else [];
    s.(history := s.history[key := past + [Revision(value, s.now)]])
  }

  function OnStartAnnounce(s: State, isolate: Isolate, env: string, id: TaskId): State {
    s.(tasks := s.tasks[id := Task(isolate, Key(env, "announcements"), Announce, Fetching)])
  }

  function OnPurgeAfterAnnounce(s: State, id: TaskId, ok: bool): State
    requires id in s.tasks
  {
    var dropped := Drop(s, id);
    if ok then dropped.(edge := s.edge - OfEnv(s.edge.Keys, s.tasks[id].key.env)) else dropped
  }

  function OnRelease(s: State, id: TaskId): State
    requires id in s.tasks
  {
    Drop(s, id).(inflight := s.inflight - {(s.tasks[id].isolate, s.tasks[id].key)})
  }

  function Next(s: State, e: Event): State
    requires Enabled(s, e)
  {
    match e
    case Tick(millis) => s.(now := s.now + millis)
    case Change(key, value) => OnChange(s, key, value)
    case Request(isolate, key, id, kvFails) => OnRequest(s, isolate, key, id, kvFails)
    case StartAnnounce(isolate, env, id) => OnStartAnnounce(s, isolate, env, id)
    case Fetch(id, ok) => OnFetch(s, id, ok)
    case PutKv(id, ok) => OnPutKv(s, id, ok)
    case PutEdge(id, ok, ttlMillis) => OnPutEdge(s, id, ok, ttlMillis)
    case PurgeAfterAnnounce(id, ok) => OnPurgeAfterAnnounce(s, id, ok)
    case Release(id) => OnRelease(s, id)
    case Evict(key) => s.(edge := s.edge - {key})
    case Purge(env) => s.(edge := s.edge - OfEnv(s.edge.Keys, env))
    case DeleteCache(env) => s.(kv := s.kv - OfEnv(s.kv.Keys, env))
  }

  /** The events of a run, each enabled when its turn comes. */
  predicate CanRun(s: State, run: seq<Event>)
    decreases |run|
  {
    run == [] || (Enabled(s, run[0]) && CanRun(Next(s, run[0]), run[1..]))
  }

  function Run(s: State, run: seq<Event>): State
    requires CanRun(s, run)
    decreases |run|
  {
    if run == [] then s else Run(Next(s, run[0]), run[1..])
  }

  // ---- Every value comes from NocoDB ----

  /** `f` is what NocoDB held for `key` at the time it was fetched. */
  ghost predicate WasHeld(history: map<Key, seq<Revision>>, now: nat, key: Key, f: Fetched) {
    && key in history
    && f.index < |history[key]|
    && history[key][f.index].value == f.value
    && history[key][f.index].since <= f.fetchedAt <= now
    && (f.index + 1 < |history[key]| ==> f.fetchedAt <= history[key][f.index + 1].since)
  }

  ghost predicate HistoryValid(s: State) {
    forall k, i | k in s.history && 0 <= i < |s.history[k]| ::
      s.history[k][i].since <= s.now
  }

  ghost predicate EntryValid(s: State, key: Key, e: EdgeEntry) {
    WasHeld(s.history, s.now, key, e.fetched) && e.fetched.fetchedAt <= e.putAt <= s.now
  }

  ghost predicate Carries(t: Task) {
    t.phase.Putting? || t.phase.Caching?
  }

  /** A fresh answer is younger than the configured time to live plus the delay between fetch and put. */
  ghost predicate AnswerValid(s: State, a: Answer) {
    && WasHeld(s.history, s.now, a.key, a.fetched)
    && a.fetched.fetchedAt <= a.at <= s.now
    && (!a.stale ==> && a.edge.Some?
                     && a.edge.value.fetched == a.fetched
                     && a.fetched.fetchedAt <= a.edge.value.putAt
                     && a.at - a.fetched.fetchedAt <
                        a.edge.value.ttlMillis + (a.edge.value.putAt - a.fetched.fetchedAt))
  }

  ghost predicate Provenance(s: State) {
    && HistoryValid(s)
    && (forall k | k in s.kv :: WasHeld(s.history, s.now, k, s.kv[k]))
    && (forall k | k in s.edge :: EntryValid(s, k, s.edge[k]))
    && (forall id | id in s.tasks && Carries(s.tasks[id]) ::
          WasHeld(s.history, s.now, s.tasks[id].key, s.tasks[id].phase.fetched))
    && (forall a | a in s.answers :: AnswerValid(s, a))
  }

  // ---- One step, store by store ----

  /** Where an entry of KV, of the edge cache, a task or an answer comes from in the step from `s` to `t`. */
  ghost predicate KvStep(s: State, e: Event, t: State, k: Key) {
    if e.PutKv? && e.ok && Holds(s, e.task, k) then k in t.kv && t.kv[k] == s.tasks[e.task].phase.fetched
    else
      && (k in t.kv <==> k in s.kv && e != DeleteCache(k.env))
      && (k in t.kv ==> t.kv[k] == s.kv[k])
  }

  /** Events that take an entry out of the edge cache. */
  predicate Empties(s: State, e: Event, k: Key) {
    || e == Evict(k)
    || e == Purge(k.env)
    || (e.PurgeAfterAnnounce? && e.ok && e.task in s.tasks && s.tasks[e.task].key.env == k.env)
  }

  ghost predicate EdgeStep(s: State, e: Event, t: State, k: Key) {
    if e.PutEdge? && e.ok && Holds(s, e.task, k) then
      k in t.edge && t.edge[k] == EdgeEntry(s.tasks[e.task].phase.fetched, s.now, e.ttlMillis)
    else
      && (k in t.edge <==> k in s.edge && !Empties(s, e, k))
      && (k in t.edge ==> t.edge[k] == s.edge[k])
  }

  ghost predicate Holds(s: State, id: TaskId, k: Key) {
    id in s.tasks && s.tasks[id].key == k && Carries(s.tasks[id])
  }

  ghost predicate TaskStep(s: State, e: Event, t: State, id: TaskId) {
    id in t.tasks ==>
      if id in s.tasks then
        t.tasks[id] == s.tasks[id].(phase := t.tasks[id].phase) && PhaseStep(s, e, id, t.tasks[id].phase)
      else
        TaskStarted(s, e, id, t.tasks[id])
  }

  ghost predicate TaskStarted(s: State, e: Event, id: TaskId, task: Task) {
    match e
    case Request(isolate, key, started, kvFails) =>
      id == started && ((task == Task(isolate, key, Refresh, Fetching) && (isolate, key) !in s.inflight)
                   || (task == Task(isolate, key, Fill, Fetching) && (key !in s.kv || kvFails)))
    case StartAnnounce(isolate, env, started) =>
      id == started && task == Task(isolate, Key(env, "announcements"), Announce, Fetching)
    case _ => false
  }

  ghost predicate PhaseStep(s: State, e: Event, id: TaskId, phase: Phase)
    requires id in s.tasks
  {
    var was := s.tasks[id];
    || phase == was.phase
    || (e == Fetch(id, true) && was.phase.Fetching? && HasValue(s, was.key) && phase == Putting(Latest(s, was.key)))
    || (e == Fetch(id, false) && was.kind.Refresh? && phase.Finished?)
    || (e.PutKv? && e.task == id && was.phase.Putting? && phase == Caching(was.phase.fetched))
    || (e.PutEdge? && e.task == id && was.phase.Caching? && was.kind.Refresh? && phase.Finished?)
  }

  ghost predicate HistoryStep(s: State, e: Event, t: State) {
    && s.now <= t.now
    && (forall k | k in s.history :: k in t.history && s.history[k] <= t.history[k])
    && (forall k | k in s.history && !(e.Change? && e.key == k) :: t.history[k] == s.history[k])
    && (forall k, i | k in t.history && 0 <= i < |t.history[k]| && (k in s.history ==> |s.history[k]| <= i) ::
          t.history[k][i].since == s.now)
  }

  function NewAnswers(s: State, e: Event): seq<Answer>
    requires Enabled(s, e)
  {
    if e.Request? then
      var k := e.key;
      if EdgeHit(s, k) then [Answer(k, s.edge[k].fetched, false, s.now, Some(s.edge[k]))]
      else if k in s.kv && !e.kvFails then [Answer(k, s.kv[k], true, s.now, None)] else []
    else if e.Fetch? && e.ok && s.tasks[e.task].kind.Fill? then
      [Answer(s.tasks[e.task].key, Latest(s, s.tasks[e.task].key), true, s.now, None)]
    else []
  }

  ghost predicate Step(s: State, e: Event, t: State) {
    && Enabled(s, e)
    && HistoryStep(s, e, t)
    && (forall k :: KvStep(s, e, t, k))
    && (forall k :: EdgeStep(s, e, t, k))
    && (forall id :: TaskStep(s, e, t, id))
    && t.answers == s.answers + NewAnswers(s, e)
  }

  lemma NextKv(s: State, e: Event, k: Key)
    requires Enabled(s, e)
    ensures KvStep(s, e, Next(s, e), k)
  {
  }

  lemma NextEdge(s: State, e: Event, k: Key)
    requires Enabled(s, e)
    ensures EdgeStep(s, e, Next(s, e), k)
  {
  }

  lemma NextTaskOfRequest(s: State, e: Event, id: TaskId)
    requires Enabled(s, e) && (e.Request? || e.StartAnnounce?)
    ensures TaskStep(s, e, Next(s, e), id)
  {
  }

  lemma NextTaskOfTask(s: State, e: Event, id: TaskId)
    requires Enabled(s, e) && (e.Fetch? || e.PutKv? || e.PutEdge?)
    ensures TaskStep(s, e, Next(s, e), id)
  {
  }

  lemma NextTask(s: State, e: Event, id: TaskId)
    requires Enabled(s, e)
    ensures TaskStep(s, e, Next(s, e), id)
  {
    if e.Request? || e.StartAnnounce? {
      NextTaskOfRequest(s, e, id);
    } else if e.Fetch? || e.PutKv? || e.PutEdge? {
      NextTaskOfTask(s, e, id);
    } else {
      assert id in Next(s, e).tasks ==> id in s.tasks && Next(s, e).tasks[id] == s.tasks[id];
    }
  }

  lemma NextHistory(s: State, e: Event)
    requires Enabled(s, e)
    ensures HistoryStep(s, e, Next(s, e))
  {
    if e.Tick? {
    } else if e.Change? {
    } else {
      HistoryStays(s, e);
    }
  }

  lemma HistoryStays(s: State, e: Event)
    requires Enabled(s, e) && !e.Tick? && !e.Change?
    ensures Next(s, e).history == s.history && Next(s, e).now == s.now
  {
  }

  lemma NextAnswers(s: State, e: Event)
    requires Enabled(s, e)
    ensures Next(s, e).answers == s.answers + NewAnswers(s, e)
  {
    assert s.answers + [] == s.answers;
  }

  lemma NextIsStep(s: State, e: Event)
    requires Enabled(s, e)
    ensures Step(s, e, Next(s, e))
  {
    NextHistory(s, e);
    NextAnswers(s, e);
    forall k ensures KvStep(s, e, Next(s, e), k) { NextKv(s, e, k); }
    forall k ensures EdgeStep(s, e, Next(s, e), k) { NextEdge(s, e, k); }
    forall id ensures TaskStep(s, e, Next(s, e), id) { NextTask(s, e, id); }
  }

  // ---- Provenance is kept ----

  lemma HeldLater(s: State, e: Event, t: State, key: Key, f: Fetched)
    requires HistoryStep(s, e, t) && HistoryValid(s) && WasHeld(s.history, s.now, key, f)
    ensures WasHeld(t.history, t.now, key, f)
  {
  }

  lemma StoresKept(s: State, e: Event, t: State)
    requires Step(s, e, t) && Provenance(s)
    ensures HistoryValid(t)
    ensures forall k | k in t.kv :: WasHeld(t.history, t.now, k, t.kv[k])
    ensures forall k | k in t.edge :: EntryValid(t, k, t.edge[k])
  {
    forall k | k in t.kv ensures WasHeld(t.history, t.now, k, t.kv[k]) {
      assert KvStep(s, e, t, k);
      HeldLater(s, e, t, k, t.kv[k]);
    }
    forall k | k in t.edge ensures EntryValid(t, k, t.edge[k]) {
      assert EdgeStep(s, e, t, k);
      HeldLater(s, e, t, k, t.edge[k].fetched);
    }
  }

  lemma LatestIsHeld(s: State, k: Key)
    requires HistoryValid(s) && HasValue(s, k)
    ensures WasHeld(s.history, s.now, k, Latest(s, k))
  {
  }

  lemma TasksKept(s: State, e: Event, t: State)
    requires Step(s, e, t) && Provenance(s)
    ensures forall id | id in t.tasks && Carries(t.tasks[id]) ::
              WasHeld(t.history, t.now, t.tasks[id].key, t.tasks[id].phase.fetched)
  {
    forall id | id in t.tasks && Carries(t.tasks[id])
      ensures WasHeld(t.history, t.now, t.tasks[id].key, t.tasks[id].phase.fetched)
    {
      assert TaskStep(s, e, t, id);
      if HasValue(s, t.tasks[id].key) {
        LatestIsHeld(s, t.tasks[id].key);
      }
      HeldLater(s, e, t, t.tasks[id].key, t.tasks[id].phase.fetched);
    }
  }

  lemma AnswersKept(s: State, e: Event, t: State)
    requires Step(s, e, t) && Provenance(s)
    ensures forall a | a in t.answers :: AnswerValid(t, a)
  {
  }

  lemma ProvenanceKept(s: State, e: Event, t: State)
    requires Step(s, e, t) && Provenance(s)
    ensures Provenance(t)
  {
    StoresKept(s, e, t);
    TasksKept(s, e, t);
    AnswersKept(s, e, t);
  }

  // ---- The lock ----

  ghost predicate IsRefresh(s: State, id: TaskId, isolate: Isolate, key: Key) {
    id in s.tasks && s.tasks[id].kind.Refresh? && s.tasks[id].isolate == isolate && s.tasks[id].key == key
  }

  /** A key is in an isolate's in-flight set iff a refresh of it is running there, and then just one is. */
  ghost predicate Locked(s: State) {
    && (forall i: Isolate, k :: (i, k) in s.inflight <==> exists id: TaskId :: IsRefresh(s, id, i, k))
    && (forall a: TaskId, b: TaskId, i: Isolate, k :: IsRefresh(s, a, i, k) && IsRefresh(s, b, i, k) ==> a == b)
    && (forall id | id in s.tasks && s.tasks[id].phase.Finished? :: s.tasks[id].kind.Refresh?)
  }

  lemma SameRefreshes(s: State, t: State)
    requires Locked(s) && t.inflight == s.inflight
    requires forall id, i, k :: IsRefresh(t, id, i, k) <==> IsRefresh(s, id, i, k)
    requires forall id | id in t.tasks && t.tasks[id].phase.Finished? :: t.tasks[id].kind.Refresh?
    ensures Locked(t)
  {
  }

  lemma LockTaken(s: State, e: Event)
    requires Enabled(s, e) && Locked(s) && e.Request? && Next(s, e).inflight != s.inflight
    ensures Locked(Next(s, e))
  {
    var t := Next(s, e);
    assert IsRefresh(t, e.task, e.isolate, e.key);
    forall i: Isolate, k ensures (i, k) in t.inflight <==> exists id: TaskId :: IsRefresh(t, id, i, k) {
      if id: TaskId :| IsRefresh(s, id, i, k) {
        assert IsRefresh(t, id, i, k);
      }
      if id: TaskId :| IsRefresh(t, id, i, k) && id != e.task {
        assert IsRefresh(s, id, i, k);
      }
    }
    forall a, b, i, k | IsRefresh(t, a, i, k) && IsRefresh(t, b, i, k) ensures a == b {
      assert a != e.task ==> IsRefresh(s, a, i, k);
      assert b != e.task ==> IsRefresh(s, b, i, k);
    }
  }

  lemma LockReleased(s: State, e: Event)
    requires Enabled(s, e) && Locked(s) && e.Release?
    ensures Locked(Next(s, e))
  {
    var t, held := Next(s, e), s.tasks[e.task];
    assert IsRefresh(s, e.task, held.isolate, held.key);
    forall i: Isolate, k ensures (i, k) in t.inflight <==> exists id: TaskId :: IsRefresh(t, id, i, k) {
      if id: TaskId :| IsRefresh(s, id, i, k) && id != e.task {
        assert IsRefresh(t, id, i, k);
      }
      if id: TaskId :| IsRefresh(t, id, i, k) {
        assert IsRefresh(s, id, i, k);
      }
    }
    assert forall id, i, k :: IsRefresh(t, id, i, k) ==> IsRefresh(s, id, i, k);
  }

  lemma RefreshStays(s: State, e: Event, id: TaskId)
    requires Enabled(s, e) && !e.Release? && id in s.tasks && s.tasks[id].kind.Refresh?
    ensures id in Next(s, e).tasks
  {
    if e.Fetch? {
    } else if e.PutKv? {
    } else if e.PutEdge? {
    }
  }

  lemma NewTaskIsLocked(s: State, e: Event, id: TaskId)
    requires Enabled(s, e) && id in Next(s, e).tasks && id !in s.tasks && Next(s, e).inflight == s.inflight
    ensures !Next(s, e).tasks[id].kind.Refresh?
  {
    NextTask(s, e, id);
    if e.Request? {
      assert (e.isolate, e.key) in s.inflight || Next(s, e) == s || !Next(s, e).tasks[id].kind.Refresh?;
    }
  }

  lemma LockKept(s: State, e: Event)
    requires Enabled(s, e) && Locked(s)
    ensures Locked(Next(s, e))
  {
    if e.Release? {
      LockReleased(s, e);
    } else if Next(s, e).inflight != s.inflight {
      LockTaken(s, e);
    } else {
      var t := Next(s, e);
      forall id, i, k ensures IsRefresh(t, id, i, k) <==> IsRefresh(s, id, i, k) {
        if id in t.tasks {
          NextTask(s, e, id);
        }
        if id in s.tasks && s.tasks[id].kind.Refresh? {
          RefreshStays(s, e, id);
        }
        if id in t.tasks && id !in s.tasks {
          NewTaskIsLocked(s, e, id);
        }
      }
      forall id | id in t.tasks && t.tasks[id].phase.Finished? ensures t.tasks[id].kind.Refresh? {
        NextTask(s, e, id);
      }
      SameRefreshes(s, t);
    }
  }

  /** A request that finds its key in KV only is answered at once with the stale value, and leaves a refresh
      of the key running in its isolate, its own or one from before. */
  lemma WarmRequestIsAnsweredAndRefreshed(s: State, e: Event) returns (id: TaskId)
    requires Enabled(s, e) && Locked(s) && e.Request? && e.key in s.kv && !e.kvFails && !EdgeHit(s, e.key)
    ensures IsRefresh(Next(s, e), id, e.isolate, e.key)
    ensures Next(s, e).answers == s.answers + [Answer(e.key, s.kv[e.key], true, s.now, None)]
    ensures (e.isolate, e.key) in s.inflight ==> Next(s, e).tasks == s.tasks
  {
    if (e.isolate, e.key) in s.inflight {
      id :| IsRefresh(s, id, e.isolate, e.key);
    } else {
      id := e.task;
    }
  }

  /** An entry of the edge cache is served as fresh until at most a second is left of its time to live, and never
      after that. */
  lemma EdgeServesAsLongAsItLasts(s: State, e: Event)
    requires Enabled(s, e) && e.Request? && e.key in s.edge
    ensures var entry := s.edge[e.key];
            && (s.now + 1000 <= entry.putAt + entry.ttlMillis ==>
                  Next(s, e).answers == s.answers + [Answer(e.key, entry.fetched, false, s.now, Some(entry))])
            && (s.now >= entry.putAt + entry.ttlMillis ==>
                  forall a | a in Next(s, e).answers && a !in s.answers :: a.stale)
  {
  }

  lemma StillFetching(s: State, e: Event, id: TaskId)
    requires Enabled(s, e) && id in s.tasks && s.tasks[id].phase.Fetching? && !(e.Fetch? && e.task == id)
    ensures id in Next(s, e).tasks && Next(s, e).tasks[id] == s.tasks[id]
  {
    NextTask(s, e, id);
    if e.Fetch? {
    } else if e.PutKv? {
    } else if e.PutEdge? {
    }
  }

  lemma {:induction false} FetchingUntilFetched(s: State, run: seq<Event>, id: TaskId)
    requires CanRun(s, run) && id in s.tasks && s.tasks[id].phase.Fetching?
    requires forall e | e in run :: !(e.Fetch? && e.task == id)
    ensures id in Run(s, run).tasks && Run(s, run).tasks[id] == s.tasks[id]
    decreases |run|
  {
    if run == [] {
    } else {
      StillFetching(s, run[0], id);
      FetchingUntilFetched(Next(s, run[0]), run[1..], id);
    }
  }

  /** A request that finds its key in neither cache is answered with what NocoDB holds when it has been fetched,
      whatever happens until then. */
  lemma ColdRequestIsAnswered(s: State, e: Event, run: seq<Event>)
    requires Enabled(s, e) && e.Request? && !EdgeHit(s, e.key) && (e.key !in s.kv || e.kvFails)
    requires CanRun(Next(s, e), run) && forall f | f in run :: !(f.Fetch? && f.task == e.task)
    requires HasValue(Run(Next(s, e), run), e.key)
    ensures Next(s, e).answers == s.answers
    ensures var waited := Run(Next(s, e), run);
            && Enabled(waited, Fetch(e.task, true))
            && Next(waited, Fetch(e.task, true)).answers ==
               waited.answers + [Answer(e.key, Latest(waited, e.key), true, waited.now, None)]
  {
    FetchingUntilFetched(Next(s, e), run, e.task);
  }

  // ---- The order of the refreshes' KV writes ----

  ghost predicate ByRefresh(w: KvWrite, isolate: Isolate, key: Key) {
    w.task.kind.Refresh? && w.task.isolate == isolate && w.task.key == key
  }

  /** The KV writes that the refreshes of one key in one isolate make are in the order of their
      fetches, and none is newer than what a running refresh still has to write. */
  ghost predicate Ordered(s: State) {
    && (forall i, j, iso, k {:trigger ByRefresh(s.kvWrites[i], iso, k), ByRefresh(s.kvWrites[j], iso, k)} ::
          0 <= i <= j < |s.kvWrites| && ByRefresh(s.kvWrites[i], iso, k) && ByRefresh(s.kvWrites[j], iso, k) ==>
            s.kvWrites[i].fetched.fetchedAt <= s.kvWrites[j].fetched.fetchedAt)
    && (forall w | w in s.kvWrites :: w.fetched.fetchedAt <= s.now)
    && (forall w, id, iso, k :: w in s.kvWrites && ByRefresh(w, iso, k) && IsRefresh(s, id, iso, k)
                                && s.tasks[id].phase.Putting? ==>
            w.fetched.fetchedAt <= s.tasks[id].phase.fetched.fetchedAt)
    && (forall id | id in s.tasks && Carries(s.tasks[id]) :: s.tasks[id].phase.fetched.fetchedAt <= s.now)
  }

  lemma WriteKeepsOrder(s: State, e: Event)
    requires Enabled(s, e) && Locked(s) && Ordered(s) && e.PutKv? && e.ok
    ensures Ordered(Next(s, e))
  {
    var t, writer := Next(s, e), s.tasks[e.task];
    var last := |s.kvWrites|;
    assert t.kvWrites == s.kvWrites + [KvWrite(writer, writer.phase.fetched)];
    forall i, j, iso, k
      | 0 <= i <= j < |t.kvWrites| && ByRefresh(t.kvWrites[i], iso, k) && ByRefresh(t.kvWrites[j], iso, k)
      ensures t.kvWrites[i].fetched.fetchedAt <= t.kvWrites[j].fetched.fetchedAt
    {
      if i < last && j == last {
        assert s.kvWrites[i] in s.kvWrites && IsRefresh(s, e.task, iso, k);
      } else if j < last {
        assert ByRefresh(s.kvWrites[i], iso, k) && ByRefresh(s.kvWrites[j], iso, k);
      }
    }
    forall w, id, iso, k
      | w in t.kvWrites && ByRefresh(w, iso, k) && IsRefresh(t, id, iso, k) && t.tasks[id].phase.Putting?
      ensures w.fetched.fetchedAt <= t.tasks[id].phase.fetched.fetchedAt
    {
      assert IsRefresh(s, id, iso, k);
      if w !in s.kvWrites {
        assert IsRefresh(s, e.task, iso, k);
      }
    }
  }

  lemma SameWritesKeepOrder(s: State, e: Event, t: State)
    requires Step(s, e, t) && Locked(s) && Ordered(s) && t.kvWrites == s.kvWrites
    ensures Ordered(t)
  {
    forall w, id, iso, k
      | w in t.kvWrites && ByRefresh(w, iso, k) && IsRefresh(t, id, iso, k) && t.tasks[id].phase.Putting?
      ensures w.fetched.fetchedAt <= t.tasks[id].phase.fetched.fetchedAt
    {
      assert TaskStep(s, e, t, id);
      assert IsRefresh(s, id, iso, k);
    }
    forall id | id in t.tasks && Carries(t.tasks[id]) ensures t.tasks[id].phase.fetched.fetchedAt <= t.now {
      assert TaskStep(s, e, t, id);
    }
  }

  lemma OrderKept(s: State, e: Event)
    requires Enabled(s, e) && Locked(s) && Ordered(s)
    ensures Ordered(Next(s, e))
  {
    if e.PutKv? && e.ok {
      WriteKeepsOrder(s, e);
    } else {
      NextIsStep(s, e);
      SameWritesKeepOrder(s, e, Next(s, e));
    }
  }

  // ---- Every run ----

  ghost predicate Invariant(s: State) {
    Provenance(s) && Locked(s) && Ordered(s)
  }

  lemma InvariantKept(s: State, e: Event)
    requires Enabled(s, e) && Invariant(s)
    ensures Invariant(Next(s, e))
  {
    NextIsStep(s, e);
    ProvenanceKept(s, e, Next(s, e));
    LockKept(s, e);
    OrderKept(s, e);
  }

  lemma {:induction false} InvariantAlways(s: State, run: seq<Event>)
    requires Invariant(s) && CanRun(s, run)
    ensures Invariant(Run(s, run))
    decreases |run|
  {
    if run == [] {
    } else {
      InvariantKept(s, run[0]);
      InvariantAlways(Next(s, run[0]), run[1..]);
    }
  }

  /** What the cache promises of every run from an empty cache: an answer is a value NocoDB held
      for that environment and endpoint, a fresh one recently; no two refreshes of a key run at
      once in an isolate, and they write to KV in the order of their fetches. */
  lemma EveryRun(history: map<Key, seq<Revision>>, run: seq<Event>)
    requires forall k, i | k in history && 0 <= i < |history[k]| :: history[k][i].since == 0
    requires CanRun(Initial(history), run)
    ensures Invariant(Run(Initial(history), run))
  {
    InvariantAlways(Initial(history), run);
  }

  // ---- Settled caches ----

  ghost function Current(s: State, key: Key): Value
    requires HasValue(s, key)
  {
    s.history[key][|s.history[key]| - 1].value
  }

  /** The task is yet to write what it fetched to a cache. An announcement task writes to KV only. */
  predicate Pending(t: Task) {
    t.phase.Putting? || (t.phase.Caching? && !t.kind.Announce?)
  }

  /** No task is yet to write a value of `key` other than NocoDB's current one. */
  ghost predicate NoOldWriter(s: State, key: Key)
    requires HasValue(s, key)
  {
    forall id | id in s.tasks && s.tasks[id].key == key && Pending(s.tasks[id]) ::
      s.tasks[id].phase.fetched.value == Current(s, key)
  }

  /** Nothing but NocoDB's current value of `key` is left anywhere. */
  ghost predicate Settled(s: State, key: Key) {
    && HasValue(s, key)
    && (key in s.kv ==> s.kv[key].value == Current(s, key))
    && (key in s.edge ==> s.edge[key].fetched.value == Current(s, key))
    && NoOldWriter(s, key)
  }

  predicate Leaves(e: Event, key: Key) {
    e.Change? ==> e.key != key
  }

  lemma NoOldWriterKept(s: State, e: Event, t: State, key: Key)
    requires Step(s, e, t) && HasValue(s, key) && NoOldWriter(s, key) && Leaves(e, key)
    ensures HasValue(t, key) && Current(t, key) == Current(s, key) && NoOldWriter(t, key)
  {
    forall id | id in t.tasks && t.tasks[id].key == key && Pending(t.tasks[id])
      ensures t.tasks[id].phase.fetched.value == Current(t, key)
    {
      assert TaskStep(s, e, t, id);
    }
  }

  lemma SettledKept(s: State, e: Event, key: Key)
    requires Enabled(s, e) && Settled(s, key) && Leaves(e, key)
    ensures Settled(Next(s, e), key) && Current(Next(s, e), key) == Current(s, key)
  {
    NextIsStep(s, e);
    NoOldWriterKept(s, e, Next(s, e), key);
    assert KvStep(s, e, Next(s, e), key) && EdgeStep(s, e, Next(s, e), key);
  }

  /** All these answers for the key carry the value. */
  ghost predicate AllAre(answers: seq<Answer>, key: Key, value: Value) {
    forall a | a in answers && a.key == key :: a.fetched.value == value
  }

  lemma SettledStep(s: State, e: Event, key: Key)
    requires Enabled(s, e) && Settled(s, key) && Leaves(e, key)
    ensures Settled(Next(s, e), key) && Current(Next(s, e), key) == Current(s, key)
    ensures Next(s, e).answers == s.answers + NewAnswers(s, e)
    ensures AllAre(NewAnswers(s, e), key, Current(s, key))
  {
    SettledKept(s, e, key);
    NextAnswers(s, e);
  }

  lemma Since(first: seq<Answer>, more: seq<Answer>, last: seq<Answer>, key: Key, value: Value)
    requires first + more <= last && AllAre(more, key, value) && AllAre(last[|first + more|..], key, value)
    ensures first <= last && AllAre(last[|first|..], key, value)
  {
    assert last == first + more + last[|first + more|..];
    assert last[|first|..] == more + last[|first + more|..];
  }

  /** Once settled, every answer for the key is NocoDB's value, until that value changes. */
  lemma {:induction false} SettledAnswersAreCurrent(s: State, run: seq<Event>, key: Key)
    requires CanRun(s, run) && Settled(s, key)
    requires forall e | e in run :: Leaves(e, key)
    ensures Settled(Run(s, run), key) && Current(Run(s, run), key) == Current(s, key)
    ensures s.answers <= Run(s, run).answers
    ensures AllAre(Run(s, run).answers[|s.answers|..], key, Current(s, key))
    decreases |run|
  {
    if run == [] {
    } else {
      SettledStep(s, run[0], key);
      SettledAnswersAreCurrent(Next(s, run[0]), run[1..], key);
      Since(s.answers, NewAnswers(s, run[0]), Run(s, run).answers, key, Current(s, key));
    }
  }

  /** A value may change at any time, and then the edge cache answers with another one for no longer than the time to
      live of what it holds. */
  lemma ChangeOutlastsEdge(s: State, key: Key, value: Value, millis: nat)
    requires key in s.edge ==> s.edge[key].putAt <= s.now && s.edge[key].ttlMillis <= millis
    ensures var run := [Change(key, value)] + [Tick(millis)];
            && CanRun(s, run) && HasValue(Run(s, run), key) && Current(Run(s, run), key) == value
            && Run(s, run).edge == s.edge && !EdgeHit(Run(s, run), key)
  {
    RunOne(Next(s, Change(key, value)), Tick(millis));
    RunMore(s, Change(key, value), [Tick(millis)]);
  }

  // ---- Tasks that complete ----

  ghost predicate IsTask(s: State, id: TaskId, kind: Kind, key: Key) {
    id in s.tasks && s.tasks[id].kind == kind && s.tasks[id].key == key
  }

  ghost predicate IsStarted(s: State, id: TaskId, kind: Kind, key: Key) {
    IsTask(s, id, kind, key) && s.tasks[id].phase.Fetching?
  }

  /** The event with which a task ends that has carried its value through both caches. An announcement task does not
      put it into the edge cache but purges that. */
  predicate IsEnd(e: Event, id: TaskId, kind: Kind) {
    match kind
    case Refresh => e == Release(id)
    case Fill => e.PutEdge? && e.task == id && e.ok
    case Announce => e == PurgeAfterAnnounce(id, true)
  }

  /** What may happen before that: anything, in any isolate, but a change of the value and a failing fetch or put of
      its own. */
  predicate Quiet(e: Event, key: Key, id: TaskId, kind: Kind) {
    match e
    case Change(k, _) => k != key
    case Fetch(t, ok) => t == id ==> ok
    case PutKv(t, ok) => t == id ==> ok
    case PutEdge(t, ok, _) => t == id ==> ok && kind.Refresh?
    case PurgeAfterAnnounce(t, _) => t != id
    case Release(t) => t != id
    case _ => true
  }

  /** How far a task got with the current value of `key`. */
  ghost predicate Underway(s: State, key: Key, id: TaskId, kind: Kind) {
    && HasValue(s, key) && NoOldWriter(s, key)
    && IsTask(s, id, kind, key)
    && (s.tasks[id].phase.Caching? || s.tasks[id].phase.Finished? ==>
          key in s.kv ==> s.kv[key].value == Current(s, key))
    && (s.tasks[id].phase.Finished? ==>
          key in s.edge ==> s.edge[key].fetched.value == Current(s, key))
  }

  lemma TaskStays(s: State, e: Event, key: Key, id: TaskId, kind: Kind)
    requires Enabled(s, e) && IsTask(s, id, kind, key) && Quiet(e, key, id, kind)
    ensures IsTask(Next(s, e), id, kind, key)
  {
    NextTask(s, e, id);
    if e.Fetch? {
    } else if e.PutKv? {
    } else if e.PutEdge? {
    }
  }

  lemma TaskAdvances(s: State, e: Event, key: Key, id: TaskId, kind: Kind)
    requires Enabled(s, e) && Underway(s, key, id, kind) && Quiet(e, key, id, kind)
    ensures Underway(Next(s, e), key, id, kind) && Current(Next(s, e), key) == Current(s, key)
  {
    var t := Next(s, e);
    NextIsStep(s, e);
    TaskStays(s, e, key, id, kind);
    NoOldWriterKept(s, e, t, key);
    TaskMovesOn(s, e, t, key, id, kind);
  }

  lemma TaskMovesOn(s: State, e: Event, t: State, key: Key, id: TaskId, kind: Kind)
    requires Step(s, e, t) && Underway(s, key, id, kind) && Quiet(e, key, id, kind)
    requires IsTask(t, id, kind, key)
    requires HasValue(t, key) && Current(t, key) == Current(s, key) && NoOldWriter(t, key)
    ensures Underway(t, key, id, kind)
  {
    assert KvStep(s, e, t, key) && EdgeStep(s, e, t, key) && TaskStep(s, e, t, id);
  }

  lemma {:induction false} TaskCompletes(s: State, run: seq<Event>, key: Key, id: TaskId, kind: Kind)
    requires CanRun(s, run) && Underway(s, key, id, kind)
    requires forall e | e in run :: Quiet(e, key, id, kind)
    ensures Underway(Run(s, run), key, id, kind) && Current(Run(s, run), key) == Current(s, key)
    decreases |run|
  {
    if run == [] {
    } else {
      TaskAdvances(s, run[0], key, id, kind);
      TaskCompletes(Next(s, run[0]), run[1..], key, id, kind);
    }
  }

  /** With its end, a task that got that far leaves nothing but the current value anywhere: a refresh and a cold
      request have put it into both caches, an announcement has put it into KV and emptied the edge cache. */
  lemma EndSettles(s: State, e: Event, key: Key, id: TaskId, kind: Kind)
    requires Enabled(s, e) && Underway(s, key, id, kind) && IsEnd(e, id, kind)
    ensures Settled(Next(s, e), key) && Current(Next(s, e), key) == Current(s, key)
  {
    var t := Next(s, e);
    NextIsStep(s, e);
    NoOldWriterKept(s, e, t, key);
    assert KvStep(s, e, t, key) && EdgeStep(s, e, t, key);
  }

  /** Wiping the cached data of an environment and then purging its edge cache leaves nothing but what tasks on their
      way bring back. */
  lemma WipeAndPurgeSettle(s: State, key: Key)
    requires HasValue(s, key) && NoOldWriter(s, key)
    ensures var wiped := Next(s, DeleteCache(key.env));
            var purged := Next(wiped, Purge(key.env));
            Settled(purged, key) && key !in purged.kv && key !in purged.edge
  {
    var wipe, purge := DeleteCache(key.env), Purge(key.env);
    var wiped := Next(s, wipe);
    NextIsStep(s, wipe);
    NoOldWriterKept(s, wipe, wiped, key);
    NextIsStep(wiped, purge);
    NoOldWriterKept(wiped, purge, Next(wiped, purge), key);
    assert KvStep(s, wipe, wiped, key);
    assert KvStep(wiped, purge, Next(wiped, purge), key) && EdgeStep(wiped, purge, Next(wiped, purge), key);
  }

  // ---- Convergence ----

  /** A run that takes a task to its end. */
  ghost predicate Completes(s: State, during: seq<Event>, end: Event, key: Key, id: TaskId, kind: Kind) {
    && CanRun(s, during) && (forall e | e in during :: Quiet(e, key, id, kind))
    && Enabled(Run(s, during), end) && IsEnd(end, id, kind)
  }

  /** The answers for the key that `after` adds are all NocoDB's value. */
  ghost predicate AnswersCurrent(s: State, after: seq<Event>, key: Key)
    requires CanRun(s, after) && HasValue(s, key)
  {
    var end := Run(s, after);
    s.answers <= end.answers && AllAre(end.answers[|s.answers|..], key, Current(s, key))
  }

  ghost predicate ConvergesIn(
      s: State, during: seq<Event>, end: Event, after: seq<Event>, key: Key, id: TaskId, kind: Kind)
    requires Completes(s, during, end, key, id, kind)
  {
    var completed := Next(Run(s, during), end);
    CanRun(completed, after) && (forall e | e in after :: Leaves(e, key)) ==>
      HasValue(completed, key) && AnswersCurrent(completed, after, key)
  }

  /** However it completes, and whatever happens then that is not a change of the value. */
  ghost predicate AlwaysConverges(s: State, key: Key, id: TaskId, kind: Kind) {
    forall during, end, after | Completes(s, during, end, key, id, kind) ::
      ConvergesIn(s, during, end, after, key, id, kind)
  }

  lemma ConvergesWithoutOldWriter(
      s: State, during: seq<Event>, end: Event, after: seq<Event>, key: Key, id: TaskId, kind: Kind)
    requires HasValue(s, key) && NoOldWriter(s, key) && IsStarted(s, id, kind, key)
    requires Completes(s, during, end, key, id, kind)
    ensures ConvergesIn(s, during, end, after, key, id, kind)
    ensures Settled(Next(Run(s, during), end), key)
    ensures Current(Next(Run(s, during), end), key) == Current(s, key)
  {
    TaskCompletes(s, during, key, id, kind);
    EndSettles(Run(s, during), end, key, id, kind);
    var completed := Next(Run(s, during), end);
    if CanRun(completed, after) && forall e | e in after :: Leaves(e, key) {
      SettledAnswersAreCurrent(completed, after, key);
    }
  }

  // ---- An old writer ----

  lemma RunOne(s: State, e: Event)
    ensures CanRun(s, [e]) <==> Enabled(s, e)
    ensures Enabled(s, e) ==> Run(s, [e]) == Next(s, e)
  {
    assert [e][1..] == [];
  }

  lemma RunMore(s: State, e: Event, rest: seq<Event>)
    ensures CanRun(s, [e] + rest) <==> Enabled(s, e) && CanRun(Next(s, e), rest)
    ensures Enabled(s, e) && CanRun(Next(s, e), rest) ==> Run(s, [e] + rest) == Run(Next(s, e), rest)
  {
    assert ([e] + rest)[1..] == rest;
  }

  /** A task left to itself takes its value to KV. */
  lemma ReachesKv(s: State, key: Key, id: TaskId, kind: Kind) returns (during: seq<Event>)
    requires HasValue(s, key) && IsStarted(s, id, kind, key)
    ensures CanRun(s, during) && forall e | e in during :: Quiet(e, key, id, kind)
    ensures var t := Run(s, during);
            && id in t.tasks && t.tasks == s.tasks[id := s.tasks[id].(phase := t.tasks[id].phase)]
            && t.tasks[id].phase.Caching? && t.history == s.history && t.now == s.now
  {
    var fetch, putKv := Fetch(id, true), PutKv(id, true);
    RunOne(Next(s, fetch), putKv);
    RunMore(s, fetch, [putKv]);
    during := [fetch] + [putKv];
  }

  lemma {:induction false} RunThen(s: State, run: seq<Event>, e: Event)
    requires CanRun(s, run) && Enabled(Run(s, run), e)
    ensures CanRun(s, run + [e]) && Run(s, run + [e]) == Next(Run(s, run), e)
    decreases |run|
  {
    if run == [] {
      RunOne(s, e);
      assert run + [e] == [e];
    } else {
      RunThen(Next(s, run[0]), run[1..], e);
      RunMore(s, run[0], run[1..] + [e]);
      assert run + [e] == [run[0]] + (run[1..] + [e]);
    }
  }

  /** And completes. It leaves the other tasks alone and frees its own number. */
  lemma TaskAlone(s: State, key: Key, id: TaskId, kind: Kind) returns (during: seq<Event>, end: Event)
    requires HasValue(s, key) && IsStarted(s, id, kind, key)
    ensures Completes(s, during, end, key, id, kind)
    ensures var completed := Next(Run(s, during), end);
            && completed.tasks == s.tasks - {id} && completed.history == s.history && completed.now == s.now
  {
    var putEdge := PutEdge(id, true, 0);
    during := ReachesKv(s, key, id, kind);
    match kind {
      case Refresh =>
        RunThen(s, during, putEdge);
        during, end := during + [putEdge], Release(id);
      case Fill =>
        end := putEdge;
      case Announce =>
        end := PurgeAfterAnnounce(id, true);
    }
  }

  /** What a task has yet to write can end up in an answer. */
  lemma OldWriterAnswers(s: State, key: Key, writer: TaskId, id: TaskId) returns (after: seq<Event>)
    requires writer in s.tasks && s.tasks[writer].key == key && Pending(s.tasks[writer]) && id !in s.tasks
    ensures CanRun(s, after) && forall e | e in after :: Leaves(e, key)
    ensures exists a :: Run(s, after).answers == s.answers + [a] && a.key == key &&
              a.fetched == s.tasks[writer].phase.fetched
  {
    var request := Request(0, key, id, false);
    if s.tasks[writer].phase.Putting? {
      var put, evict := PutKv(writer, true), Evict(key);
      var s1 := Next(s, put);
      var s2 := Next(s1, evict);
      RunOne(s2, request);
      RunMore(s1, evict, [request]);
      RunMore(s, put, [evict] + [request]);
      after := [put] + ([evict] + [request]);
      assert Next(s2, request).answers == s.answers + [Answer(key, s.tasks[writer].phase.fetched, true, s2.now, None)];
    } else {
      var put := PutEdge(writer, true, 1000);
      var s1 := Next(s, put);
      RunOne(s1, request);
      RunMore(s, put, [request]);
      after := [put] + [request];
      assert Next(s1, request).answers ==
             s.answers + [Answer(key, s.tasks[writer].phase.fetched, false, s1.now, Some(s1.edge[key]))];
    }
  }

  /** Convergence, for any number of isolates, cold requests, webhooks and wipes at any time: a task that starts after
      the last change and completes, be it a refresh, a cold request or an announcement's, makes every later answer
      NocoDB's value, until that changes, exactly when no task is yet to write another value at its start. */
  lemma ConvergesIffNoOldWriter(s: State, key: Key, id: TaskId, kind: Kind)
    requires HasValue(s, key) && IsStarted(s, id, kind, key)
    ensures AlwaysConverges(s, key, id, kind) <==> NoOldWriter(s, key)
  {
    if NoOldWriter(s, key) {
      forall during, end, after | Completes(s, during, end, key, id, kind)
        ensures ConvergesIn(s, during, end, after, key, id, kind)
      {
        ConvergesWithoutOldWriter(s, during, end, after, key, id, kind);
      }
    } else {
      OldWriterSpoils(s, key, id, kind);
    }
  }

  lemma OneOtherAnswer(s: State, after: seq<Event>, key: Key, a: Answer)
    requires CanRun(s, after) && HasValue(s, key) && Run(s, after).answers == s.answers + [a]
    requires a.key == key && a.fetched.value != Current(s, key)
    ensures !AnswersCurrent(s, after, key)
  {
    assert Run(s, after).answers[|s.answers|..] == [a];
    assert a in [a];
  }

  lemma OldWriterOutlasts(
      s: State, during: seq<Event>, end: Event, key: Key, writer: TaskId, id: TaskId, kind: Kind)
    returns (after: seq<Event>)
    requires Completes(s, during, end, key, id, kind)
    requires var completed := Next(Run(s, during), end);
             && HasValue(completed, key) && id !in completed.tasks
             && writer in completed.tasks && completed.tasks[writer].key == key && Pending(completed.tasks[writer])
             && completed.tasks[writer].phase.fetched.value != Current(completed, key)
    ensures !ConvergesIn(s, during, end, after, key, id, kind)
  {
    var completed := Next(Run(s, during), end);
    after := OldWriterAnswers(completed, key, writer, id);
    var a :| Run(completed, after).answers == completed.answers + [a] && a.key == key
             && a.fetched == completed.tasks[writer].phase.fetched;
    OneOtherAnswer(completed, after, key, a);
  }

  lemma OldWriterSpoils(s: State, key: Key, id: TaskId, kind: Kind)
    requires HasValue(s, key) && IsStarted(s, id, kind, key)
    requires !NoOldWriter(s, key)
    ensures !AlwaysConverges(s, key, id, kind)
  {
    var writer :| writer in s.tasks && s.tasks[writer].key == key && Pending(s.tasks[writer])
                  && s.tasks[writer].phase.fetched.value != Current(s, key);
    var during, end := TaskAlone(s, key, id, kind);
    var after := OldWriterOutlasts(s, during, end, key, writer, id, kind);
  }

  /** So a request or webhook that starts a task, with no other value of the key on its way to a cache, leads to
      current answers once that task completes. */
  lemma Converges(
      s: State, start: Event, during: seq<Event>, end: Event, after: seq<Event>, key: Key, id: TaskId, kind: Kind)
    requires Enabled(s, start) && (start.Request? || start.StartAnnounce?) && start.task == id
    requires HasValue(s, key) && NoOldWriter(s, key) && IsTask(Next(s, start), id, kind, key)
    requires Completes(Next(s, start), during, end, key, id, kind)
    ensures ConvergesIn(Next(s, start), during, end, after, key, id, kind)
    ensures Settled(Next(Run(Next(s, start), during), end), key)
  {
    NextIsStep(s, start);
    NoOldWriterKept(s, start, Next(s, start), key);
    assert TaskStep(s, start, Next(s, start), id);
    ConvergesWithoutOldWriter(Next(s, start), during, end, after, key, id, kind);
  }
}

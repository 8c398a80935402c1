/**
 The coordinator's SQLite store. `Db` is the content of its tables; the
 functions on it say what each operation leaves. The class performs the
 operations on the tables in place and is proved to leave exactly that.
 Every public operation is one transaction, so a failed one leaves the tables
 as the schema set-up before it left them.
 */
module CoordinatorStore {
  import opened Wrappers
  import opened Text
  import opened Tasks
  import opened EventLog
  import opened TaskTables

  datatype CoordinatorCursor = CoordinatorCursor(
    path: Option<string>, inode: Option<int>, offset: nat, lastEventId: Option<string>, updatedAt: Option<string>,
    rest: string)

  /** A row of `cursors`: the column the pruning looks at, and the cursor `payload_json` encodes. */
  datatype CursorRow = CursorRow(lastEventId: Option<string>, payload: CoordinatorCursor)

  datatype JobKind = Performer | MergeWorker
  datatype JobKey = JobKey(taskId: string, kind: JobKind)
  datatype JobRow = JobRow(pid: int, status: string, updatedAt: string)
  type JobTable = map<JobKey, JobRow>

  datatype Snapshot = Snapshot(registry: TaskRegistry, events: seq<EventRecord>, cursor: Option<CoordinatorCursor>)

  datatype StorageError = TaskNotFound | JobExists
  datatype Done = Done

  const SQLITE_SCHEMA_VERSION := 2

  datatype Db = Db(
    version: nat, tasks: TaskTable, runtime: RuntimeTable, locks: LockTable, jobs: JobTable, events: seq<EventRow>,
    streams: map<string, Option<string>>, cursors: map<string, CursorRow>, registryMeta: Option<TaskRegistry>)

  const EMPTY_DB := Db(0, map[], map[], map[], map[], [], map[], map[], None)

  /** What every operation relies on and keeps. */
  predicate Consistent(db: Db)
  {
    WellKeyed(db.tasks) && Exclusive(db.locks) && DistinctIds(db.events)
  }

  // ---- events ------------------------------------------------------------

  /** Events a replay cursor points at, in either cursor table. */
  function CursorTargets(streams: map<string, Option<string>>, cursors: map<string, CursorRow>): set<string>
  {
    (set s | s in streams && streams[s].Some? :: streams[s].value)
    + (set n | n in cursors && cursors[n].lastEventId.Some? :: cursors[n].lastEventId.value)
  }

  function Targets(db: Db): set<string> { CursorTargets(db.streams, db.cursors) }

  function SchemaReady(db: Db): Db
  {
    if db.version >= SQLITE_SCHEMA_VERSION then db
    else db.(events := Migrated(db.events, Targets(db)), version := SQLITE_SCHEMA_VERSION)
  }

  function Appended(db: Db, row: EventRow): Db { db.(events := Append(db.events, row, Targets(db))) }

  // ---- task mutations ----------------------------------------------------

  /** Only transitions and runtime reports carry an event. */
  function EventOf(m: Mutation, event: Option<EventMutation>): Option<EventMutation>
  {
    if m.Transition? || m.Runtime? then event else None
  }

  /** The task's row and runtime row after a mutation; a transition recomputes the locks as well. */
  function TaskStored(db: Db, taskId: string, task: Task, now: string, relock: bool): Db
  {
    var tasks := db.tasks[taskId := TaskRowOf(task, now)];
    db.(tasks := tasks, runtime := Upserted(db.runtime, task, now),
        locks := if relock then LocksOf(tasks, now) else db.locks)
  }

  function Mutated(db: Db, m: Mutation, event: Option<EventMutation>, stamp: Stamp): Db
    requires m.TaskId() in db.tasks
  {
    var changed := TaskStored(db, m.TaskId(), m.Changed(db.tasks[m.TaskId()].payload), m.Now(), m.Transition?);
    if EventOf(m, event).Some? then Appended(changed, MutationRow(event.value, stamp)) else changed
  }

  // ---- saving ------------------------------------------------------------

  function AddJob(jobs: JobTable, t: Task, kind: JobKind, pid: Option<int>, now: string): Option<JobTable>
  {
    if pid.None? then Some(jobs)
    else if JobKey(t.id, kind) in jobs then None
    else Some(jobs[JobKey(t.id, kind) := JobRow(pid.value, t.runtime.status.GetOr("idle"), RuntimeUpdatedAt(t, now))])
  }

  function AddJobs(jobs: JobTable, t: Task, now: string): Option<JobTable>
  {
    if t.id == "" then Some(jobs) else
      var one := AddJob(jobs, t, Performer, t.runtime.pid, now);
      if one.None? then None else AddJob(one.value, t, MergeWorker, t.runtime.mergeWorkerPid, now)
  }

  /** The `jobs` rows of a snapshot, or none if two tasks ask for the same row. */
  function JobsOf(ts: seq<Task>, now: string): Option<JobTable>
  {
    if ts == [] then Some(map[]) else
      var before := JobsOf(ts[..|ts| - 1], now);
      if before.None? then None else AddJobs(before.value, ts[|ts| - 1], now)
  }

  function ProcessOf(t: Task, kind: JobKind): Option<int>
  {
    match kind
    case Performer => t.runtime.pid
    case MergeWorker => t.runtime.mergeWorkerPid
  }

  /** The task wants a job row under this key: it has an id and a process of the kind. */
  predicate Asks(t: Task, key: JobKey) { t.id == key.taskId != "" && ProcessOf(t, key.kind).Some? }

  /** Two tasks want the same job row. */
  ghost predicate AskedTwice(ts: seq<Task>)
  {
    exists i, j, key: JobKey | 0 <= i < j < |ts| :: Asks(ts[i], key) && Asks(ts[j], key)
  }

  function JobRowOf(t: Task, kind: JobKind, now: string): JobRow
    requires ProcessOf(t, kind).Some?
  {
    JobRow(ProcessOf(t, kind).value, t.runtime.status.GetOr("idle"), RuntimeUpdatedAt(t, now))
  }

  /** One row for each task and kind of process it has. */
  ghost predicate AreJobsOf(jobs: JobTable, ts: seq<Task>, now: string)
  {
    && (forall key | key in jobs :: exists i | 0 <= i < |ts| :: Asks(ts[i], key))
    && (forall i, key: JobKey | 0 <= i < |ts| && Asks(ts[i], key) ::
        key in jobs && jobs[key] == JobRowOf(ts[i], key.kind, now))
  }

  lemma AddJobsIff(jobs: JobTable, t: Task, now: string)
    ensures AddJobs(jobs, t, now).None? <==> exists key | Asks(t, key) :: key in jobs
    ensures AddJobs(jobs, t, now).Some? ==>
              var after := AddJobs(jobs, t, now).value;
              && (forall key :: key in after <==> key in jobs || Asks(t, key))
              && (forall key | key in jobs :: after[key] == jobs[key])
              && (forall key: JobKey | Asks(t, key) :: after[key] == JobRowOf(t, key.kind, now))
  {
    var performer, merger := JobKey(t.id, Performer), JobKey(t.id, MergeWorker);
    forall key: JobKey | Asks(t, key) ensures key == performer || key == merger {}
    if t.id != "" {
      assert Asks(t, performer) <==> t.runtime.pid.Some?;
      assert Asks(t, merger) <==> t.runtime.mergeWorkerPid.Some?;
    }
  }

  lemma AskedTwiceSnoc(ts: seq<Task>, t: Task)
    ensures AskedTwice(ts + [t])
        <==> AskedTwice(ts) || exists i, key: JobKey | 0 <= i < |ts| :: Asks(ts[i], key) && Asks(t, key)
  {
    var all := ts + [t];
    hide Asks;
    if AskedTwice(all) {
      var i, j, key: JobKey :| 0 <= i < j < |all| && Asks(all[i], key) && Asks(all[j], key);
      assert all[i] == ts[i];
      if j < |ts| { assert all[j] == ts[j]; }
    }
    if AskedTwice(ts) {
      var i, j, key: JobKey :| 0 <= i < j < |ts| && Asks(ts[i], key) && Asks(ts[j], key);
      assert Asks(all[i], key) && Asks(all[j], key);
    }
    if i, key: JobKey :| 0 <= i < |ts| && Asks(ts[i], key) && Asks(t, key) {
      assert Asks(all[i], key) && Asks(all[|ts|], key);
    }
  }

  lemma AreJobsSnoc(before: JobTable, jobs: JobTable, ts: seq<Task>, t: Task, now: string)
    requires AreJobsOf(before, ts, now) && !(exists key: JobKey | key in before :: Asks(t, key))
    requires forall key :: key in jobs <==> key in before || Asks(t, key)
    requires forall key | key in before :: jobs[key] == before[key]
    requires forall key: JobKey | Asks(t, key) :: jobs[key] == JobRowOf(t, key.kind, now)
    ensures AreJobsOf(jobs, ts + [t], now)
  {
    var all := ts + [t];
    hide JobRowOf, Asks;
    forall key | key in jobs ensures exists i | 0 <= i < |all| :: Asks(all[i], key) {
      if key in before {
        var i :| 0 <= i < |ts| && Asks(ts[i], key);
        assert all[i] == ts[i];
      } else {
        assert all[|ts|] == t;
      }
    }
  }

  /**
   A save fails if and only if two of its tasks have one id and a process of the
   same kind; otherwise the job table has exactly a row for each task and kind
   of process it has.
   */
  lemma {:induction false} JobsOfIff(ts: seq<Task>, now: string)
    ensures JobsOf(ts, now).None? <==> AskedTwice(ts)
    ensures JobsOf(ts, now).Some? ==> AreJobsOf(JobsOf(ts, now).value, ts, now)
  {
    if ts != [] {
      var front, t := ts[..|ts| - 1], ts[|ts| - 1];
      JobsOfIff(front, now);
      assert ts == front + [t];
      AskedTwiceSnoc(front, t);
      hide Asks, AddJobs, AskedTwice, JobRowOf;
      if JobsOf(front, now).Some? {
        var before := JobsOf(front, now).value;
        AddJobsIff(before, t, now);
        if JobsOf(ts, now).Some? { AreJobsSnoc(before, JobsOf(ts, now).value, front, t, now); }
      }
    }
  }

  function SavedLockKey(resource: string, lock: ResourceLock): LockKey
  {
    LockKey(resource, if lock.claimId == "" then "unclaimed-" + lock.taskId else lock.claimId)
  }

  function SavedLockRow(lock: ResourceLock, now: string): LockRow
  {
    LockRow(lock.taskId, lock.lockedAt, lock.expiresAt, lock.worktreePath, Some(lock), now)
  }

  function SavedLocks(locks: map<string, ResourceLock>, now: string): LockTable
  {
    map key | key in (set r | r in locks :: SavedLockKey(r, locks[r])) && key.resource in locks ::
      SavedLockRow(locks[key.resource], now)
  }

  function SnapshotRows(events: seq<EventRecord>): (rows: seq<EventRow>)
    ensures |rows| == |events|
    ensures forall i | 0 <= i < |events| :: rows[i] == SnapshotRow(events[i], i)
  {
    if events == [] then [] else
      SnapshotRows(events[..|events| - 1]) + [SnapshotRow(events[|events| - 1], |events| - 1)]
  }

  function SavedCursors(cursor: Option<CoordinatorCursor>): map<string, CursorRow>
  {
    if cursor.None? then map[]
    else map["coordinator" := CursorRow(Some(cursor.value.lastEventId.GetOr("")), cursor.value)]
  }

  /** What `save_snapshot` leaves when no job row is asked for twice. */
  function SavedDb(db: Db, snapshot: Snapshot, now: string): Db
    requires JobsOf(snapshot.registry.tasks, now).Some?
  {
    var tables := Saved(db.tasks, db.runtime, snapshot.registry.tasks, now);
    db.(tasks := tables.tasks, runtime := tables.runtime,
        locks := SavedLocks(snapshot.registry.resourceLocks, now),
        jobs := JobsOf(snapshot.registry.tasks, now).value,
        events := InsertAll(db.events, SnapshotRows(snapshot.events)),
        cursors := SavedCursors(snapshot.cursor),
        registryMeta := Some(snapshot.registry.(tasks := [])))
  }

  // ---- loading -----------------------------------------------------------

  /** The locks a load finds; a row whose payload does not parse is passed over. */
  function LockPayloads(locks: LockTable): map<string, ResourceLock>
    requires Exclusive(locks)
  {
    map key | key in locks && locks[key].payload.Some? :: key.resource := locks[key].payload.value
  }

  /** After a recomputation a load shows the lock of a holder if and only if the holder's worktree has a path. */
  lemma LoadedLocksHavePaths(tasks: TaskTable, now: string, r: string)
    requires WellKeyed(tasks) && Exclusive(LocksOf(tasks, now))
    ensures r in LockPayloads(LocksOf(tasks, now)) <==>
            Holder(tasks, r).Some? && HoldingOf(tasks[Holder(tasks, r).value].payload).worktreePath != ""
    ensures r in LockPayloads(LocksOf(tasks, now)) ==>
            LockPayloads(LocksOf(tasks, now))[r] == LockOf(tasks[Holder(tasks, r).value].payload, now)
  {
    LockedNames(tasks, r);
    RecomputedLocksAgree(tasks, now);
    if Holder(tasks, r).Some? {
      assert LockKey(r, ClaimKey(tasks[Holder(tasks, r).value].payload)) in LocksOf(tasks, now);
    }
  }

  function TasksInOrder(tasks: TaskTable): (ts: seq<Task>)
    ensures |ts| == |tasks.Keys|
  {
    var ids := Ordered(tasks.Keys);
    seq(|ids|, i requires 0 <= i < |ids| => assert ids[i] in ids; tasks[ids[i]].payload)
  }

  const DEFAULT_EXTRA: map<string, Json> := map[
    "schema_version" := JsonNumber(1), "processed_event_ids" := JsonEmptyObject, "state_mapping" := JsonEmptyObject]

  /** `load_registry_from_tables` */
  function TablesRegistry(tasks: TaskTable, locks: LockTable, now: string): TaskRegistry
    requires Exclusive(locks)
  {
    TaskRegistry(TasksInOrder(tasks), LockPayloads(locks), {}, Some(now), DEFAULT_EXTRA)
  }

  /** Metadata that still has tasks replaces empty tables; otherwise it fills in and overrides. */
  function WithMeta(reg: TaskRegistry, meta: TaskRegistry): TaskRegistry
  {
    if reg.tasks == [] && meta.tasks != [] then meta
    else TaskRegistry(
           reg.tasks,
           if reg.resourceLocks == map[] && meta.resourceLocks != map[] then meta.resourceLocks else reg.resourceLocks,
           reg.externalMergedTaskIds + meta.externalMergedTaskIds,
           Replacing(meta.updatedAt, reg.updatedAt),
           reg.extra + meta.extra)
  }

  function RegistryOf(tasks: TaskTable, locks: LockTable, meta: Option<TaskRegistry>, now: string): TaskRegistry
    requires Exclusive(locks)
  {
    var reg := TablesRegistry(tasks, locks, now);
    if meta.None? then reg else WithMeta(reg, meta.value)
  }

  /** `load_registry` */
  function LoadedRegistry(db: Db, now: string): TaskRegistry
    requires Exclusive(db.locks)
  {
    RegistryOf(db.tasks, db.locks, db.registryMeta, now)
  }

  function LoadedCursor(db: Db): Option<CoordinatorCursor>
  {
    if "coordinator" in db.cursors then Some(db.cursors["coordinator"].payload) else None
  }

  function Records(rows: seq<EventRow>): seq<EventRecord>
  {
    seq(|rows|, i requires 0 <= i < |rows| => rows[i].record)
  }

  function LoadedSnapshot(db: Db, now: string): Snapshot
    requires Exclusive(db.locks)
  {
    Snapshot(LoadedRegistry(db, now), Records(Ascending(db.events)), LoadedCursor(db))
  }

  predicate HasTerminalResult(log: seq<EventRow>, taskId: string, claimId: string)
  {
    taskId != "" && claimId != "" &&
    exists i | 0 <= i < |log| ::
        log[i].taskId == Some(taskId) && log[i].eventType == "phase_result" && log[i].record.claimId == Some(claimId)
  }

  predicate HasSnapshotData(db: Db) { db.registryMeta.Some? || db.tasks.Keys != {} }

  // ---- lock recomputation, task by task -----------------------------------

  /** The tasks of the first `n` ids. */
  function FirstTasks(tasks: TaskTable, ids: seq<string>, n: nat): TaskTable
    requires n <= |ids|
  {
    map id | id in tasks && id in ids[..n] :: tasks[id]
  }

  lemma NextTask(tasks: TaskTable, ids: seq<string>, n: nat)
    requires n < |ids| && ids[n] in tasks && StrictlySorted(ids) && WellKeyed(tasks)
    ensures FirstTasks(tasks, ids, n + 1) == FirstTasks(tasks, ids, n)[ids[n] := tasks[ids[n]]]
    ensures forall id | id in FirstTasks(tasks, ids, n) :: id != ids[n] && StringLe(id, ids[n])
    ensures WellKeyed(FirstTasks(tasks, ids, n))
  {
    assert ids[..n + 1] == ids[..n] + [ids[n]];
  }

  /** Adding the task last in id order changes no holder, and gives it what nobody held. */
  lemma LastTaskGetsTheRest(tasks: TaskTable, t: Task, row: TaskRow, r: string)
    requires row.payload == t && t.id != "" && t.id !in tasks
    requires forall id | id in tasks :: StringLe(id, t.id)
    ensures Holder(tasks[t.id := row], r) ==
            if Holder(tasks, r).Some? then Holder(tasks, r)
            else if r != "" && HoldsLocks(t) && r in t.exclusiveResources then Some(t.id) else None
  {
    var before, after := Claimants(tasks, r), Claimants(tasks[t.id := row], r);
    assert after == before + (if HoldsLocks(t) && r in t.exclusiveResources then {t.id} else {});
    if before != {} {
      LeastIsUnique(Least(before), Least(after), after);
    }
  }

  /** `locks` is the lock table of `tasks`, key by key. */
  ghost predicate IsLockTable(tasks: TaskTable, now: string, locks: LockTable)
  {
    forall key: LockKey ::
      && (key in locks <==> IsHeld(tasks, key))
      && (key in locks ==> locks[key] == LockRowOf(tasks[Holder(tasks, key.resource).value].payload, now))
  }

  predicate IsHeld(tasks: TaskTable, key: LockKey)
  {
    Holder(tasks, key.resource).Some? && key.claimId == ClaimKey(tasks[Holder(tasks, key.resource).value].payload)
  }

  lemma LockTableIsUnique(tasks: TaskTable, now: string, locks: LockTable)
    requires IsLockTable(tasks, now, locks)
    ensures locks == LocksOf(tasks, now)
  {
    forall key: LockKey ensures key in LocksOf(tasks, now) <==> IsHeld(tasks, key) {
      LockedNames(tasks, key.resource);
    }
  }

  /** What one task adds: each of its resources that is not taken, under its claim. */
  ghost predicate IsExtended(before: LockTable, locks: LockTable, t: Task, taken: set<string>, j: nat, now: string)
    requires j <= |t.exclusiveResources|
  {
    forall key: LockKey ::
      && (key in locks <==> key in before || IsNewKey(t, taken, j, key))
      && (key in before ==> locks[key] == before[key])
      && (key !in before && key in locks ==> locks[key] == LockRowOf(t, now))
  }

  predicate IsNewKey(t: Task, taken: set<string>, j: nat, key: LockKey)
    requires j <= |t.exclusiveResources|
  {
    key.claimId == ClaimKey(t) && key.resource in NamesAmong(t, j) && key.resource !in taken
  }

  lemma LockTableExtends(tasks: TaskTable, t: Task, row: TaskRow, now: string, before: LockTable, locks: LockTable)
    requires row.payload == t && t.id != "" && t.id !in tasks
    requires forall id | id in tasks :: StringLe(id, t.id)
    requires IsLockTable(tasks, now, before)
    requires if HoldsLocks(t) then IsExtended(before, locks, t, LockedResourceNames(tasks), |t.exclusiveResources|, now)
             else locks == before
    ensures IsLockTable(tasks[t.id := row], now, locks)
  {
    assert t.exclusiveResources[..|t.exclusiveResources|] == t.exclusiveResources;
    forall key: LockKey
      ensures key in locks <==> IsHeld(tasks[t.id := row], key)
      ensures key in locks ==>
                locks[key] == LockRowOf(tasks[t.id := row][Holder(tasks[t.id := row], key.resource).value].payload, now)
    {
      LastTaskGetsTheRest(tasks, t, row, key.resource);
      LockedNames(tasks, key.resource);
      assert key in before <==> IsHeld(tasks, key);
    }
  }

  lemma NamesWithNextTask(tasks: TaskTable, t: Task, row: TaskRow)
    requires row.payload == t && t.id != "" && t.id !in tasks
    requires forall id | id in tasks :: StringLe(id, t.id)
    ensures LockedResourceNames(tasks[t.id := row])
         == LockedResourceNames(tasks) + (if HoldsLocks(t) then NamesAmong(t, |t.exclusiveResources|) else {})
  {
    var all := t.exclusiveResources;
    assert all[..|all|] == all;
    forall r ensures r in LockedResourceNames(tasks[t.id := row]) <==>
                     r in LockedResourceNames(tasks) || (HoldsLocks(t) && r in NamesAmong(t, |all|))
    {
      LastTaskGetsTheRest(tasks, t, row, r);
      LockedNames(tasks, r);
      LockedNames(tasks[t.id := row], r);
    }
  }

  /** The resource names among a task's first `j`. */
  function NamesAmong(t: Task, j: nat): set<string>
    requires j <= |t.exclusiveResources|
  {
    set r | r in t.exclusiveResources[..j] && r != ""
  }

  lemma HeldIsTaken(tasks: TaskTable, now: string, locks: LockTable)
    requires IsLockTable(tasks, now, locks)
    ensures forall key | key in locks :: key.resource in LockedResourceNames(tasks)
  {
    forall key | key in locks ensures key.resource in LockedResourceNames(tasks) {
      assert IsHeld(tasks, key);
      LockedNames(tasks, key.resource);
    }
  }

  /** One turn of the recomputation. */
  lemma RecomputeTurn(tasks: TaskTable, ids: seq<string>, n: nat, now: string, before: LockTable, locks: LockTable)
    requires n < |ids| && ids[n] in tasks && StrictlySorted(ids) && WellKeyed(tasks)
    requires IsLockTable(FirstTasks(tasks, ids, n), now, before)
    requires var t := tasks[ids[n]].payload;
             if HoldsLocks(t) then IsExtended(before, locks, t, LockedResourceNames(FirstTasks(tasks, ids, n)),
                 |t.exclusiveResources|, now)
             else locks == before
    ensures IsLockTable(FirstTasks(tasks, ids, n + 1), now, locks)
    ensures var t := tasks[ids[n]].payload;
            LockedResourceNames(FirstTasks(tasks, ids, n + 1))
            == LockedResourceNames(FirstTasks(tasks, ids, n))
                + (if HoldsLocks(t) then NamesAmong(t, |t.exclusiveResources|) else {})
  {
    var earlier, row := FirstTasks(tasks, ids, n), tasks[ids[n]];
    NextTask(tasks, ids, n);
    NamesWithNextTask(earlier, row.payload, row);
    LockTableExtends(earlier, row.payload, row, now, before, locks);
  }

  // ---- the loops and field-by-field updates of the store's operations ----

  method TransitionTask(loaded: Task, change: TransitionMutation) returns (task: Task)
    ensures task == Transitioned(loaded, change)
  {
    task := loaded;
    task := task.(state := change.newState);
    task := task.(updatedAt := Some(change.now));
    task := task.(stateChangedAt := Some(change.now));
    if change.newState == "pr_open" && change.prUrl != "" {
      task := task.(prUrl := Some(change.prUrl));
    }
    if change.newState == "changes_requested" {
      var review := task.review.GetOr(NO_REVIEW);
      review := review.(changed := Some(true));
      review := review.(lastReviewedAt := Some(change.now));
      if change.reviewer != "" { review := review.(reviewer := Some(change.reviewer)); }
      if change.reason != "" { review := review.(reason := Some(change.reason)); }
      task := task.(review := Some(review));
    }
    if change.newState in {"merged", "abandoned", "todo"} {
      task := task.(assignee := None, claimedAt := None, worktree := None);
      var runtime := task.runtime;
      runtime := runtime.(status := Some("idle"), pid := None, startedAt := None, currentPhase := None);
      runtime := runtime.(mergeResultPending := Some(false), mergeResultFile := None);
      task := task.(runtime := runtime);
    }
  }

  method ReportTask(loaded: Task, change: RuntimeMutation) returns (task: Task)
    ensures task == RuntimeChanged(loaded, change)
  {
    var rt := loaded.runtime;
    rt := rt.(status := Some(change.runtimeStatus));
    rt := rt.(currentPhase := ReplacingText(change.phase, rt.currentPhase));
    rt := rt.(message := Replacing(change.message, rt.message));
    rt := rt.(progress := Replacing(change.progress, rt.progress));
    rt := rt.(workerId := Replacing(change.workerId, rt.workerId));
    rt := rt.(tool := Replacing(change.tool, rt.tool));
    rt := rt.(worktree := Replacing(change.worktree, rt.worktree));
    rt := rt.(branch := Replacing(change.branch, rt.branch));
    rt := rt.(stdoutLog := Replacing(change.stdoutLog, rt.stdoutLog));
    rt := rt.(stderrLog := Replacing(change.stderrLog, rt.stderrLog));
    rt := rt.(eventsLog := Replacing(change.eventsLog, rt.eventsLog));
    rt := rt.(lastEventAt := Replacing(change.lastEventAt, rt.lastEventAt));
    rt := rt.(registryUpdatedAt := Some(change.now));
    match change.pid {
      case Some(pid) => rt := rt.(pid := Some(pid));
      case None => if EndsPhase(change.runtimeStatus) { rt := rt.(pid := None); }
    }
    rt := rt.(lastError := ReplacingText(change.lastError, rt.lastError));
    rt := rt.(lastHeartbeat := ReplacingText(change.heartbeatTs, rt.lastHeartbeat));
    rt := rt.(attempt := Replacing(change.attempt, rt.attempt));
    if change.runtimeStatus == "running" && rt.startedAt.GetOr("") == "" {
      rt := rt.(startedAt := Some(change.now));
    }
    if EndsPhase(change.runtimeStatus) {
      rt := rt.(phaseStartedAt := None);
    } else if change.runtimeStatus == "running" {
      rt := rt.(phaseStartedAt := Some(change.now));
    }
    task := loaded.(runtime := rt);
    task := task.(updatedAt := Some(change.now));
  }

  /** What `registry_json` adds to the registry read from the tables. */
  method MergeMeta(tables: TaskRegistry, meta: TaskRegistry) returns (registry: TaskRegistry)
    ensures registry == WithMeta(tables, meta)
  {
    registry := tables;
    if |registry.tasks| == 0 && |meta.tasks| > 0 {
      registry := meta;
    } else {
      if registry.resourceLocks == map[] && meta.resourceLocks != map[] {
        registry := registry.(resourceLocks := meta.resourceLocks);
      }
      registry := registry.(externalMergedTaskIds := registry.externalMergedTaskIds + meta.externalMergedTaskIds);
      registry := registry.(updatedAt := if meta.updatedAt.Some? then meta.updatedAt else registry.updatedAt);
      registry := registry.(extra := registry.extra + meta.extra);
    }
  }

  /** Collects records newest first until there are enough, then reverses them. */
  method NewestRecords(rows: seq<EventRow>, limit: nat) returns (recent: seq<EventRecord>)
    requires limit > 0
    ensures |recent| == if limit < |rows| then limit else |rows|
    ensures forall i | 0 <= i < |recent| :: recent[i] == rows[|recent| - 1 - i].record
  {
    recent := [];
    for n := 0 to |rows|
      invariant n < limit && |recent| == n
      invariant forall i | 0 <= i < n :: recent[i] == rows[i].record
    {
      recent := recent + [rows[n].record];
      if |recent| >= limit { break; }
    }
    recent := Reversed(recent);
  }

  /** The inner loop of the recomputation: lock each resource of one task that no task before it locked. */
  method LockResources(before: LockTable, task: Task, taken: set<string>, now: string)
    returns (locks: LockTable, existing: set<string>)
    requires forall key | key in before :: key.resource in taken
    ensures IsExtended(before, locks, task, taken, |task.exclusiveResources|, now)
    ensures existing == taken + NamesAmong(task, |task.exclusiveResources|)
  {
    locks, existing := before, taken;
    for j := 0 to |task.exclusiveResources|
      invariant IsExtended(before, locks, task, taken, j, now)
      invariant existing == taken + NamesAmong(task, j)
    {
      var resource := task.exclusiveResources[j];
      assert task.exclusiveResources[..j + 1] == task.exclusiveResources[..j] + [resource];
      assert NamesAmong(task, j + 1) == NamesAmong(task, j) + (if resource != "" then {resource} else {});
      if resource == "" || resource in existing { continue; }
      assert LockKey(resource, ClaimKey(task)) !in locks;  // the insert meets no row with its key
      locks := locks[LockKey(resource, ClaimKey(task)) := LockRowOf(task, now)];
      existing := existing + {resource};
    }
  }

  /** The first `n` tasks in id order have been given their locks. */
  ghost predicate LockedUpTo(tasks: TaskTable, ids: seq<string>, n: nat, now: string, locks: LockTable,
      existing: set<string>)
    requires n <= |ids|
  {
    IsLockTable(FirstTasks(tasks, ids, n), now, locks) && existing == LockedResourceNames(FirstTasks(tasks, ids, n))
  }

  /** The outer loop: every task in id order. */
  method RecomputedLocks(tasks: TaskTable, now: string) returns (locks: LockTable)
    requires WellKeyed(tasks)
    ensures locks == LocksOf(tasks, now)
  {
    hide LockedUpTo, LocksOf, StrictlySorted, WellKeyed;
    var ids := Ordered(tasks.Keys);
    var existing: set<string> := {};
    locks := map[];
    NothingLocked(tasks, ids, now);
    for n := 0 to |ids|
      invariant LockedUpTo(tasks, ids, n, now, locks, existing)
    {
      assert ids[n] in ids;
      locks, existing := LockTask(tasks, ids, n, now, locks, existing);
    }
    AllLocked(tasks, ids, now, locks, existing);
  }

  lemma NothingLocked(tasks: TaskTable, ids: seq<string>, now: string)
    ensures LockedUpTo(tasks, ids, 0, now, map[], {})
  {
    assert FirstTasks(tasks, ids, 0) == map[];
  }

  lemma AllLocked(tasks: TaskTable, ids: seq<string>, now: string, locks: LockTable, existing: set<string>)
    requires LockedUpTo(tasks, ids, |ids|, now, locks, existing) && forall id :: id in ids <==> id in tasks
    ensures locks == LocksOf(tasks, now)
  {
    assert ids[..|ids|] == ids;
    assert FirstTasks(tasks, ids, |ids|) == tasks;
    LockTableIsUnique(tasks, now, locks);
  }

  method LockTask(tasks: TaskTable, ids: seq<string>, n: nat, now: string, before: LockTable, taken: set<string>)
    returns (locks: LockTable, existing: set<string>)
    requires n < |ids| && ids[n] in tasks && StrictlySorted(ids) && WellKeyed(tasks)
    requires LockedUpTo(tasks, ids, n, now, before, taken)
    ensures LockedUpTo(tasks, ids, n + 1, now, locks, existing)
  {
    var task := tasks[ids[n]].payload;
    locks, existing := before, taken;
    HeldIsTaken(FirstTasks(tasks, ids, n), now, locks);
    if IsActiveState(task.state) && task.worktree.Some? && task.id != "" {
      locks, existing := LockResources(before, task, taken, now);
    }
    RecomputeTurn(tasks, ids, n, now, before, locks);
  }

  /** Deletes, one by one, the stored tasks a snapshot lacks. */
  method WithoutGone(stored: TaskTable, kept: set<string>) returns (tasks: TaskTable)
    ensures tasks == map id | id in stored && id in kept :: stored[id]
  {
    tasks := stored;
    var gone := stored.Keys - kept;
    while gone != {}
      invariant gone !! kept
      invariant tasks == map id | id in stored && (id in kept || id in gone) :: stored[id]
    {
      var id :| id in gone;
      gone := gone - {id};
      tasks := tasks - {id};
    }
  }

  /** The statements of the save's transaction, on the tables as the transaction sees them. */
  method WriteSnapshot(db: Db, snapshot: Snapshot, now: string) returns (r: Result<Db, StorageError>)
    ensures r == if JobsOf(snapshot.registry.tasks, now).Some? then Ok(SavedDb(db, snapshot, now)) else Err(JobExists)
  {
    var ts := snapshot.registry.tasks;
    var tasks := WithoutGone(db.tasks, KeptIds(ts));
    var runtime := map k | k in db.runtime && db.runtime[k].taskId in tasks :: db.runtime[k];
    assert Tables(tasks, runtime) == SaveStart(db.tasks, db.runtime, ts);
    var written := WriteTasks(db.tasks, tasks, runtime, ts, now);
    if written.Err? { return Err(JobExists); }
    var tx := db.(tasks := written.value.tables.tasks, runtime := written.value.tables.runtime,
        jobs := written.value.jobs);
    tx := tx.(registryMeta := Some(snapshot.registry.(tasks := [])));
    var locks := InsertedLocks(snapshot.registry.resourceLocks, now);
    var events := InsertedEvents(db.events, snapshot.events);
    r := Ok(tx.(locks := locks, events := events, cursors := SavedCursors(snapshot.cursor)));
  }

  datatype Written = Written(tables: Tables, jobs: JobTable)

  /** The loop over the snapshot's tasks: changed rows with their runtime rows, and every task's jobs. */
  method WriteTasks(stored: TaskTable, tasks: TaskTable, runtime: RuntimeTable, ts: seq<Task>, now: string)
    returns (r: Result<Written, StorageError>)
    ensures r == if JobsOf(ts, now).None? then Err(JobExists)
                 else Ok(Written(SaveTasks(stored, Tables(tasks, runtime), ts, now), JobsOf(ts, now).value))
  {
    var tasks', runtime', jobs := tasks, runtime, map[];
    for i := 0 to |ts|
      invariant Tables(tasks', runtime') == SaveTasks(stored, Tables(tasks, runtime), ts[..i], now)
      invariant JobsOf(ts[..i], now) == Some(jobs)
    {
      var task := ts[i];
      assert ts[..i + 1][..i] == ts[..i];
      if task.id == "" { continue; }
      if !(task.id in stored && stored[task.id].payload == task) {
        tasks' := tasks'[task.id := TaskRowOf(task, task.updatedAt.GetOr(now))];
        runtime' := Upserted(runtime', task, RuntimeUpdatedAt(task, now));
      }
      var performer := InsertJob(jobs, task, Performer, task.runtime.pid, now);
      if performer.Err? {
        JobsFailOnward(ts, i + 1, now);
        return Err(JobExists);
      }
      var merger := InsertJob(performer.value, task, MergeWorker, task.runtime.mergeWorkerPid, now);
      if merger.Err? {
        JobsFailOnward(ts, i + 1, now);
        return Err(JobExists);
      }
      jobs := merger.value;
    }
    assert ts[..|ts|] == ts;
    r := Ok(Written(Tables(tasks', runtime'), jobs));
  }

  method InsertJob(jobs: JobTable, task: Task, kind: JobKind, pid: Option<int>, now: string)
    returns (r: Result<JobTable, StorageError>)
    ensures r.Ok? <==> AddJob(jobs, task, kind, pid, now).Some?
    ensures r.Ok? ==> Some(r.value) == AddJob(jobs, task, kind, pid, now)
  {
    if pid.None? { return Ok(jobs); }
    if JobKey(task.id, kind) in jobs { return Err(JobExists); }
    var status, at := task.runtime.status.GetOr("idle"), RuntimeUpdatedAt(task, now);
    r := Ok(jobs[JobKey(task.id, kind) := JobRow(pid.value, status, at)]);
  }

  // ---- the store ---------------------------------------------------------

  class SqliteStorage {
    var version: nat
    var tasks: TaskTable
    var runtime: RuntimeTable
    var locks: LockTable
    var jobs: JobTable
    var events: seq<EventRow>
    var streams: map<string, Option<string>>
    var cursors: map<string, CursorRow>
    var registryMeta: Option<TaskRegistry>

    function State(): Db
      reads this
    {
      Db(version, tasks, runtime, locks, jobs, events, streams, cursors, registryMeta)
    }

    /** A database file without tables. */
    constructor ()
      ensures State() == EMPTY_DB
    {
      version, tasks, runtime, locks, jobs, events := 0, map[], map[], map[], map[], [];
      streams, cursors, registryMeta := map[], map[], None;
    }

    method InitSchema()
      modifies this`events, this`version
      ensures State() == SchemaReady(old(State()))
    {
      if version >= SQLITE_SCHEMA_VERSION { return; }
      if version < 2 {
        events := Migrated(events, CursorTargets(streams, cursors));
      }
      version := SQLITE_SCHEMA_VERSION;
    }

    /** The insert of both append paths, with the pruning after it. */
    method InsertEvent(row: EventRow) returns (inserted: bool)
      modifies this`events
      ensures State() == Appended(old(State()), row)
      ensures inserted <==> !HasId(old(events), row.eventId)
    {
      inserted := !HasId(events, row.eventId);
      if inserted {
        var older := events;
        events := older + [row];
        if row.eventType in HEARTBEAT_EVENT_TYPES {
          events := Pruned(older, row, CursorTargets(streams, cursors)) + [row];
        }
      }
    }

    method AppendEventRecord(event: EventRecord, stamp: Stamp) returns (inserted: bool)
      modifies this
      ensures State() == Appended(SchemaReady(old(State())), RecordRow(event, stamp))
      ensures inserted <==> !HasId(SchemaReady(old(State())).events, RecordRow(event, stamp).eventId)
    {
      InitSchema();
      inserted := InsertEvent(RecordRow(event, stamp));
    }

    method SetCursor(name: string, offset: nat, lastId: string, now: string)
      modifies this
      ensures State() == CursorSet(SchemaReady(old(State())), name, offset, lastId, now)
    {
      InitSchema();
      var payload := CoordinatorCursor(None, None, offset, if lastId != "" then Some(lastId) else None, Some(now), "");
      if name in cursors {
        cursors := cursors[name := cursors[name].(lastEventId := Some(lastId))];
      } else {
        cursors := cursors[name := CursorRow(Some(lastId), payload)];
      }
    }

    method UpsertTaskRuntimeRow(task: Task, now: string)
      modifies this`runtime
      ensures runtime == Upserted(old(runtime), task, now)
    {
      var r := task.runtime;
      var claimId := if r.claimId.GetOr("") != "" then r.claimId else r.activeSessionId;
      var worktreePath, branch, baseBranch := None, None, None;
      if task.worktree.Some? {
        var w := task.worktree.value;
        worktreePath, branch, baseBranch := w.worktreePath, w.branch, w.baseBranch;
      }
      var lockedResources := Listed(task.exclusiveResources);
      if r.lockedResourcesJson.Some? { lockedResources := Raw(r.lockedResourcesJson.value); }
      var lastErrorMessage := if r.lastErrorMessage.Some? then r.lastErrorMessage else r.lastError;
      runtime := map k | k in runtime && runtime[k].taskId != task.id :: runtime[k];
      runtime := runtime[claimId.GetOr("unclaimed-" + task.id) := RuntimeRow(
        taskId := task.id, runId := r.runId.GetOr("-"), coordinatorEpoch := r.coordinatorEpoch.GetOr(0),
        workflowState := task.state, runtimeStatus := r.status.GetOr("idle"), phase := r.currentPhase,
            tool := task.tool,
        worktreeSlotId := r.worktreeSlotId, worktreePath := worktreePath, branch := branch, baseBranch := baseBranch,
        pid := r.pid, processGroupId := r.processGroupId, startedAt := r.startedAt, updatedAt := now,
        lastHeartbeatAt := r.lastHeartbeat, heartbeatSeq := r.heartbeatSeq.GetOr(0), leaseExpiresAt := r.leaseExpiresAt,
        attempt := r.attempt.GetOr(0), lockedResources := lockedResources, lastErrorCode := r.lastErrorCode,
        lastErrorMessage := lastErrorMessage, payload := r)];
    }

    method RecomputeResourceLocks(now: string)
      requires WellKeyed(tasks)
      modifies this`locks
      ensures locks == LocksOf(tasks, now)
    {
      locks := RecomputedLocks(tasks, now);
    }

    method ApplyTransitionWithEvent(change: TransitionMutation, event: Option<EventMutation>, stamp: Stamp)
      returns (r: Result<Done, StorageError>)
      requires WellKeyed(tasks)
      modifies this
      ensures r == if change.taskId in old(tasks) then Ok(Done) else Err(TaskNotFound)
      ensures State() == (var db := SchemaReady(old(State()));
                          if r.Ok? then Mutated(db, Transition(change), event, stamp) else db)
    {
      InitSchema();
      if change.taskId !in tasks { return Err(TaskNotFound); }
      var task := TransitionTask(tasks[change.taskId].payload, change);
      StoreTransition(change.taskId, task, change.now);
      if event.Some? {
        var _ := InsertEvent(MutationRow(event.value, stamp));
      }
      r := Ok(Done);
    }

    method SetRuntimeWithEvent(change: RuntimeMutation, event: Option<EventMutation>, stamp: Stamp)
      returns (r: Result<Done, StorageError>)
      modifies this
      ensures r == if change.taskId in old(tasks) then Ok(Done) else Err(TaskNotFound)
      ensures State() == (var db := SchemaReady(old(State()));
                          if r.Ok? then Mutated(db, Runtime(change), event, stamp) else db)
    {
      InitSchema();
      if change.taskId !in tasks { return Err(TaskNotFound); }
      var task := ReportTask(tasks[change.taskId].payload, change);
      StoreTask(change.taskId, task, change.now);
      if event.Some? {
        var _ := InsertEvent(MutationRow(event.value, stamp));
      }
      r := Ok(Done);
    }

    /** What a transition writes: the task, its runtime row and the locks. */
    method StoreTransition(taskId: string, task: Task, now: string)
      requires WellKeyed(tasks) && task.id == taskId != ""
      modifies this`tasks, this`runtime, this`locks
      ensures State() == TaskStored(old(State()), taskId, task, now, true)
    {
      hide LocksOf, Upserted, RuntimeRowOf;
      StoreTask(taskId, task, now);
      RecomputeResourceLocks(now);
    }

    /** The `UPDATE tasks` and the runtime row of a mutation. */
    method StoreTask(taskId: string, task: Task, now: string)
      modifies this`tasks, this`runtime
      ensures tasks == old(tasks)[taskId := TaskRowOf(task, now)]
      ensures runtime == Upserted(old(runtime), task, now)
    {
      tasks := tasks[taskId := TaskRow(task.state, task.title.GetOr(""), task.priority.GetOr(""), task.tool.GetOr(""),
          task, now)];
      UpsertTaskRuntimeRow(task, now);
    }

    method SetMergePending(change: MergePendingMutation) returns (r: Result<Done, StorageError>)
      modifies this
      ensures r == if change.taskId in old(tasks) then Ok(Done) else Err(TaskNotFound)
      ensures forall stamp :: State() == (var db := SchemaReady(old(State()));
                                          if r.Ok? then Mutated(db, Pending(change), None, stamp) else db)
    {
      hide Upserted, TaskRowOf, LocksOf, Migrated;
      InitSchema();
      if change.taskId !in tasks { return Err(TaskNotFound); }
      var task := tasks[change.taskId].payload;
      var rt := task.runtime;
      rt := rt.(mergeResultPending := Some(true), mergeResultFile := Some(change.resultFile));
      rt := rt.(mergeWorkerPid := change.pid, mergeResultStartedAt := Some(change.now));
      task := task.(runtime := rt, updatedAt := Some(change.now));
      StoreTask(change.taskId, task, change.now);
      r := Ok(Done);
    }

    method SetMergeProcessed(change: MergeProcessedMutation) returns (r: Result<Done, StorageError>)
      modifies this
      ensures r == if change.taskId in old(tasks) then Ok(Done) else Err(TaskNotFound)
      ensures forall stamp :: State() == (var db := SchemaReady(old(State()));
                                          if r.Ok? then Mutated(db, Processed(change), None, stamp) else db)
    {
      hide Upserted, TaskRowOf, LocksOf, Migrated;
      InitSchema();
      if change.taskId !in tasks { return Err(TaskNotFound); }
      var task := tasks[change.taskId].payload;
      var rt := task.runtime;
      rt := rt.(mergeResultPending := Some(false), mergeResultFile := None, mergeWorkerPid := None);
      if change.resultFile != "" { rt := rt.(lastMergeResultFile := Some(change.resultFile)); }
      if change.status != "" { rt := rt.(lastMergeResultStatus := Some(change.status)); }
      if change.rc.Some? { rt := rt.(lastMergeResultRc := change.rc); }
      rt := rt.(lastMergeResultAt := Some(change.now));
      task := task.(runtime := rt, updatedAt := Some(change.now));
      StoreTask(change.taskId, task, change.now);
      r := Ok(Done);
    }

    method IncrementRetries(change: RetryIncrementMutation) returns (r: Result<Done, StorageError>)
      modifies this
      ensures r == if change.taskId in old(tasks) then Ok(Done) else Err(TaskNotFound)
      ensures forall stamp :: State() == (var db := SchemaReady(old(State()));
                                          if r.Ok? then Mutated(db, Retry(change), None, stamp) else db)
    {
      hide Upserted, TaskRowOf, LocksOf, Migrated;
      InitSchema();
      if change.taskId !in tasks { return Err(TaskNotFound); }
      var task := tasks[change.taskId].payload;
      var rt := task.runtime;
      rt := rt.(retries := Some(NextRetries(rt)));
      rt := rt.(metrics := Some(rt.metrics.GetOr(RuntimeMetrics(None, "")).(retries := rt.retries)));
      task := task.(runtime := rt, updatedAt := Some(change.now));
      StoreTask(change.taskId, task, change.now);
      r := Ok(Done);
    }

    method UpsertSloWarning(change: SloWarningMutation) returns (r: Result<Done, StorageError>)
      modifies this
      ensures r == if change.taskId in old(tasks) then Ok(Done) else Err(TaskNotFound)
      ensures forall stamp :: State() == (var db := SchemaReady(old(State()));
                                          if r.Ok? then Mutated(db, Slo(change), None, stamp) else db)
    {
      hide Upserted, TaskRowOf, LocksOf, Migrated;
      InitSchema();
      if change.taskId !in tasks { return Err(TaskNotFound); }
      var task := tasks[change.taskId].payload;
      var warnings := task.runtime.sloWarnings.GetOr(map[]);
      warnings := warnings[change.metric := SloWarning(change.metric, change.threshold, change.value, change.now,
          change.suggestion)];
      task := task.(runtime := task.runtime.(sloWarnings := Some(warnings)));
      task := task.(updatedAt := Some(change.now));
      StoreTask(change.taskId, task, change.now);
      r := Ok(Done);
    }

    /** One transaction: its statements work on the tables as it sees them, and it commits all or nothing. */
    method SaveSnapshot(snapshot: Snapshot, now: string) returns (r: Result<Done, StorageError>)
      modifies this
      ensures r == if JobsOf(snapshot.registry.tasks, now).Some? then Ok(Done) else Err(JobExists)
      ensures State() == (var db := SchemaReady(old(State())); if r.Ok? then SavedDb(db, snapshot, now) else db)
    {
      InitSchema();
      var saved := WriteSnapshot(State(), snapshot, now);
      if saved.Err? { return Err(saved.error); }
      var db := saved.value;
      tasks, runtime, locks, jobs, events := db.tasks, db.runtime, db.locks, db.jobs, db.events;
      cursors, registryMeta := db.cursors, db.registryMeta;
      r := Ok(Done);
    }

    method LoadRegistry(now: string) returns (registry: TaskRegistry)
      requires Consistent(State())
      modifies this
      ensures State() == SchemaReady(old(State()))
      ensures registry == LoadedRegistry(State(), now)
    {
      InitSchema();
      registry := TablesRegistry(tasks, locks, now);
      if registryMeta.Some? {
        registry := MergeMeta(registry, registryMeta.value);
      }
    }

    method LoadSnapshot(now: string) returns (snapshot: Snapshot)
      requires Consistent(State())
      modifies this
      ensures State() == SchemaReady(old(State()))
      ensures snapshot == LoadedSnapshot(State(), now)
    {
      var registry := LoadRegistry(now);
      snapshot := Snapshot(registry, Records(Ascending(events)), LoadedCursor(State()));
    }

    method LoadSnapshotWithoutEvents(now: string) returns (snapshot: Snapshot)
      requires Consistent(State())
      modifies this
      ensures State() == SchemaReady(old(State()))
      ensures snapshot == LoadedSnapshot(State(), now).(events := [])
    {
      var registry := LoadRegistry(now);
      snapshot := Snapshot(registry, [], LoadedCursor(State()));
    }

    /**
     The newest events are collected one by one until there are enough, then
     put in log order: the last `limit` events of the snapshot.
     */
    method LoadRecentEvents(limit: nat) returns (recent: seq<EventRecord>)
      requires DistinctIds(events)
      modifies this
      ensures State() == if limit == 0 then old(State()) else SchemaReady(old(State()))
      ensures recent == LastRecords(events, limit)
    {
      if limit == 0 { return []; }
      InitSchemaKeepsIds();
      InitSchema();
      recent := NewestRecords(Scan(events, EVERY_EVENT), limit);
      NewestAreLast(events, limit, recent);
    }

    /** Visits matching events, newest first, until the visitor breaks; `visited` is what it was shown. */
    method ScanEventsNewestFirst(query: EventQuery, breaks: EventRecord -> bool) returns (visited: seq<EventRecord>)
      modifies this
      ensures State() == SchemaReady(old(State()))
      ensures visited <= Records(Scan(events, query))
      ensures forall i | 0 <= i < |visited| - 1 :: !breaks(visited[i])
      ensures |visited| < |Scan(events, query)| ==> visited != [] && breaks(visited[|visited| - 1])
    {
      InitSchema();
      var rows := Scan(events, query);
      visited := [];
      for n := 0 to |rows|
        invariant visited == Records(rows)[..n]
        invariant forall i | 0 <= i < n :: !breaks(visited[i])
      {
        visited := visited + [rows[n].record];
        if breaks(rows[n].record) { break; }
      }
    }

    lemma InitSchemaKeepsIds()
      requires DistinctIds(events)
      ensures DistinctIds(SchemaReady(State()).events)
    {
      MigratedRows(events, Targets(State()));
      SubsequenceMembers(Migrated(events, Targets(State())), events);
    }

    method TaskHasTerminalResultForClaim(taskId: string, claimId: string) returns (found: bool)
      ensures found <==> HasTerminalResult(events, taskId, claimId)
    {
      if taskId == "" || claimId == "" { return false; }
      for n := 0 to |events|
        invariant forall i | 0 <= i < n ::
                    !(events[i].taskId == Some(taskId) && events[i].eventType == "phase_result"
                        && events[i].record.claimId == Some(claimId))
      {
        if events[n].taskId == Some(taskId) && events[n].eventType == "phase_result"
            && events[n].record.claimId == Some(claimId) {
          return true;
        }
      }
      return false;
    }

    method HasSavedData() returns (has: bool)
      modifies this
      ensures State() == SchemaReady(old(State()))
      ensures has <==> HasSnapshotData(State())
    {
      InitSchema();
      has := registryMeta.Some? || tasks.Keys != {};
    }
  }

  function CursorSet(db: Db, name: string, offset: nat, lastId: string, now: string): Db
  {
    var payload := CoordinatorCursor(None, None, offset, if lastId != "" then Some(lastId) else None, Some(now), "");
    var kept := if name in db.cursors then db.cursors[name].payload else payload;
    db.(cursors := db.cursors[name := CursorRow(Some(lastId), kept)])
  }

  lemma {:induction false} EveryEventSelected(log: seq<EventRow>)
    ensures Selected(log, EVERY_EVENT) == log
  {
    if log != [] { EveryEventSelected(log[1..]); }
  }

  /** The last `limit` events in log order. */
  function LastRecords(log: seq<EventRow>, limit: nat): seq<EventRecord>
  {
    var all := Records(Ascending(log));
    all[if limit < |all| then |all| - limit else 0..]
  }

  lemma NewestAreLast(log: seq<EventRow>, limit: nat, recent: seq<EventRecord>)
    requires DistinctIds(log)
    requires |recent| == if limit < |Scan(log, EVERY_EVENT)| then limit else |Scan(log, EVERY_EVENT)|
    requires forall i | 0 <= i < |recent| :: recent[i] == Scan(log, EVERY_EVENT)[|recent| - 1 - i].record
    ensures recent == LastRecords(log, limit)
  {
    EveryEventSelected(log);
    DescendingIsReversed(log);
    var rows, all := Ascending(log), Records(Ascending(log));
    forall i | 0 <= i < |recent| ensures recent[i] == all[|rows| - |recent| + i] {}
  }

  /** A job asked for twice among the first tasks fails the whole save. */
  lemma {:induction false} JobsFailOnward(ts: seq<Task>, n: nat, now: string)
    requires n <= |ts| && JobsOf(ts[..n], now).None?
    ensures JobsOf(ts, now).None?
    decreases |ts| - n
  {
    if n == |ts| {
      assert ts[..n] == ts;
    } else {
      assert ts[..n + 1][..n] == ts[..n];
      JobsFailOnward(ts, n + 1, now);
    }
  }

  /** The locks of the first `n` resources have been inserted. */
  ghost predicate InsertedUpTo(registryLocks: map<string, ResourceLock>, resources: seq<string>, n: nat, now: string,
      table: LockTable)
    requires n <= |resources|
  {
    && (forall key :: key in table <==> key.resource in resources[..n] && IsSavedKey(registryLocks, key))
    && (forall key | key in table ::
        key.resource in registryLocks && table[key] == SavedLockRow(registryLocks[key.resource], now))
  }

  method InsertedLocks(registryLocks: map<string, ResourceLock>, now: string) returns (table: LockTable)
    ensures table == SavedLocks(registryLocks, now)
  {
    hide InsertedUpTo, SavedLocks, StrictlySorted;
    table := map[];
    var resources := Ordered(registryLocks.Keys);
    NothingInserted(registryLocks, resources, now);
    for n := 0 to |resources|
      invariant InsertedUpTo(registryLocks, resources, n, now, table)
    {
      assert resources[n] in resources;
      var key := SavedLockKey(resources[n], registryLocks[resources[n]]);
      NextInserted(registryLocks, resources, n, now, table);
      assert key !in table;  // the insert meets no row with its key
      table := table[key := SavedLockRow(registryLocks[resources[n]], now)];
    }
    AllInserted(registryLocks, resources, now, table);
  }

  lemma NothingInserted(registryLocks: map<string, ResourceLock>, resources: seq<string>, now: string)
    ensures InsertedUpTo(registryLocks, resources, 0, now, map[])
  {
  }

  lemma NextInserted(registryLocks: map<string, ResourceLock>, resources: seq<string>, n: nat, now: string,
      table: LockTable)
    requires n < |resources| && resources[n] in registryLocks && StrictlySorted(resources)
    requires InsertedUpTo(registryLocks, resources, n, now, table)
    ensures var lock := registryLocks[resources[n]];
            && SavedLockKey(resources[n], lock) !in table
            && InsertedUpTo(registryLocks, resources, n + 1, now,
                table[SavedLockKey(resources[n], lock) := SavedLockRow(lock, now)])
  {
    hide StringLe;
    assert resources[..n + 1] == resources[..n] + [resources[n]];
  }

  lemma AllInserted(registryLocks: map<string, ResourceLock>, resources: seq<string>, now: string, table: LockTable)
    requires InsertedUpTo(registryLocks, resources, |resources|, now, table)
    requires forall r :: r in resources <==> r in registryLocks
    ensures table == SavedLocks(registryLocks, now)
  {
    assert resources[..|resources|] == resources;
    assert forall key :: key in SavedLocks(registryLocks, now) <==> IsSavedKey(registryLocks, key);
  }

  predicate IsSavedKey(registryLocks: map<string, ResourceLock>, key: LockKey)
  {
    key.resource in registryLocks && key == SavedLockKey(key.resource, registryLocks[key.resource])
  }

  method InsertedEvents(log: seq<EventRow>, records: seq<EventRecord>) returns (rows: seq<EventRow>)
    ensures rows == InsertAll(log, SnapshotRows(records))
  {
    rows := log;
    for idx := 0 to |records|
      invariant rows == InsertAll(log, SnapshotRows(records)[..idx])
    {
      var row := SnapshotRow(records[idx], idx);
      assert SnapshotRows(records)[..idx + 1][..idx] == SnapshotRows(records)[..idx];
      if !HasId(rows, row.eventId) { rows := rows + [row]; }
    }
    assert SnapshotRows(records)[..|records|] == SnapshotRows(records);
  }
}

/**
 Loading and saving again and again: what a second transfer leaves as it is, when
 the locks come back from a load, and when the event log does not come to rest.
 */
module RepeatedTransfers {
  import opened Wrappers
  import opened Text
  import opened Tasks
  import opened EventLog
  import opened TaskTables
  import opened CoordinatorStore
  import opened StoreRuns
  import opened StorageSync

  // ---- an event log saved again --------------------------------------------

  /** A stored event whose JSON names it as its row does. */
  ghost predicate NamesItself(row: EventRow) { row.record.eventId == row.eventId != "" }

  /** Appended events name themselves, and so do saved ones that come with an id. */
  lemma RowsNameThemselves(event: EventRecord, m: EventMutation, idx: nat, stamp: Stamp)
    ensures NamesItself(RecordRow(event, stamp)) && NamesItself(MutationRow(m, stamp))
    ensures NamesItself(SnapshotRow(event, idx)) <==> event.eventId != ""
  {
    assert GeneratedId(event.eventType, event.taskId.GetOr(""), RecordRow(event, stamp).seqNo)[0] == 'e';
    assert GeneratedId(m.eventType, m.taskId, MutationRow(m, stamp).seqNo)[0] == 'e';
    assert Blank("") by { assert Trim("") == ""; }
    var row := SnapshotRow(event, idx);
    assert row.eventId != "" by { assert event.eventId == "" ==> row.eventId[0] == 'e'; }
  }

  /** What saving a load of its own makes of an event log. */
  function Resaved(log: seq<EventRow>): seq<EventRow> { InsertAll(log, SnapshotRows(Records(Ascending(log)))) }

  /** The id a save gives to the event at index `idx`: its own, or its position when it has none. */
  function NameAt(event: EventRecord, idx: nat): string
  {
    if event.eventId == "" then "event-" + Decimal(idx + 1) else event.eventId
  }

  /** Every event, read in order, has a name that the log already knows. */
  predicate NamesKnown(log: seq<EventRow>)
  {
    forall i | 0 <= i < |Ascending(log)| :: HasId(log, NameAt(Ascending(log)[i].record, i))
  }

  lemma {:induction false} KnownRowsIgnored(log: seq<EventRow>, rows: seq<EventRow>)
    requires forall i | 0 <= i < |rows| :: HasId(log, rows[i].eventId)
    ensures InsertAll(log, rows) == log
  {
    if rows != [] { KnownRowsIgnored(log, rows[..|rows| - 1]); }
  }

  /** Saving a loaded log back adds no event if and only if every name it gives is known. */
  lemma ResavedIsStableIff(log: seq<EventRow>)
    ensures Resaved(log) == log <==> NamesKnown(log)
    ensures log <= Resaved(log)
  {
    var rows := SnapshotRows(Records(Ascending(log)));
    hide Ascending, HasId, InsertAll;
    forall i | 0 <= i < |rows| ensures rows[i].eventId == NameAt(Ascending(log)[i].record, i) {}
    InsertAllHasIds(log, rows);
    InsertAllKeepsRows(log, rows);
    hide SnapshotRows, NameAt;
    if NamesKnown(log) { KnownRowsIgnored(log, rows); }
  }

  /** In particular if the stored events name themselves, as appended ones do. */
  lemma LoadedEventsKnown(log: seq<EventRow>)
    requires forall i | 0 <= i < |log| :: NamesItself(log[i])
    ensures NamesKnown(log)
  {
    var sorted := Ascending(log);
    forall i | 0 <= i < |sorted| ensures HasId(log, NameAt(sorted[i].record, i)) {
      assert sorted[i] in multiset(sorted);
      assert sorted[i] in log;
      var k :| 0 <= k < |log| && log[k] == sorted[i];
      assert NamesItself(log[k]);
    }
  }

  // ---- saving a registry again -----------------------------------------------

  /** No runtime row is left behind by its task. */
  predicate OwnsRuntime(tables: Tables) { forall k | k in tables.runtime :: tables.runtime[k].taskId in tables.tasks }

  lemma SaveTaskOwnsRuntime(stored: TaskTable, tables: Tables, t: Task, now: string)
    requires OwnsRuntime(tables)
    ensures OwnsRuntime(SaveTask(stored, tables, t, now))
  {
    var after := SaveTask(stored, tables, t, now);
    assert RuntimeRowOf(t, RuntimeUpdatedAt(t, now)).taskId == t.id;
    hide RuntimeRowOf, TaskRowOf, ClaimKey, Unchanged;
    forall k | k in after.runtime ensures after.runtime[k].taskId in after.tasks {
      assert after.runtime[k].taskId == t.id || after == tables || k in tables.runtime;
    }
  }

  lemma {:induction false} SaveOwnsRuntime(stored: TaskTable, start: Tables, ts: seq<Task>, now: string)
    requires OwnsRuntime(start)
    ensures OwnsRuntime(SaveTasks(stored, start, ts, now))
  {
    hide OwnsRuntime, SaveTask;
    if ts != [] {
      SaveOwnsRuntime(stored, start, ts[..|ts| - 1], now);
      SaveTaskOwnsRuntime(stored, SaveTasks(stored, start, ts[..|ts| - 1], now), ts[|ts| - 1], now);
    }
  }

  lemma {:induction false} UnchangedTasksSkipped(stored: TaskTable, start: Tables, ts: seq<Task>, now: string)
    requires forall i | 0 <= i < |ts| :: Unchanged(stored, ts[i])
    ensures SaveTasks(stored, start, ts, now) == start
  {
    if ts != [] { UnchangedTasksSkipped(stored, start, ts[..|ts| - 1], now); }
  }

  lemma StartKeepsAll(stored: TaskTable, runtime: RuntimeTable, ts: seq<Task>)
    requires KeptIds(ts) == stored.Keys && OwnsRuntime(Tables(stored, runtime))
    ensures SaveStart(stored, runtime, ts) == Tables(stored, runtime)
  {
  }

  /** Saving the tasks that are stored changes neither them nor their runtime rows. */
  lemma SavingStoredTasks(stored: TaskTable, runtime: RuntimeTable, now: string)
    requires WellKeyed(stored) && OwnsRuntime(Tables(stored, runtime))
    ensures Saved(stored, runtime, TasksInOrder(stored), now) == Tables(stored, runtime)
  {
    hide WellKeyed, OwnsRuntime, TasksInOrder, TasksById, Unchanged, SaveStart, KeptIds, DistinctTaskIds;
    var ts := TasksInOrder(stored);
    forall i | 0 <= i < |ts| ensures Unchanged(stored, ts[i]) { InOrderAt(stored, i); }
    StoredIsNormal(stored);
    StartKeepsAll(stored, runtime, ts);
    UnchangedTasksSkipped(stored, Tables(stored, runtime), ts, now);
  }

  lemma StartOwnsRuntime(stored: TaskTable, runtime: RuntimeTable, ts: seq<Task>)
    ensures OwnsRuntime(SaveStart(stored, runtime, ts))
  {
  }

  lemma SavedOwnsRuntime(stored: TaskTable, runtime: RuntimeTable, ts: seq<Task>, now: string)
    ensures OwnsRuntime(Saved(stored, runtime, ts, now))
  {
    StartOwnsRuntime(stored, runtime, ts);
    SaveOwnsRuntime(stored, SaveStart(stored, runtime, ts), ts, now);
  }

  /** The same rows, up to when they were written. */
  predicate SameJobs(a: JobTable, b: JobTable)
  {
    a.Keys == b.Keys && forall key | key in a :: b[key] == a[key].(updatedAt := b[key].updatedAt)
  }

  predicate SameLocks(a: LockTable, b: LockTable)
  {
    a.Keys == b.Keys && forall key | key in a :: b[key] == a[key].(updatedAt := b[key].updatedAt)
  }

  /** The two tasks want the same job row under this key, up to the time of writing. */
  predicate SameJob(a: Task, b: Task, key: JobKey)
  {
    && Asks(a, key) && Asks(b, key) && ProcessOf(a, key.kind) == ProcessOf(b, key.kind)
    && a.runtime.status.GetOr("idle") == b.runtime.status.GetOr("idle")
  }

  /** Every job a task of the snapshot asks for is also asked for by what was stored under its id. */
  ghost predicate KeepsJobs(ts: seq<Task>, stored: TaskTable)
  {
    forall i, key: JobKey | 0 <= i < |ts| && Asks(ts[i], key) ::
      key.taskId in stored && SameJob(ts[i], stored[key.taskId].payload, key)
  }

  lemma SameRowIff(a: Task, b: Task, key: JobKey, first: string, again: string)
    requires Asks(a, key) && Asks(b, key)
    ensures SameJob(a, b, key) <==>
            var one, two := JobRowOf(a, key.kind, first), JobRowOf(b, key.kind, again);
            two == one.(updatedAt := two.updatedAt)
  {
  }

  lemma InOrderAsks(stored: TaskTable, key: JobKey, j: nat)
    requires WellKeyed(stored) && j < |TasksInOrder(stored)| && Asks(TasksInOrder(stored)[j], key)
    ensures key.taskId in stored && stored[key.taskId].payload == TasksInOrder(stored)[j]
  {
    InOrderAt(stored, j);
    assert Ordered(stored.Keys)[j] in Ordered(stored.Keys);
  }

  lemma StoredAsks(stored: TaskTable, jobs: JobTable, key: JobKey, at: string)
    requires WellKeyed(stored) && AreJobsOf(jobs, TasksInOrder(stored), at)
    ensures key in jobs <==> key.taskId in stored && Asks(stored[key.taskId].payload, key)
    ensures key in jobs ==> jobs[key] == JobRowOf(stored[key.taskId].payload, key.kind, at)
  {
    var ts, ids := TasksInOrder(stored), Ordered(stored.Keys);
    hide JobRowOf, RuntimeUpdatedAt, WellKeyed;
    if key in jobs {
      var j :| 0 <= j < |ts| && Asks(ts[j], key);
      InOrderAsks(stored, key, j);
    }
    if key.taskId in stored && Asks(stored[key.taskId].payload, key) {
      var j :| 0 <= j < |ids| && ids[j] == key.taskId;
      assert ts[j] == stored[key.taskId].payload;
    }
  }

  lemma AskedJob(jobs: JobTable, ts: seq<Task>, i: nat, key: JobKey, at: string)
    requires AreJobsOf(jobs, ts, at) && i < |ts| && Asks(ts[i], key)
    ensures key in jobs && jobs[key] == JobRowOf(ts[i], key.kind, at)
  {
  }

  lemma SameRow(a: JobTable, b: JobTable, key: JobKey)
    requires SameJobs(a, b) && key in a
    ensures key in b && b[key] == a[key].(updatedAt := b[key].updatedAt)
  {
  }

  lemma SameJobsAreKept(
      ts: seq<Task>, stored: TaskTable, jobs: JobTable, after: JobTable, first: string, again: string, i: nat,
      key: JobKey)
    requires WellKeyed(stored) && AreJobsOf(jobs, ts, first) && AreJobsOf(after, TasksInOrder(stored), again)
    requires SameJobs(jobs, after) && i < |ts| && Asks(ts[i], key)
    ensures key.taskId in stored && SameJob(ts[i], stored[key.taskId].payload, key)
  {
    hide AreJobsOf, WellKeyed, SameJobs, Asks, SameJob, JobRowOf, TasksInOrder;
    AskedJob(jobs, ts, i, key, first);
    SameRow(jobs, after, key);
    StoredAsks(stored, after, key, again);
    SameRowIff(ts[i], stored[key.taskId].payload, key, first, again);
  }

  lemma KeptJobsAreSame(
      ts: seq<Task>, stored: TaskTable, jobs: JobTable, after: JobTable, first: string, again: string, key: JobKey)
    requires WellKeyed(stored) && AreJobsOf(jobs, ts, first) && AreJobsOf(after, TasksInOrder(stored), again)
    requires KeepsJobs(ts, stored) && key in jobs
    ensures key in after && after[key] == jobs[key].(updatedAt := after[key].updatedAt)
  {
    var i :| 0 <= i < |ts| && Asks(ts[i], key);
    hide WellKeyed, AreJobsOf, Asks, SameJob, JobRowOf, TasksInOrder;
    AskedJob(jobs, ts, i, key, first);
    assert SameJob(ts[i], stored[key.taskId].payload, key);
    KeptJob(ts[i], stored[key.taskId].payload, key);
    StoredAsks(stored, after, key, again);
    SameRowIff(ts[i], stored[key.taskId].payload, key, first, again);
  }

  lemma NoJobIsNew(
      ts: seq<Task>, stored: TaskTable, jobs: JobTable, after: JobTable, first: string, again: string, key: JobKey)
    requires WellKeyed(stored) && AreJobsOf(jobs, ts, first) && AreJobsOf(after, TasksInOrder(stored), again)
    requires (forall id | id in stored :: stored[id].payload in ts) && key in after
    ensures key in jobs
  {
    hide WellKeyed, AreJobsOf, Asks, TasksInOrder, JobRowOf;
    StoredAsks(stored, after, key, again);
    var i :| 0 <= i < |ts| && ts[i] == stored[key.taskId].payload;
    AskedJob(jobs, ts, i, key, first);
  }

  /** The jobs of what is stored are the jobs of the snapshot exactly when no job of it is lost. */
  lemma SameJobsIff(ts: seq<Task>, stored: TaskTable, jobs: JobTable, after: JobTable, first: string, again: string)
    requires WellKeyed(stored) && (forall id | id in stored :: stored[id].payload in ts)
    requires AreJobsOf(jobs, ts, first) && AreJobsOf(after, TasksInOrder(stored), again)
    ensures SameJobs(jobs, after) <==> KeepsJobs(ts, stored)
  {
    hide WellKeyed, AreJobsOf, Asks, SameJob, TasksInOrder;
    if SameJobs(jobs, after) {
      forall i, key: JobKey | 0 <= i < |ts| && Asks(ts[i], key)
        ensures key.taskId in stored && SameJob(ts[i], stored[key.taskId].payload, key)
      {
        SameJobsAreKept(ts, stored, jobs, after, first, again, i, key);
      }
    }
    if KeepsJobs(ts, stored) {
      hide KeepsJobs;
      forall key | key in jobs ensures key in after && after[key] == jobs[key].(updatedAt := after[key].updatedAt) {
        KeptJobsAreSame(ts, stored, jobs, after, first, again, key);
      }
      forall key | key in after ensures key in jobs { NoJobIsNew(ts, stored, jobs, after, first, again, key); }
    }
  }

  lemma KeptJob(a: Task, b: Task, key: JobKey)
    requires SameJob(a, b, key)
    ensures Asks(b, key)
  {
  }

  lemma {:induction false} LastWrittenIsMember(stored: TaskTable, ts: seq<Task>, id: string)
    ensures LastWritten(stored, ts, id).Some? ==> LastWritten(stored, ts, id).value in ts
  {
    if ts != [] { LastWrittenIsMember(stored, ts[..|ts| - 1], id); }
  }

  /** What a save leaves under an id is one of the snapshot's tasks. */
  lemma StoredIsOfSnapshot(stored: TaskTable, runtime: RuntimeTable, ts: seq<Task>, now: string, id: string)
    requires WellKeyed(stored) && id in KeptIds(ts)
    ensures var tasks := Saved(stored, runtime, ts, now).tasks; id in tasks && tasks[id].payload in ts
  {
    SavedIsLastIff(stored, runtime, ts, now, id);
    SaveHoldsLastWritten(stored, SaveStart(stored, runtime, ts), ts, now, id);
    LastWrittenIsMember(stored, ts, id);
    LastIsMember(ts, id);
    LastWithIdExists(ts, id);
    WritesSome(stored, ts, id);
    hide SaveTasks, SaveStart;
  }

  /** Snapshots with distinct ids lose none. */
  lemma DistinctIdsKeepJobs(stored: TaskTable, runtime: RuntimeTable, ts: seq<Task>, now: string)
    requires WellKeyed(stored) && DistinctTaskIds(ts)
    ensures KeepsJobs(ts, Saved(stored, runtime, ts, now).tasks)
  {
    SaveStoresTasks(stored, runtime, ts, now);
    hide Saved, WellKeyed;
    forall i | 0 <= i < |ts| && ts[i].id != "" ensures ts[i].id in KeptIds(ts) {}
  }

  /** A repeated id can lose one: the task with the process is overwritten by one without. */
  lemma RepeatedIdLosesJob(t: Task, pid: int, now: string)
    requires t.id != "" && t.runtime.pid.None? && t.runtime.mergeWorkerPid.None?
    ensures var ts := [t.(runtime := t.runtime.(pid := Some(pid))), t];
            JobsOf(ts, now).Some? && !KeepsJobs(ts, Saved(map[], map[], ts, now).tasks)
  {
    var running := t.(runtime := t.runtime.(pid := Some(pid)));
    var ts, key := [running, t], JobKey(t.id, Performer);
    assert ts[0] == running && ts[1] == t && Asks(ts[0], key);
    assert !AskedTwice(ts) by {
      forall i, j, k: JobKey | 0 <= i < j < |ts| ensures !(Asks(ts[i], k) && Asks(ts[j], k)) {}
    }
    JobsOfIff(ts, now);
    LastOfTwoIsStored(running, t, now);
    assert !SameJob(ts[0], t, key);
  }

  lemma LastOfTwoIsStored(first: Task, second: Task, now: string)
    requires first.id == second.id != ""
    ensures var tasks := Saved(map[], map[], [first, second], now).tasks;
            second.id in tasks && tasks[second.id].payload == second
  {
    var ts := [first, second];
    assert second.id in KeptIds(ts) by { assert ts[1].id == second.id; }
    IncrementalRowIsRewrittenIff(map[], map[], ts, now, second.id);
    RewrittenHoldsLast(ts, now, second.id);
    assert LastWithId(ts, second.id) == Some(second);
  }

  lemma LocksAgain(locks: map<string, ResourceLock>, first: string, again: string)
    ensures SameLocks(SavedLocks(locks, first), SavedLocks(locks, again))
  {
  }

  /** The same store up to the times of locks, the jobs, the event log and the metadata. */
  ghost predicate SameStore(a: Db, b: Db)
  {
    && b == a.(jobs := b.jobs, locks := b.locks, events := b.events, registryMeta := b.registryMeta)
    && SameLocks(a.locks, b.locks)
  }

  /** Saving a registry with the tasks, locks and cursor that are stored. */
  lemma SavedAgain(first: Db, loaded: Snapshot, savedAt: string, again: string)
    requires Consistent(first) && OwnsRuntime(Tables(first.tasks, first.runtime))
    requires loaded.registry.tasks == TasksInOrder(first.tasks)
    requires first.locks == SavedLocks(loaded.registry.resourceLocks, savedAt)
    requires first.cursors == SavedCursors(loaded.cursor)
    ensures JobsOf(loaded.registry.tasks, again).Some?
    ensures var second := SavedDb(first, loaded, again);
            && SameStore(first, second) && AreJobsOf(second.jobs, TasksInOrder(first.tasks), again)
            && second.events == InsertAll(first.events, SnapshotRows(loaded.events))
            && second.registryMeta == Some(loaded.registry.(tasks := []))
  {
    hide JobsOf, Saved, SavedLocks, InsertAll, SnapshotRows, SavedCursors, SameLocks, OwnsRuntime, TasksInOrder,
         KeptIds, TasksById, DistinctTaskIds, AreJobsOf, WellKeyed, Exclusive, DistinctIds;
    StoredIsNormal(first.tasks);
    DistinctIdsSave(loaded.registry.tasks, again);
    JobsOfIff(loaded.registry.tasks, again);
    SavingStoredTasks(first.tasks, first.runtime, again);
    LocksAgain(loaded.registry.resourceLocks, savedAt, again);
  }

  // ---- saving a fresh load -----------------------------------------------------

  /** A lock row that comes back from a load and a save: its payload parses and its claim has a name. */
  predicate Saveable(key: LockKey, row: LockRow) { row.payload.Some? && key.claimId != "" }

  /** Only one key of the saved table is the lock's. */
  lemma OneKeyEach(locks: map<string, ResourceLock>, now: string, key: LockKey)
    ensures key in SavedLocks(locks, now) <==>
            key.resource in locks && key == SavedLockKey(key.resource, locks[key.resource])
    ensures key in SavedLocks(locks, now) ==> SavedLocks(locks, now)[key] == SavedLockRow(locks[key.resource], now)
  {
  }

  lemma PayloadOf(locks: LockTable, key: LockKey)
    requires Exclusive(locks) && key in locks
    ensures key.resource in LockPayloads(locks) <==> locks[key].payload.Some?
    ensures key.resource in LockPayloads(locks) ==> LockPayloads(locks)[key.resource] == locks[key].payload.value
  {
  }

  /**
   What becomes of a lock row that tells the truth: its key survives only if it
   can be saved, and so does its holding.
   */
  lemma SavedRow(locks: LockTable, key: LockKey, now: string)
    requires Exclusive(locks) && key in locks && Tells(key, locks[key])
    ensures var after := SavedLocks(LockPayloads(locks), now);
            && (key in after <==> Saveable(key, locks[key]))
            && (key in after ==> after[key].taskId == locks[key].taskId
                                 && after[key].worktreePath == locks[key].worktreePath
                                 && after[key].expiresAt == locks[key].expiresAt)
  {
    hide SavedLocks, LockPayloads, Exclusive;
    PayloadOf(locks, key);
    OneKeyEach(LockPayloads(locks), now, key);
    if locks[key].payload.Some? {
      var lock := locks[key].payload.value;
      assert lock.claimId == "" ==> |"unclaimed-" + lock.taskId| > 0;
    }
  }

  lemma SavedRowIsOld(locks: LockTable, key: LockKey, now: string)
    requires Exclusive(locks) && (forall k | k in locks :: Tells(k, locks[k]) && Saveable(k, locks[k]))
    requires key in SavedLocks(LockPayloads(locks), now)
    ensures key in locks
  {
    OneKeyEach(LockPayloads(locks), now, key);
    hide SavedLocks, Tells, Saveable;
    var row :| row in locks && row.resource == key.resource;
    SavedRow(locks, row, now);
    OneKeyEach(LockPayloads(locks), now, row);
  }

  lemma SameHoldingsAgree(tasks: TaskTable, locks: LockTable, after: LockTable)
    requires LocksAgree(tasks, locks) && after.Keys == locks.Keys
    requires forall key | key in locks ::
               && after[key].taskId == locks[key].taskId && after[key].worktreePath == locks[key].worktreePath
               && after[key].expiresAt == locks[key].expiresAt
    ensures LocksAgree(tasks, after)
  {
    hide Holder, HoldingOf, ClaimKey;
  }

  lemma SaveableLocksAgree(tasks: TaskTable, locks: LockTable, now: string)
    requires LocksAgree(tasks, locks) && Exclusive(locks)
    requires forall key | key in locks :: Tells(key, locks[key]) && Saveable(key, locks[key])
    ensures LocksAgree(tasks, SavedLocks(LockPayloads(locks), now))
  {
    hide SavedLocks, LockPayloads, Tells, Saveable, Exclusive, LocksAgree;
    var after := SavedLocks(LockPayloads(locks), now);
    forall key | key in after ensures key in locks { SavedRowIsOld(locks, key, now); }
    forall key | key in locks
      ensures && key in after && after[key].taskId == locks[key].taskId
              && after[key].worktreePath == locks[key].worktreePath && after[key].expiresAt == locks[key].expiresAt
    {
      SavedRow(locks, key, now);
    }
    SameHoldingsAgree(tasks, locks, after);
  }

  lemma LockIsNeeded(tasks: TaskTable, locks: LockTable, after: LockTable, key: LockKey)
    requires WellKeyed(tasks) && LocksAgree(tasks, locks) && key in locks && key !in after
    ensures !LocksAgree(tasks, after)
  {
    HeldByTask(tasks, locks, key);
    hide Holder, HoldingOf, ClaimKey, WellKeyed;
  }

  lemma HeldByTask(tasks: TaskTable, locks: LockTable, key: LockKey)
    requires LocksAgree(tasks, locks) && key in locks
    ensures Holder(tasks, key.resource).Some?
    ensures key.claimId == ClaimKey(tasks[Holder(tasks, key.resource).value].payload)
  {
    hide Holder, ClaimKey;
  }

  /** The table shows no lock and the metadata has some: a load takes those. */
  predicate FallsBack(db: Db)
    requires Exclusive(db.locks)
  {
    LockPayloads(db.locks) == map[] && db.registryMeta.Some? && db.registryMeta.value.resourceLocks != map[]
  }

  /** What a save of a fresh load would store are the locks the tasks ask for, read off before the save. */
  ghost predicate LocksComeBack(db: Db, now: string)
    requires Exclusive(db.locks)
  {
    if FallsBack(db) then LocksAgree(db.tasks, SavedLocks(db.registryMeta.value.resourceLocks, now))
    else forall key | key in db.locks :: Saveable(key, db.locks[key])
  }

  /** The locks that a fresh load finds. */
  lemma LoadedLocks(db: Db, now: string)
    requires Exclusive(db.locks) && Truthful(db)
    ensures LoadedRegistry(db, now).tasks == TasksInOrder(db.tasks)
    ensures LoadedRegistry(db, now).resourceLocks
         == if FallsBack(db) then db.registryMeta.value.resourceLocks else LockPayloads(db.locks)
  {
    hide TasksInOrder, LockPayloads, Exclusive, Tells, WithMeta, DEFAULT_EXTRA;
    if db.registryMeta.Some? { MetaLocks(TablesRegistry(db.tasks, db.locks, now), db.registryMeta.value); }
  }

  lemma MetaLocks(reg: TaskRegistry, meta: TaskRegistry)
    requires meta.tasks == []
    ensures WithMeta(reg, meta).tasks == reg.tasks
    ensures WithMeta(reg, meta).resourceLocks
         == if reg.resourceLocks == map[] && meta.resourceLocks != map[] then meta.resourceLocks else reg.resourceLocks
  {
  }

  lemma StoredTasksStay(stored: TaskTable, runtime: RuntimeTable, now: string)
    requires WellKeyed(stored)
    ensures Saved(stored, runtime, TasksInOrder(stored), now).tasks == stored
  {
    hide WellKeyed, TasksInOrder, TasksById, Unchanged, KeptIds, DistinctTaskIds;
    var ts := TasksInOrder(stored);
    forall i | 0 <= i < |ts| ensures Unchanged(stored, ts[i]) { InOrderAt(stored, i); }
    StoredIsNormal(stored);
    UnchangedTasksSkipped(stored, SaveStart(stored, runtime, ts), ts, now);
  }

  /** The coordinator's save of a registry it has just loaded, with whatever events. */
  function FreshlySaved(db: Db, events: seq<EventRecord>, loadedAt: string, now: string): Db
    requires Exclusive(db.locks)
  {
    Apply(db, Save(Snapshot(LoadedRegistry(db, loadedAt), events, LoadedCursor(db)), now))
  }

  lemma SavedTasksAndLocks(before: Db, snapshot: Snapshot, now: string)
    requires JobsOf(snapshot.registry.tasks, now).Some?
    ensures var after, reg := Apply(before, Save(snapshot, now)), snapshot.registry;
            && after.tasks == Saved(before.tasks, before.runtime, reg.tasks, now).tasks
            && after.locks == SavedLocks(reg.resourceLocks, now)
  {
    hide JobsOf, Saved, SavedLocks, InsertAll, SnapshotRows, SavedCursors, Migrated;
  }

  lemma FreshSave(db: Db, events: seq<EventRecord>, loadedAt: string, now: string)
    requires Consistent(db) && Truthful(db)
    ensures FreshlySaved(db, events, loadedAt, now).tasks == db.tasks
    ensures FreshlySaved(db, events, loadedAt, now).locks
         == SavedLocks(if FallsBack(db) then db.registryMeta.value.resourceLocks else LockPayloads(db.locks), now)
  {
    hide JobsOf, Saved, SavedLocks, LockPayloads, TasksInOrder, WellKeyed, Exclusive, DistinctIds, LoadedRegistry,
         LoadedCursor, Truthful, Apply, AskedTwice, FallsBack;
    LoadedLocks(db, loadedAt);
    StoredIsNormal(db.tasks);
    DistinctIdsSave(TasksInOrder(db.tasks), now);
    JobsOfIff(TasksInOrder(db.tasks), now);
    StoredTasksStay(db.tasks, db.runtime, now);
    SavedTasksAndLocks(db, Snapshot(LoadedRegistry(db, loadedAt), events, LoadedCursor(db)), now);
  }

  /**
   A save of a fresh load keeps the lock table in agreement with the tasks if and
   only if every lock's payload parses and every claim has a name. When the table
   shows no lock the metadata's locks take over, and the agreement is theirs.
   */
  lemma FreshSaveKeepsLocksIff(db: Db, events: seq<EventRecord>, loadedAt: string, now: string)
    requires Consistent(db) && Truthful(db) && LocksAgree(db.tasks, db.locks)
    ensures var after := FreshlySaved(db, events, loadedAt, now);
            LocksAgree(after.tasks, after.locks) <==> LocksComeBack(db, now)
  {
    hide SavedLocks, LockPayloads, LocksAgree, FreshlySaved, FallsBack, WellKeyed, Tells, DistinctIds, Saveable,
         Exclusive;
    FreshSave(db, events, loadedAt, now);
    if forall key | key in db.locks :: Saveable(key, db.locks[key]) {
      SaveableLocksAgree(db.tasks, db.locks, now);
    } else {
      var key :| key in db.locks && !Saveable(key, db.locks[key]);
      SavedRow(db.locks, key, now);
      LockIsNeeded(db.tasks, db.locks, SavedLocks(LockPayloads(db.locks), now), key);
    }
  }

  /** The snapshot is what a load of the store returned, but for its events. */
  ghost predicate IsFresh(db: Db, snapshot: Snapshot)
  {
    && Exclusive(db.locks) && snapshot.cursor == LoadedCursor(db)
    && exists at :: snapshot.registry == LoadedRegistry(db, at)
  }

  /** Every save of the run is of a fresh load. */
  ghost predicate SavesFreshLoads(db: Db, ops: seq<Op>)
    decreases |ops|
  {
    ops == [] ||
    ((ops[0].Save? ==> IsFresh(db, ops[0].snapshot)) && SavesFreshLoads(Apply(db, ops[0]), ops[1..]))
  }

  /** Every save of the run finds the locks it can bring back. */
  ghost predicate SavesBringLocksBack(db: Db, ops: seq<Op>)
    decreases |ops|
  {
    ops == [] ||
    (&& (ops[0].Save? ==> Exclusive(db.locks) && LocksComeBack(db, ops[0].now))
     && SavesBringLocksBack(Apply(db, ops[0]), ops[1..]))
  }

  /** Tasks and locks agree in every state of the run. */
  ghost predicate AgreesThroughout(db: Db, ops: seq<Op>)
    decreases |ops|
  {
    LocksAgree(db.tasks, db.locks) && (ops == [] || AgreesThroughout(Apply(db, ops[0]), ops[1..]))
  }

  lemma FreshOpKeepsLocksIff(db: Db, op: Op)
    requires Consistent(db) && Truthful(db) && LocksAgree(db.tasks, db.locks)
    requires op.Save? ==> IsFresh(db, op.snapshot)
    ensures LocksAgree(Apply(db, op).tasks, Apply(db, op).locks) <==> (op.Save? ==> LocksComeBack(db, op.now))
  {
    hide LocksAgree, LocksComeBack, Truthful, Apply, LoadedRegistry, LoadedCursor, WellKeyed, Exclusive, DistinctIds;
    if op.Save? {
      var at :| op.snapshot.registry == LoadedRegistry(db, at);
      FreshSaveKeepsLocksIff(db, op.snapshot.events, at, op.now);
      assert op == Save(Snapshot(LoadedRegistry(db, at), op.snapshot.events, LoadedCursor(db)), op.now);
    } else {
      ApplyKeepsLocks(db, op);
    }
  }

  /**
   In a run that saves only what it has just loaded, tasks and locks agree all the
   way if and only if every save finds locks it can bring back.
   */
  lemma {:induction false} LocksAgreeThroughoutIff(db: Db, ops: seq<Op>)
    requires Consistent(db) && Truthful(db) && LocksAgree(db.tasks, db.locks) && SavesFreshLoads(db, ops)
    ensures AgreesThroughout(db, ops) <==> SavesBringLocksBack(db, ops)
    decreases |ops|
  {
    hide LocksAgree, LocksComeBack, Truthful, Apply, IsFresh, DistinctIds, Exclusive, WellKeyed;
    if ops != [] {
      ApplyKeepsConsistent(db, ops[0]);
      ApplyKeepsTruth(db, ops[0]);
      FreshOpKeepsLocksIff(db, ops[0]);
      var after := Apply(db, ops[0]);
      if LocksAgree(after.tasks, after.locks) { LocksAgreeThroughoutIff(after, ops[1..]); }
    }
  }

  /** After a recomputation that is so exactly when every holder has a worktree path and a claim with a name. */
  lemma RecomputedIsSaveableIff(tasks: TaskTable, now: string)
    ensures (forall key | key in LocksOf(tasks, now) :: Saveable(key, LocksOf(tasks, now)[key])) <==>
            forall r | Holder(tasks, r).Some? ::
              var t := tasks[Holder(tasks, r).value].payload; HoldingOf(t).worktreePath != "" && ClaimKey(t) != ""
  {
    var locks := LocksOf(tasks, now);
    forall r | Holder(tasks, r).Some?
      ensures var t := tasks[Holder(tasks, r).value].payload;
              && LockKey(r, ClaimKey(t)) in locks
              && (Saveable(LockKey(r, ClaimKey(t)), locks[LockKey(r, ClaimKey(t))]) <==>
                  HoldingOf(t).worktreePath != "" && ClaimKey(t) != "")
    {
      LockedNames(tasks, r);
    }
    forall key | key in locks
      ensures Holder(tasks, key.resource).Some?
      ensures key.claimId == ClaimKey(tasks[Holder(tasks, key.resource).value].payload) {}
    hide LocksOf, Holder, HoldingOf, ClaimKey, Saveable;
  }

  lemma NoLocksFallBack(db: Db)
    requires Exclusive(db.locks) && db.locks == map[]
    requires db.registryMeta.Some? && db.registryMeta.value.resourceLocks != map[]
    ensures FallsBack(db)
  {
    assert LockPayloads(db.locks) == map[];
  }

  /** When all locks have been released, a save of a fresh load brings back those of the last saved metadata. */
  lemma ReleasedLocksComeBack(db: Db, events: seq<EventRecord>, loadedAt: string, now: string)
    requires Consistent(db) && Truthful(db) && LocksAgree(db.tasks, db.locks) && db.locks == map[]
    requires db.registryMeta.Some? && db.registryMeta.value.resourceLocks != map[]
    ensures var after := FreshlySaved(db, events, loadedAt, now);
            after.locks != map[] && !LocksAgree(after.tasks, after.locks)
  {
    hide SavedLocks, LockPayloads, LocksAgree, FreshlySaved, FallsBack, Exclusive, WellKeyed, DistinctIds, Tells;
    var locks := db.registryMeta.value.resourceLocks;
    NoLocksFallBack(db);
    FreshSave(db, events, loadedAt, now);
    var r :| r in locks;
    OneKeyEach(locks, now, SavedLockKey(r, locks[r]));
    ExtraLockDisagrees(db.tasks, SavedLocks(locks, now), SavedLockKey(r, locks[r]));
  }

  /** Where no lock is due, any lock disagrees. */
  lemma ExtraLockDisagrees(tasks: TaskTable, after: LockTable, key: LockKey)
    requires LocksAgree(tasks, map[]) && key in after
    ensures !LocksAgree(tasks, after)
  {
    hide Holder, HoldingOf, ClaimKey;
  }

  // ---- repeated export and import, whole ---------------------------------------

  lemma ReadyVersion(db: Db)
    ensures SchemaReady(db).version >= SQLITE_SCHEMA_VERSION
    ensures db.version >= SQLITE_SCHEMA_VERSION ==> SchemaReady(db) == db
  {
  }

  /** What a load finds after the save of a snapshot of which `stored` tasks were stored. */
  function Settled(snapshot: Snapshot, stored: TaskTable, log: seq<EventRow>, loadedAt: string): Snapshot
  {
    Snapshot(NormalForm(snapshot.registry.(tasks := TasksInOrder(stored)), loadedAt), Records(Ascending(log)),
        snapshot.cursor)
  }

  /** What an import leaves, and what a load then finds. */
  lemma ImportedStore(db: Db, snapshot: Snapshot, savedAt: string, loadedAt: string)
    requires Consistent(db) && JobsOf(snapshot.registry.tasks, savedAt).Some?
    ensures var after := SavedDb(SchemaReady(db), snapshot, savedAt);
            && SavedInto(db, Ok(snapshot), savedAt) == (after, Ok(Done))
            && Consistent(after) && SchemaReady(after) == after
            && LoadedSnapshot(after, loadedAt) == Settled(snapshot, after.tasks, after.events, loadedAt)
  {
    hide JobsOf, LoadedRegistry, LoadedCursor, NormalForm, SchemaReady, SavedDb, Consistent, Ascending, Records,
         TasksInOrder;
    var ready := SchemaReady(db);
    SchemaKeepsConsistent(db);
    ReadyVersion(db);
    SavedParts(ready, snapshot, savedAt);
    LoadedIsStored(ready, snapshot, savedAt, loadedAt);
    ReadyVersion(SavedDb(ready, snapshot, savedAt));
  }

  lemma FirstImport(db: Db, snapshot: Snapshot, savedAt: string)
    requires Consistent(db) && JobsOf(snapshot.registry.tasks, savedAt).Some?
    ensures var first := SavedDb(db, snapshot, savedAt);
            && WellKeyed(first.tasks) && OwnsRuntime(Tables(first.tasks, first.runtime))
            && first.locks == SavedLocks(snapshot.registry.resourceLocks, savedAt)
            && first.cursors == SavedCursors(snapshot.cursor)
            && AreJobsOf(first.jobs, snapshot.registry.tasks, savedAt)
            && (forall id | id in first.tasks :: first.tasks[id].payload in snapshot.registry.tasks)
            && (DistinctTaskIds(snapshot.registry.tasks) ==> KeepsJobs(snapshot.registry.tasks, first.tasks))
  {
    hide JobsOf, Saved, SavedLocks, InsertAll, SavedCursors, OwnsRuntime, KeptIds, DistinctTaskIds, AreJobsOf,
         WellKeyed, Exclusive, DistinctIds, KeepsJobs;
    var ts := snapshot.registry.tasks;
    SavedParts(db, snapshot, savedAt);
    SavedOwnsRuntime(db.tasks, db.runtime, ts, savedAt);
    JobsOfIff(ts, savedAt);
    SavedKeys(db.tasks, db.runtime, ts, savedAt);
    forall id | id in KeptIds(ts) ensures Saved(db.tasks, db.runtime, ts, savedAt).tasks[id].payload in ts {
      StoredIsOfSnapshot(db.tasks, db.runtime, ts, savedAt, id);
    }
    if DistinctTaskIds(ts) { DistinctIdsKeepJobs(db.tasks, db.runtime, ts, savedAt); }
  }

  lemma SameFilesIff(registry: TaskRegistry, cursor: Option<CoordinatorCursor>, log: seq<EventRow>,
      again: seq<EventRow>)
    requires log <= again
    ensures JsonSaved(Snapshot(registry, Records(Ascending(again)), cursor))
        == JsonSaved(Snapshot(registry, Records(Ascending(log)), cursor))
       <==> again == log
  {
    assert |Ascending(again)| == |multiset(Ascending(again))| == |multiset(again)| == |again|;
    assert |Ascending(log)| == |multiset(Ascending(log))| == |multiset(log)| == |log|;
    assert |PrintedLines(Records(Ascending(again)))| == |again| && |PrintedLines(Records(Ascending(log)))| == |log|;
    hide Ascending;
  }

  lemma SettledAgain(snapshot: Snapshot, stored: TaskTable, log: seq<EventRow>, events: seq<EventRow>, at: string,
      last: string)
    requires WellKeyed(stored)
    ensures var loaded := Settled(snapshot, stored, log, at);
            && loaded.registry.tasks == TasksInOrder(stored)
            && loaded.registry.resourceLocks == snapshot.registry.resourceLocks
            && Settled(loaded, stored, events, last) == loaded.(events := Records(Ascending(events)))
  {
    hide TasksInOrder, TasksById, Records, Ascending, KeptIds, DistinctTaskIds, WellKeyed;
    StoredIsNormal(stored);
    NormalFormTwice(snapshot.registry.(tasks := TasksInOrder(stored)), at, last);
  }

  /**
   After an import that succeeds and an export, importing and exporting again
   succeeds and leaves tasks, runtime rows and cursors as they were, the locks
   but for their times of writing, and the registry and cursor files; the
   metadata becomes what the registry file says. The jobs become those of the
   stored tasks: the same, if and only if no repeated id has lost one. The log
   becomes its own load saved again, and it and the event file stay if and only
   if every name that gives is known.
   */
  lemma TransferIsStable(
      db: Db, json: JsonSide, importedAt: string, exportedAt: string, againAt: string, lastAt: string)
    requires Consistent(db) && Imported(Project(json, db), importedAt).1.Ok?
    ensures var first := Imported(Project(json, db), importedAt).0;
            Consistent(first.db) &&
            var exported := Exported(first, exportedAt);
            var (second, again) := Imported(exported, againAt);
            Consistent(second.db) &&
            var last := Exported(second, lastAt);
            var ts := JsonLoaded(json, importedAt).value.registry.tasks;
            && again.Ok? && SameStore(first.db, second.db) && last.db == second.db
            && exported.json.registry.Holds?
            && second.db.registryMeta == Some(exported.json.registry.value.(tasks := []))
            && last.json.registry == exported.json.registry && last.json.cursor == exported.json.cursor
            && AreJobsOf(second.db.jobs, TasksInOrder(first.db.tasks), againAt)
            && (SameJobs(first.db.jobs, second.db.jobs) <==> KeepsJobs(ts, first.db.tasks))
            && (DistinctTaskIds(ts) ==> KeepsJobs(ts, first.db.tasks))
            && second.db.events == Resaved(first.db.events)
            && (second.db.events == first.db.events <==> NamesKnown(first.db.events))
            && (last.json == exported.json <==> NamesKnown(first.db.events))
  {
    var snapshot := JsonLoaded(json, importedAt).value;
    var ready := SchemaReady(db);
    assert JobsOf(snapshot.registry.tasks, importedAt).Some?;
    hide JsonLoaded, JsonSaved, SavedDb, LoadedSnapshot, NormalForm, Consistent, Ascending, Records, NamesKnown,
         WellKeyed, SameStore, SavedInto, JobsOf, DistinctTaskIds, TasksById, TasksInOrder, Resaved, KeepsJobs,
         SameJobs, AreJobsOf, OwnsRuntime, SchemaReady, Settled, SavedLocks, SavedCursors, InsertAll, SnapshotRows;
    SchemaKeepsConsistent(db);
    ImportedStore(db, snapshot, importedAt, exportedAt);
    FirstImport(ready, snapshot, importedAt);
    var first := SavedDb(ready, snapshot, importedAt);
    var loaded := Settled(snapshot, first.tasks, first.events, exportedAt);
    SettledParts(snapshot, first.tasks, first.events, exportedAt);
    SettledAgain(snapshot, first.tasks, first.events, first.events, exportedAt, lastAt);
    JsonRoundTrip(loaded, againAt);
    SavedAgain(first, loaded, importedAt, againAt);
    var second := SavedDb(first, loaded, againAt);
    SameTasks(first, second);
    ImportedStore(first, loaded, againAt, lastAt);
    SettledAgain(snapshot, first.tasks, first.events, second.events, exportedAt, lastAt);
    SameJobsIff(snapshot.registry.tasks, first.tasks, first.jobs, second.jobs, importedAt, againAt);
    ResavedAs(first.events, second.events);
    SameFilesIff(loaded.registry, loaded.cursor, first.events, second.events);
    PrintedParts(loaded);
    PrintedParts(loaded.(events := Records(Ascending(second.events))));
  }

  lemma SettledParts(snapshot: Snapshot, stored: TaskTable, log: seq<EventRow>, at: string)
    ensures var loaded := Settled(snapshot, stored, log, at);
            loaded.events == Records(Ascending(log)) && loaded.cursor == snapshot.cursor
  {
  }

  lemma SameTasks(a: Db, b: Db)
    requires SameStore(a, b)
    ensures b.tasks == a.tasks
  {
  }

  lemma ResavedAs(log: seq<EventRow>, again: seq<EventRow>)
    requires again == InsertAll(log, SnapshotRows(Records(Ascending(log))))
    ensures log <= again && again == Resaved(log) && (again == log <==> NamesKnown(log))
  {
    ResavedIsStableIff(log);
  }

  lemma PrintedParts(snapshot: Snapshot)
    ensures JsonSaved(snapshot).registry == Holds(snapshot.registry)
    ensures JsonSaved(snapshot).cursor == (if snapshot.cursor.Some? then Holds(snapshot.cursor.value) else Missing)
  {
  }

  // ---- events without ids ----------------------------------------------------

  /** A log after `n` more saves of its own load. */
  function ResavedTimes(log: seq<EventRow>, n: nat): seq<EventRow>
  {
    if n == 0 then log else Resaved(ResavedTimes(log, n - 1))
  }

  function EventName(k: nat): string { "event-" + Decimal(k) }

  /** The row of an unnamed event saved under the name of the `k`-th position. */
  function Copy(unnamed: EventRecord, k: nat): EventRow
    requires k > 0
  {
    SnapshotRow(unnamed, k - 1)
  }

  /** The first copy, the named event, and the copies that came after. */
  function Copies(named: EventRow, unnamed: EventRecord, k: nat): seq<EventRow>
    requires k > 0
  {
    if k == 1 then [Copy(unnamed, 1), named] else Copies(named, unnamed, k - 1) + [Copy(unnamed, k)]
  }

  /** An unnamed event with a place of its own in the order, behind a named one. */
  ghost predicate Pushed(named: EventRecord, unnamed: EventRecord)
  {
    && unnamed.eventId == "" && named.eventId != "" && (forall k :: named.eventId != EventName(k))
    && named.seqNo != 0 && unnamed.seqNo != 0 && named.seqNo < unnamed.seqNo
  }

  lemma CopyIs(unnamed: EventRecord, k: nat)
    requires k > 0 && unnamed.eventId == "" && unnamed.seqNo != 0
    ensures var row := Copy(unnamed, k);
            row.eventId == EventName(k) && row.seqNo == unnamed.seqNo && row.record == unnamed
  {
  }

  lemma NamesDiffer(j: nat, k: nat)
    ensures EventName(j) == EventName(k) ==> j == k
  {
    assert EventName(j)[6..] == Decimal(j) && EventName(k)[6..] == Decimal(k);
    DecimalIsInjective(j, k);
  }

  /** What is in such a log: every row is the named one or a copy. */
  lemma {:induction false} CopiesRows(named: EventRow, unnamed: EventRecord, k: nat)
    requires k > 0
    ensures |Copies(named, unnamed, k)| == k + 1
    ensures forall r | r in Copies(named, unnamed, k) :: r == named || exists j | 0 < j <= k :: r == Copy(unnamed, j)
    ensures named in Copies(named, unnamed, k)
    ensures forall j | 0 < j <= k :: Copy(unnamed, j) in Copies(named, unnamed, k)
  {
    hide Copy;
    if k > 1 {
      CopiesRows(named, unnamed, k - 1);
    } else {
      assert Copies(named, unnamed, 1)[0] == Copy(unnamed, 1) && Copies(named, unnamed, 1)[1] == named;
    }
  }

  lemma {:induction false} NamedOnce(named: EventRow, unnamed: EventRecord, k: nat)
    requires k > 0 && forall j | 0 < j <= k :: Copy(unnamed, j) != named
    ensures multiset(Copies(named, unnamed, k))[named] == 1
  {
    hide Copy;
    if k > 1 { NamedOnce(named, unnamed, k - 1); }
  }

  /** In order the named event comes first, and every other row tells the unnamed one. */
  lemma CopiesInOrder(first: EventRecord, unnamed: EventRecord, k: nat)
    requires k > 0 && Pushed(first, unnamed)
    ensures var sorted := Ascending(Copies(SnapshotRow(first, 1), unnamed, k));
            && |sorted| == k + 1 && sorted[0] == SnapshotRow(first, 1)
            && forall i | 0 < i < |sorted| :: sorted[i].record == unnamed
  {
    var named := SnapshotRow(first, 1);
    var log := Copies(named, unnamed, k);
    var sorted := Ascending(log);
    assert named.seqNo == first.seqNo;
    forall j | 0 < j <= k ensures Copy(unnamed, j).seqNo > named.seqNo && Copy(unnamed, j).record == unnamed {
      CopyIs(unnamed, j);
    }
    CopiesRows(named, unnamed, k);
    NamedOnce(named, unnamed, k);
    AscendingSorted(log);
    hide Copies, Copy, Pushed, SnapshotRow, Ascending;
    assert |sorted| == |multiset(sorted)| == |multiset(log)| == |log|;
    forall i | 0 <= i < |sorted| ensures sorted[i] in log { assert sorted[i] in multiset(sorted); }
    FirstIsLeast(sorted, named);
  }

  /** A row that comes once, before all others, comes first. */
  lemma FirstIsLeast(sorted: seq<EventRow>, least: EventRow)
    requires OldestFirst(sorted) && multiset(sorted)[least] == 1
    requires forall i | 0 <= i < |sorted| && sorted[i] != least :: least.seqNo < sorted[i].seqNo
    ensures sorted != [] && sorted[0] == least && forall i | 0 < i < |sorted| :: sorted[i] != least
  {
    assert least in multiset(sorted);
    var m :| 0 <= m < |sorted| && sorted[m] == least;
    assert sorted == [sorted[0]] + sorted[1..];
    forall i | 0 < i < |sorted| ensures sorted[i] != least {
      assert sorted[i] in sorted[1..];
    }
  }

  lemma CopiesHaveId(first: EventRecord, unnamed: EventRecord, k: nat, j: nat)
    requires k > 0 && Pushed(first, unnamed)
    ensures HasId(Copies(SnapshotRow(first, 1), unnamed, k), EventName(j)) <==> 0 < j <= k
    ensures HasId(Copies(SnapshotRow(first, 1), unnamed, k), first.eventId)
  {
    var named := SnapshotRow(first, 1);
    var log := Copies(named, unnamed, k);
    assert named.eventId == first.eventId;
    CopiesRows(named, unnamed, k);
    hide Copies, Copy, EventName;
    MemberHasId(log, named);
    if 0 < j <= k {
      CopyIs(unnamed, j);
      MemberHasId(log, Copy(unnamed, j));
    }
    if HasId(log, EventName(j)) {
      var i :| 0 <= i < |log| && log[i].eventId == EventName(j);
      assert log[i] in log;
      assert log[i] != named;
      var m :| 0 < m <= k && log[i] == Copy(unnamed, m);
      CopyIs(unnamed, m);
      NamesDiffer(m, j);
    }
  }

  /** The rows such a save offers: the named one, and copies under the names from the second position on. */
  lemma CopiesOffered(first: EventRecord, unnamed: EventRecord, k: nat)
    requires k > 0 && Pushed(first, unnamed)
    ensures var rows := SnapshotRows(Records(Ascending(Copies(SnapshotRow(first, 1), unnamed, k))));
            && |rows| == k + 1 && rows[0].eventId == first.eventId
            && forall i | 0 < i <= k :: rows[i] == Copy(unnamed, i + 1)
  {
    CopiesInOrder(first, unnamed, k);
    RowName(first, 0);
    RowName(first, 1);
    hide SnapshotRow, Ascending, Copies, NameAt;
  }

  lemma OfferedIsKnown(first: EventRecord, unnamed: EventRecord, k: nat, rows: seq<EventRow>, i: nat)
    requires i < k && Pushed(first, unnamed) && |rows| == k + 1 && rows[0].eventId == first.eventId
    requires forall j | 0 < j <= k :: rows[j] == Copy(unnamed, j + 1)
    ensures HasId(Copies(SnapshotRow(first, 1), unnamed, k), rows[i].eventId)
  {
    if i > 0 { CopyIs(unnamed, i + 1); }
    hide HasId, Copies, Copy, SnapshotRow, EventName;
    CopiesHaveId(first, unnamed, k, i + 1);
  }

  lemma LastIsNew(first: EventRecord, unnamed: EventRecord, k: nat)
    requires k > 0 && Pushed(first, unnamed)
    ensures !HasId(Copies(SnapshotRow(first, 1), unnamed, k), Copy(unnamed, k + 1).eventId)
  {
    CopyIs(unnamed, k + 1);
    hide HasId, Copies, Copy, SnapshotRow, EventName;
    CopiesHaveId(first, unnamed, k, k + 1);
  }

  /** A save of its own load adds one more copy. */
  lemma OneCopyMore(first: EventRecord, unnamed: EventRecord, k: nat)
    requires k > 0 && Pushed(first, unnamed)
    ensures var named := SnapshotRow(first, 1);
            Resaved(Copies(named, unnamed, k)) == Copies(named, unnamed, k + 1)
  {
    hide HasId, SnapshotRow, Ascending, Records, SnapshotRows, Copy, Pushed;
    var log := Copies(SnapshotRow(first, 1), unnamed, k);
    var rows := SnapshotRows(Records(Ascending(log)));
    CopiesOffered(first, unnamed, k);
    forall i | 0 <= i < k ensures HasId(log, rows[i].eventId) { OfferedIsKnown(first, unnamed, k, rows, i); }
    LastIsNew(first, unnamed, k);
    KnownRowsIgnored(log, rows[..k]);
    assert rows[k] == Copy(unnamed, k + 1);
  }

  lemma {:induction false} ResavedCopies(named: EventRecord, unnamed: EventRecord, n: nat)
    requires Pushed(named, unnamed)
    ensures ResavedTimes(InsertAll([], SnapshotRows([unnamed, named])), n)
        == Copies(SnapshotRow(named, 1), unnamed, n + 1)
  {
    hide Copies, Pushed, Resaved, SnapshotRow, SnapshotRows, InsertAll;
    if n == 0 {
      TwoRows(named, unnamed);
    } else {
      ResavedCopies(named, unnamed, n - 1);
      OneCopyMore(named, unnamed, n);
    }
  }

  /**
   An event without an id but with a place of its own behind a named one never
   comes to rest: however often the log is saved from its own load, the next
   save adds one more copy.
   */
  lemma UnnamedEventGrows(named: EventRecord, unnamed: EventRecord, n: nat)
    requires Pushed(named, unnamed)
    ensures var log := ResavedTimes(InsertAll([], SnapshotRows([unnamed, named])), n);
            |log| == n + 2 && !NamesKnown(log)
  {
    hide Copies, Pushed, Resaved, ResavedTimes, NamesKnown, SnapshotRow, SnapshotRows, InsertAll, Copy;
    ResavedCopies(named, unnamed, n);
    CopiesRows(SnapshotRow(named, 1), unnamed, n + 1);
    CopiesRows(SnapshotRow(named, 1), unnamed, n + 2);
    OneCopyMore(named, unnamed, n + 1);
    ResavedIsStableIff(Copies(SnapshotRow(named, 1), unnamed, n + 1));
  }

  lemma TwoRows(named: EventRecord, unnamed: EventRecord)
    requires Pushed(named, unnamed)
    ensures InsertAll([], SnapshotRows([unnamed, named])) == Copies(SnapshotRow(named, 1), unnamed, 1)
  {
    var first, second := SnapshotRow(unnamed, 0), SnapshotRow(named, 1);
    assert SnapshotRows([unnamed, named]) == [first, second];
    CopyIs(unnamed, 1);
    assert second.eventId == named.eventId != first.eventId;
    hide SnapshotRow, SnapshotRows;
    InsertTwo([], first, second, [first, second]);
    assert [first][0] == first && [] + [first] == [first] && [first] + [second] == [first, second];
  }

  /**
   With no place of its own it takes the place of its position as well as the
   name, and where it then comes first it stays: one more row, once.
   */
  lemma UnnamedEventSettles(named: EventRecord, unnamed: EventRecord)
    requires named.eventId !in {"", "event-1", "event-2"} && named.seqNo > 2
    requires unnamed.eventId == "" && unnamed.seqNo == 0
    ensures var log := InsertAll([], SnapshotRows([named, unnamed]));
            |log| == 2 && |Resaved(log)| == 3 && Resaved(Resaved(log)) == Resaved(log)
  {
    var first, second := SnapshotRow(named, 0), SnapshotRow(unnamed, 1);
    var again, last := SnapshotRow(unnamed, 0), SnapshotRow(named, 1);
    UnnamedRows(unnamed);
    assert SnapshotRows([named, unnamed]) == [first, second];
    assert Records([second, first]) == [unnamed, named];
    assert SnapshotRows([unnamed, named]) == [again, last];
    assert first.eventId == last.eventId == named.eventId && first.seqNo == named.seqNo;
    hide SnapshotRow, SnapshotRows, Records, InsertAll, Ascending;
    TwoAreInserted(first, second);
    SortTwo(first, second);
    ThirdIsInserted(first, second, again, last);
    ThreeAreKnown(first, second, again, named, unnamed);
    ResavedIsStableIff([first, second, again]);
  }

  lemma RowName(event: EventRecord, idx: nat)
    ensures SnapshotRow(event, idx).record == event && SnapshotRow(event, idx).eventId == NameAt(event, idx)
    ensures event.eventId != "" ==> NameAt(event, idx) == event.eventId
  {
  }

  lemma ThreeAreKnown(first: EventRow, second: EventRow, again: EventRow, named: EventRecord, unnamed: EventRecord)
    requires first == SnapshotRow(named, 0) && second == SnapshotRow(unnamed, 1) && again == SnapshotRow(unnamed, 0)
    requires again.seqNo < second.seqNo < first.seqNo && named.eventId != ""
    ensures NamesKnown([first, second, again])
  {
    hide Ascending, SnapshotRow, NameAt;
    var log := [first, second, again];
    SortThree(first, second, again);
    RowName(named, 0);
    RowName(named, 2);
    RowName(unnamed, 0);
    RowName(unnamed, 1);
    assert log[0] == first && log[1] == second && log[2] == again;
  }

  lemma TwoAreInserted(first: EventRow, second: EventRow)
    requires first.eventId != second.eventId
    ensures InsertAll([], [first, second]) == [first, second]
  {
    InsertTwo([], first, second, [first, second]);
    InsertHasId([], first, second.eventId);
    hide HasId;
    assert !HasId([], first.eventId) && !HasId([], second.eventId) by { NoIds(first.eventId); NoIds(second.eventId); }
    assert [] + [first] == [first] && [first] + [second] == [first, second];
  }

  lemma NoIds(id: string)
    ensures !HasId([], id)
  {
  }

  lemma ThirdIsInserted(first: EventRow, second: EventRow, again: EventRow, last: EventRow)
    requires last.eventId == first.eventId && again.eventId !in {first.eventId, second.eventId}
    ensures InsertAll([first, second], [again, last]) == [first, second, again]
  {
    var log := [first, second];
    assert log[0] == first && log[1] == second;
    assert !HasId(log, again.eventId);
    MemberHasId([first, second, again], first) by { assert [first, second, again][0] == first; }
    hide HasId;
    InsertTwo(log, again, last, [again, last]);
    assert log + [again] == [first, second, again];
  }

  lemma UnnamedRows(unnamed: EventRecord)
    requires unnamed.eventId == "" && unnamed.seqNo == 0
    ensures var second, again := SnapshotRow(unnamed, 1), SnapshotRow(unnamed, 0);
            && second.seqNo == 2 && again.seqNo == 1 && second.eventId == "event-2" && again.eventId == "event-1"
            && "event-1" != "event-2"
  {
    assert Decimal(1) == "1" && Decimal(2) == "2";
    assert "event-1"[6] != "event-2"[6];
  }

  lemma SortTwo(late: EventRow, early: EventRow)
    requires early.seqNo < late.seqNo
    ensures Ascending([late, early]) == [early, late]
  {
    assert [late, early][1..] == [early] && [early][1..] == [];
    assert Ascending([early]) == Place(early, Ascending([])) == [early];
    assert Ascending([late, early]) == Place(late, [early]);
    assert Place(late, []) == [late];
  }

  lemma SortThree(late: EventRow, middle: EventRow, early: EventRow)
    requires early.seqNo < middle.seqNo < late.seqNo
    ensures Ascending([late, middle, early]) == [early, middle, late]
  {
    SortTwo(middle, early);
    assert [late, middle, early][1..] == [middle, early];
    assert Ascending([late, middle, early]) == Place(late, [early, middle]);
    assert [early, middle][1..] == [middle] && [middle][1..] == [];
    assert Place(late, [middle]) == [middle] + Place(late, []);
  }

  lemma InsertTwo(log: seq<EventRow>, a: EventRow, b: EventRow, rows: seq<EventRow>)
    requires rows == [a, b]
    ensures InsertAll(log, rows) == Insert(Insert(log, a), b)
  {
    hide Insert;
    assert rows[..1] == [a] && [a][..0] == [];
    assert InsertAll(log, [a]) == Insert(InsertAll(log, []), a);
  }
}

/**
 What holds over every run of the coordinator store: any sequence of appends,
 task mutations, cursor moves, schema upgrades and saves, a save being free to
 store any snapshot, however old the load it was built from.
 */
module StoreRuns {
  import opened Wrappers
  import opened Text
  import opened Tasks
  import opened EventLog
  import opened TaskTables
  import opened CoordinatorStore

  /** Operations that leave the task tables alone. */
  datatype LogOp =
    | AppendEvent(event: EventRecord, stamp: Stamp)
    | SetCursor(name: string, offset: nat, lastId: string, now: string)
    | MoveStream(stream: string, lastEventId: string)
    | Read

  datatype Op =
    | Log(log: LogOp)
    | Mutate(mutation: Mutation, carried: Option<EventMutation>, stamp: Stamp)
    | Save(snapshot: Snapshot, now: string)

  function ApplyLog(db: Db, op: LogOp): (after: Db)
    ensures after == db.(events := after.events, streams := after.streams, cursors := after.cursors)
  {
    match op
    case AppendEvent(event, stamp) => Appended(db, RecordRow(event, stamp))
    case SetCursor(name, offset, lastId, now) => CursorSet(db, name, offset, lastId, now)
    case MoveStream(stream, lastEventId) => db.(streams := db.streams[stream := Some(lastEventId)])
    case Read => db
  }

  function ApplyMutation(db: Db, m: Mutation, carried: Option<EventMutation>, stamp: Stamp): Db
  {
    if m.TaskId() in db.tasks then Mutated(db, m, carried, stamp) else db
  }

  function ApplySave(db: Db, snapshot: Snapshot, now: string): Db
  {
    if JobsOf(snapshot.registry.tasks, now).Some? then SavedDb(db, snapshot, now) else db
  }

  /** One operation; the schema is set up first, and an operation that fails changes nothing else. */
  function Apply(before: Db, op: Op): Db
  {
    var db := SchemaReady(before);
    match op
    case Log(log) => ApplyLog(db, log)
    case Mutate(m, carried, stamp) => ApplyMutation(db, m, carried, stamp)
    case Save(snapshot, now) => ApplySave(db, snapshot, now)
  }

  function Run(db: Db, ops: seq<Op>): Db
    decreases |ops|
  {
    if ops == [] then db else Run(Apply(db, ops[0]), ops[1..])
  }

  lemma {:induction false} RunSplits(db: Db, ops: seq<Op>, n: nat)
    requires n <= |ops|
    ensures Run(db, ops) == Run(Run(db, ops[..n]), ops[n..])
    decreases |ops|
  {
    if n > 0 {
      RunSplits(Apply(db, ops[0]), ops[1..], n - 1);
      assert ops[..n][1..] == ops[1..][..n - 1] && ops[n..] == ops[1..][n - 1..];
    } else {
      assert ops[..n] == [] && ops[n..] == ops;
    }
  }

  // ---- the tables stay consistent ----------------------------------------

  lemma {:induction false} SaveKeepsKeys(stored: TaskTable, start: Tables, ts: seq<Task>, now: string)
    requires WellKeyed(start.tasks)
    ensures WellKeyed(SaveTasks(stored, start, ts, now).tasks)
  {
    if ts != [] { SaveKeepsKeys(stored, start, ts[..|ts| - 1], now); }
  }

  lemma {:induction false} InsertAllKeepsRows(log: seq<EventRow>, rows: seq<EventRow>)
    ensures DistinctIds(log) ==> DistinctIds(InsertAll(log, rows))
    ensures log <= InsertAll(log, rows)
  {
    if rows != [] { InsertAllKeepsRows(log, rows[..|rows| - 1]); }
  }

  lemma AppendKeepsIds(log: seq<EventRow>, row: EventRow, targets: set<string>)
    requires DistinctIds(log)
    ensures DistinctIds(Append(log, row, targets))
  {
    if !HasId(log, row.eventId) {
      PrunedRows(log, row, targets);
      SubsequenceMembers(Pruned(log, row, targets), log);
      SubsequenceIds(Pruned(log, row, targets), log, row.eventId);
    }
  }

  lemma SavedLocksExclusive(locks: map<string, ResourceLock>, now: string)
    ensures Exclusive(SavedLocks(locks, now))
  {
  }

  lemma SchemaKeepsConsistent(db: Db)
    requires Consistent(db)
    ensures Consistent(SchemaReady(db))
  {
    MigratedRows(db.events, Targets(db));
    SubsequenceMembers(Migrated(db.events, Targets(db)), db.events);
  }

  lemma ChangedKeepsKey(t: Task, m: Mutation)
    ensures m.Changed(t).id == t.id && ClaimKey(m.Changed(t)) == ClaimKey(t)
  {
  }

  lemma LogKeepsConsistent(db: Db, op: LogOp)
    requires Consistent(db)
    ensures Consistent(ApplyLog(db, op))
  {
    if op.AppendEvent? { AppendKeepsIds(db.events, RecordRow(op.event, op.stamp), Targets(db)); }
  }

  lemma MutationKeepsConsistent(db: Db, m: Mutation, carried: Option<EventMutation>, stamp: Stamp)
    requires Consistent(db)
    ensures Consistent(ApplyMutation(db, m, carried, stamp))
  {
    if m.TaskId() in db.tasks {
      var t := m.Changed(db.tasks[m.TaskId()].payload);
      ChangedKeepsKey(db.tasks[m.TaskId()].payload, m);
      assert WellKeyed(db.tasks[m.TaskId() := TaskRowOf(t, m.Now())]);
      RecomputedLocksAgree(db.tasks[m.TaskId() := TaskRowOf(t, m.Now())], m.Now());
      if carried.Some? { AppendKeepsIds(db.events, MutationRow(carried.value, stamp), Targets(db)); }
    }
  }

  lemma SaveKeepsConsistent(db: Db, snapshot: Snapshot, now: string)
    requires Consistent(db)
    ensures Consistent(ApplySave(db, snapshot, now))
  {
    SaveKeepsKeys(db.tasks, SaveStart(db.tasks, db.runtime, snapshot.registry.tasks), snapshot.registry.tasks, now);
    SavedLocksExclusive(snapshot.registry.resourceLocks, now);
    InsertAllKeepsRows(db.events, SnapshotRows(snapshot.events));
  }

  lemma ApplyKeepsConsistent(before: Db, op: Op)
    requires Consistent(before)
    ensures Consistent(Apply(before, op))
  {
    SchemaKeepsConsistent(before);
    match op
    case Log(log) => LogKeepsConsistent(SchemaReady(before), log);
    case Mutate(m, carried, stamp) => MutationKeepsConsistent(SchemaReady(before), m, carried, stamp);
    case Save(snapshot, now) => SaveKeepsConsistent(SchemaReady(before), snapshot, now);
  }

  /** Task rows under their own ids, one lock per resource, one row per event id: in every reachable state. */
  lemma {:induction false} RunKeepsConsistent(db: Db, ops: seq<Op>)
    requires Consistent(db)
    ensures Consistent(Run(db, ops))
    decreases |ops|
  {
    if ops != [] {
      ApplyKeepsConsistent(db, ops[0]);
      RunKeepsConsistent(Apply(db, ops[0]), ops[1..]);
    }
  }

  // ---- task_runtime ------------------------------------------------------

  /** A save whose tasks can each have a row of their own. */
  predicate SeparatesTasks(op: Op)
  {
    op.Save? ==> DistinctTaskIds(op.snapshot.registry.tasks) && DistinctClaimKeys(op.snapshot.registry.tasks)
  }

  /** `task_runtime` mirrors the tasks. */
  ghost predicate Mirrors(runtime: RuntimeTable, tasks: TaskTable) { WellKeyed(tasks) && RuntimeAgrees(tasks, runtime) }

  lemma MutationTables(db: Db, m: Mutation, carried: Option<EventMutation>, stamp: Stamp)
    requires m.TaskId() in db.tasks
    ensures var task := m.Changed(db.tasks[m.TaskId()].payload);
            var after := ApplyMutation(db, m, carried, stamp);
            && after.tasks == db.tasks[m.TaskId() := TaskRowOf(task, m.Now())]
            && after.runtime == Upserted(db.runtime, task, m.Now())
  {
  }

  lemma MutationKeepsMirror(db: Db, m: Mutation, carried: Option<EventMutation>, stamp: Stamp)
    requires Mirrors(db.runtime, db.tasks)
    ensures var after := ApplyMutation(db, m, carried, stamp); Mirrors(after.runtime, after.tasks)
  {
    if m.TaskId() in db.tasks {
      var t := db.tasks[m.TaskId()].payload;
      ChangedKeepsKey(t, m);
      MutationTables(db, m, carried, stamp);
      MutationKeepsAgreement(db.tasks, db.runtime, m.Changed(t), m.Now());
    }
  }

  lemma SaveKeepsMirror(db: Db, snapshot: Snapshot, now: string)
    requires Mirrors(db.runtime, db.tasks)
    requires DistinctTaskIds(snapshot.registry.tasks) && DistinctClaimKeys(snapshot.registry.tasks)
    ensures var after := ApplySave(db, snapshot, now); Mirrors(after.runtime, after.tasks)
  {
    SaveKeepsKeys(db.tasks, SaveStart(db.tasks, db.runtime, snapshot.registry.tasks), snapshot.registry.tasks, now);
    SaveAgreesIffClaimsDistinct(db.tasks, db.runtime, snapshot.registry.tasks, now);
  }

  lemma ApplyKeepsMirror(before: Db, op: Op)
    requires Mirrors(before.runtime, before.tasks) && SeparatesTasks(op)
    ensures Mirrors(Apply(before, op).runtime, Apply(before, op).tasks)
  {
    hide Mirrors, ApplyLog, ApplyMutation, ApplySave, Migrated;
    var db := SchemaReady(before);
    assert db.runtime == before.runtime && db.tasks == before.tasks;
    match op
    case Log(log) => assert Apply(before, op).runtime == db.runtime && Apply(before, op).tasks == db.tasks;
    case Mutate(m, carried, stamp) => MutationKeepsMirror(db, m, carried, stamp);
    case Save(snapshot, now) => SaveKeepsMirror(db, snapshot, now);
  }

  /**
   `task_runtime` mirrors the tasks in every state of every run whose saves
   store tasks with distinct ids and distinct claims.
   */
  lemma {:induction false} RunKeepsRuntime(db: Db, ops: seq<Op>)
    requires Mirrors(db.runtime, db.tasks) && forall i | 0 <= i < |ops| :: SeparatesTasks(ops[i])
    ensures Mirrors(Run(db, ops).runtime, Run(db, ops).tasks)
    decreases |ops|
  {
    if ops != [] {
      ApplyKeepsMirror(db, ops[0]);
      RunKeepsRuntime(Apply(db, ops[0]), ops[1..]);
    }
  }

  /** An empty database is a mirror to start from. */
  lemma RuntimeFromEmpty(ops: seq<Op>)
    requires forall i | 0 <= i < |ops| :: SeparatesTasks(ops[i])
    ensures Mirrors(Run(EMPTY_DB, ops).runtime, Run(EMPTY_DB, ops).tasks)
  {
    hide Run, RuntimeRowOf, TaskRowOf, ClaimKey;
    assert EMPTY_DB.tasks == map[] && EMPTY_DB.runtime == map[];
    RunKeepsRuntime(EMPTY_DB, ops);
  }

  /** The mirror read from a task's side: one row, filed under its claim, showing its current payload. */
  lemma OneRowPerTask(db: Db, id: string)
    requires Mirrors(db.runtime, db.tasks) && id in db.tasks
    ensures var t := db.tasks[id].payload;
            && ClaimKey(t) in db.runtime
            && db.runtime[ClaimKey(t)] == RuntimeRowOf(t, db.runtime[ClaimKey(t)].updatedAt)
            && forall k | k in db.runtime :: db.runtime[k].taskId == id <==> k == ClaimKey(t)
  {
  }

  // ---- the time column of tasks ------------------------------------------

  lemma MutationCarriesTimes(db: Db, m: Mutation, carried: Option<EventMutation>, stamp: Stamp)
    requires TimesCarried(db.tasks)
    ensures TimesCarried(ApplyMutation(db, m, carried, stamp).tasks)
  {
    if m.TaskId() in db.tasks {
      MutationTables(db, m, carried, stamp);
      ChangedTakesTime(db.tasks[m.TaskId()].payload, m);
      hide ApplyMutation, Upserted;
    }
  }

  lemma ApplyCarriesTimes(before: Db, op: Op)
    requires TimesCarried(before.tasks)
    ensures TimesCarried(Apply(before, op).tasks)
  {
    var db := SchemaReady(before);
    assert db.tasks == before.tasks;
    hide TimesCarried, ApplyMutation, SaveTasks, ApplyLog, SchemaReady, JobsOf;
    match op
    case Log(log) => assert Apply(before, op).tasks == db.tasks;
    case Mutate(m, carried, stamp) => MutationCarriesTimes(db, m, carried, stamp);
    case Save(snapshot, now) =>
      var ts := snapshot.registry.tasks;
      assert TimesCarried(SaveStart(db.tasks, db.runtime, ts).tasks) by { KeptCarryTimes(db.tasks, db.runtime, ts); }
      SaveCarriesTimes(db.tasks, SaveStart(db.tasks, db.runtime, ts), ts, now);
  }

  lemma KeptCarryTimes(stored: TaskTable, runtime: RuntimeTable, ts: seq<Task>)
    requires TimesCarried(stored)
    ensures TimesCarried(SaveStart(stored, runtime, ts).tasks)
  {
  }

  lemma ChangedTakesTime(t: Task, m: Mutation)
    ensures m.Changed(t).updatedAt == Some(m.Now())
  {
  }

  /** In every reachable state the row of a task that has a time carries that time. */
  lemma {:induction false} RunCarriesTimes(db: Db, ops: seq<Op>)
    requires TimesCarried(db.tasks)
    ensures TimesCarried(Run(db, ops).tasks)
    decreases |ops|
  {
    if ops != [] {
      ApplyCarriesTimes(db, ops[0]);
      RunCarriesTimes(Apply(db, ops[0]), ops[1..]);
    }
  }

  /** So in every reachable state a save of tasks that have distinct ids and times of their own is a full rewrite. */
  lemma TimedSaveIsRewrite(ops: seq<Op>, snapshot: Snapshot, now: string)
    requires DistinctTaskIds(snapshot.registry.tasks)
    requires forall i | 0 <= i < |snapshot.registry.tasks| :: snapshot.registry.tasks[i].updatedAt.Some?
    ensures var db := Run(EMPTY_DB, ops);
            ApplySave(db, snapshot, now).tasks
            == if JobsOf(snapshot.registry.tasks, now).Some? then Rewritten(snapshot.registry.tasks, now) else db.tasks
  {
    var db, ts := Run(EMPTY_DB, ops), snapshot.registry.tasks;
    RunKeepsConsistent(EMPTY_DB, ops);
    RunCarriesTimes(EMPTY_DB, ops);
    hide Run, Saved, Rewritten, Unchanged, KeepsTime;
    forall i | 0 <= i < |ts| && ts[i].id != "" && Unchanged(db.tasks, ts[i]) ensures KeepsTime(db.tasks, ts[i], now) {
      TimedTasksKeepTime(db.tasks, ts, i, now);
    }
    DistinctIdsRewriteIff(db.tasks, db.runtime, ts, now);
  }

  // ---- resource_locks ----------------------------------------------------

  lemma TransitionSetsLocks(db: Db, m: Mutation, carried: Option<EventMutation>, stamp: Stamp)
    requires WellKeyed(db.tasks) && m.Transition? && m.TaskId() in db.tasks
    ensures var after := ApplyMutation(db, m, carried, stamp); LocksAgree(after.tasks, after.locks)
  {
    var t := db.tasks[m.TaskId()].payload;
    ChangedKeepsKey(t, m);
    assert WellKeyed(db.tasks[m.TaskId() := TaskRowOf(m.Changed(t), m.Now())]);
    RecomputedLocksAgree(db.tasks[m.TaskId() := TaskRowOf(m.Changed(t), m.Now())], m.Now());
  }

  lemma MutationKeepsLocking(db: Db, m: Mutation, carried: Option<EventMutation>, stamp: Stamp)
    requires WellKeyed(db.tasks) && LocksAgree(db.tasks, db.locks)
    ensures var after := ApplyMutation(db, m, carried, stamp); LocksAgree(after.tasks, after.locks)
  {
    if m.TaskId() in db.tasks {
      var t := db.tasks[m.TaskId()].payload;
      ChangedKeepsKey(t, m);
      if m.Transition? {
        TransitionSetsLocks(db, m, carried, stamp);
      } else {
        assert SameLocking(m.Changed(t), t);
        MutationKeepsLocks(db.tasks, db.locks, m.Changed(t), m.Now());
      }
    }
  }

  lemma ApplyKeepsLocks(before: Db, op: Op)
    requires WellKeyed(before.tasks) && LocksAgree(before.tasks, before.locks) && !op.Save?
    ensures LocksAgree(Apply(before, op).tasks, Apply(before, op).locks)
  {
    if op.Mutate? { MutationKeepsLocking(SchemaReady(before), op.mutation, op.carried, op.stamp); }
  }

  lemma {:induction false} RunKeepsLocks(db: Db, ops: seq<Op>)
    requires Consistent(db) && LocksAgree(db.tasks, db.locks)
    requires forall i | 0 <= i < |ops| :: !ops[i].Save?
    ensures LocksAgree(Run(db, ops).tasks, Run(db, ops).locks)
    decreases |ops|
  {
    if ops != [] {
      ApplyKeepsConsistent(db, ops[0]);
      ApplyKeepsLocks(db, ops[0]);
      RunKeepsLocks(Apply(db, ops[0]), ops[1..]);
    }
  }

  /** Agreement read from a resource's side. */
  lemma HeldByHolderOnly(db: Db, r: string)
    requires WellKeyed(db.tasks) && LocksAgree(db.tasks, db.locks)
    ensures (exists claim :: LockKey(r, claim) in db.locks) <==> Holder(db.tasks, r).Some?
    ensures forall key | key in db.locks && key.resource == r ::
              && Holder(db.tasks, r) == Some(db.locks[key].taskId)
              && key.claimId == ClaimKey(db.tasks[db.locks[key].taskId].payload)
  {
    AgreeingLocksAreExclusive(db.tasks, db.locks);
  }

  /**
   Once a transition has gone through, and until the next save, every resource
   is held by the first active task that lists it, and by nobody else.
   */
  lemma LocksAfterTransition(db: Db, ops: seq<Op>, n: nat)
    requires Consistent(db) && n < |ops|
    requires ops[n].Mutate? && ops[n].mutation.Transition? && ops[n].mutation.TaskId() in Run(db, ops[..n]).tasks
    requires forall i | n < i < |ops| :: !ops[i].Save?
    ensures LocksAgree(Run(db, ops).tasks, Run(db, ops).locks)
  {
    hide ApplyMutation, LocksAgree, Migrated;
    var before := Run(db, ops[..n]);
    RunKeepsConsistent(db, ops[..n]);
    RunSplits(db, ops, n);
    assert ops[n..][0] == ops[n] && ops[n..][1..] == ops[n + 1..];
    SchemaKeepsConsistent(before);
    TransitionSetsLocks(SchemaReady(before), ops[n].mutation, ops[n].carried, ops[n].stamp);
    ApplyKeepsConsistent(before, ops[n]);
    RunKeepsLocks(Apply(before, ops[n]), ops[n + 1..]);
  }

  // ---- what lock rows and metadata say ------------------------------------

  /** A lock row and the lock in its payload say the same; only a lock without a worktree path has no payload. */
  predicate Tells(key: LockKey, row: LockRow)
  {
    match row.payload
    case None => row.worktreePath == ""
    case Some(lock) =>
      && lock.taskId == row.taskId && lock.worktreePath == row.worktreePath && lock.expiresAt == row.expiresAt
      && (key.claimId == lock.claimId || (lock.claimId == "" && key.claimId == "unclaimed-" + lock.taskId))
  }

  /** Every lock row does, and the metadata keeps no tasks. */
  predicate Truthful(db: Db)
  {
    && (forall key | key in db.locks :: Tells(key, db.locks[key]))
    && (db.registryMeta.Some? ==> db.registryMeta.value.tasks == [])
  }

  lemma RecomputedLocksTell(tasks: TaskTable, now: string)
    ensures forall key | key in LocksOf(tasks, now) :: Tells(key, LocksOf(tasks, now)[key])
  {
    hide ClaimKey;
    forall key | key in LocksOf(tasks, now) ensures Tells(key, LocksOf(tasks, now)[key]) {
      var r :| r in LockedResourceNames(tasks) && Holder(tasks, r).Some?
               && key == LockKey(r, ClaimKey(tasks[Holder(tasks, r).value].payload));
    }
  }

  lemma SavedLocksTell(locks: map<string, ResourceLock>, now: string)
    ensures forall key | key in SavedLocks(locks, now) :: Tells(key, SavedLocks(locks, now)[key])
  {
  }

  lemma LogKeepsTruth(db: Db, log: LogOp)
    requires Truthful(db)
    ensures Truthful(ApplyLog(db, log))
  {
    hide Tells, Append, CursorSet;
  }

  lemma MutationKeepsTruth(db: Db, m: Mutation, carried: Option<EventMutation>, stamp: Stamp)
    requires Truthful(db)
    ensures Truthful(ApplyMutation(db, m, carried, stamp))
  {
    hide Tells, LocksOf, Upserted, MutationRow, Append, TaskRowOf;
    if m.TaskId() in db.tasks {
      RecomputedLocksTell(db.tasks[m.TaskId() := TaskRowOf(m.Changed(db.tasks[m.TaskId()].payload), m.Now())], m.Now());
    }
  }

  lemma SaveKeepsTruth(db: Db, snapshot: Snapshot, now: string)
    requires Truthful(db)
    ensures Truthful(ApplySave(db, snapshot, now))
  {
    hide Tells, SavedLocks, Saved, JobsOf, InsertAll, SnapshotRows, SavedCursors;
    SavedLocksTell(snapshot.registry.resourceLocks, now);
  }

  lemma ApplyKeepsTruth(before: Db, op: Op)
    requires Truthful(before)
    ensures Truthful(Apply(before, op))
  {
    hide Tells, ApplyLog, ApplyMutation, ApplySave, Migrated;
    var db := SchemaReady(before);
    match op
    case Log(log) => LogKeepsTruth(db, log);
    case Mutate(m, carried, stamp) => MutationKeepsTruth(db, m, carried, stamp);
    case Save(snapshot, now) => SaveKeepsTruth(db, snapshot, now);
  }

  /** In every reachable state lock rows say what their payloads say. */
  lemma {:induction false} RunKeepsTruth(db: Db, ops: seq<Op>)
    requires Truthful(db)
    ensures Truthful(Run(db, ops))
    decreases |ops|
  {
    hide Truthful, Apply;
    if ops != [] {
      ApplyKeepsTruth(db, ops[0]);
      RunKeepsTruth(Apply(db, ops[0]), ops[1..]);
    }
  }

  // ---- events ------------------------------------------------------------

  /** Rows an operation offers to the event table. */
  function OfferedBy(before: Db, op: Op): seq<EventRow>
  {
    match op
    case Log(log) => if log.AppendEvent? then [RecordRow(log.event, log.stamp)] else []
    case Mutate(m, carried, stamp) =>
      if m.TaskId() in before.tasks && EventOf(m, carried).Some? then [MutationRow(carried.value, stamp)] else []
    case Save(snapshot, now) => if JobsOf(snapshot.registry.tasks, now).Some? then SnapshotRows(snapshot.events) else []
  }

  /** The event table of the next state: migrated if the schema was old, then pruned appends or plain inserts. */
  lemma EventsAfter(before: Db, op: Op)
    ensures var db := SchemaReady(before);
            Apply(before, op).events == if op.Save? then InsertAll(db.events, OfferedBy(before, op))
                                        else AppendAll(db.events, OfferedBy(before, op), Targets(db))
  {
    hide ApplyLog, ApplyMutation, ApplySave, RecordRow, MutationRow, SnapshotRows, JobsOf, InsertAll, AppendAll,
         Migrated;
    var db := SchemaReady(before);
    match op
    case Log(log) => assert Apply(before, op) == ApplyLog(db, log); LogEvents(db, log);
    case Mutate(m, carried, stamp) =>
      assert Apply(before, op) == ApplyMutation(db, m, carried, stamp);
      MutationEvents(db, m, carried, stamp);
    case Save(snapshot, now) => assert Apply(before, op) == ApplySave(db, snapshot, now); SaveEvents(db, snapshot, now);
  }

  lemma AppendOne(log: seq<EventRow>, row: EventRow, targets: set<string>)
    ensures AppendAll(log, [row], targets) == Append(log, row, targets)
    ensures AppendAll(log, [], targets) == log && InsertAll(log, []) == log
  {
    assert [row][..0] == [];
  }

  lemma LogEvents(db: Db, log: LogOp)
    ensures ApplyLog(db, log).events
         == if log.AppendEvent? then AppendAll(db.events, [RecordRow(log.event, log.stamp)], Targets(db)) else db.events
    ensures AppendAll(db.events, [], Targets(db)) == db.events
  {
    if log.AppendEvent? { AppendOne(db.events, RecordRow(log.event, log.stamp), Targets(db)); }
  }

  lemma MutationEvents(db: Db, m: Mutation, carried: Option<EventMutation>, stamp: Stamp)
    ensures ApplyMutation(db, m, carried, stamp).events
         == if m.TaskId() in db.tasks && EventOf(m, carried).Some?
            then AppendAll(db.events, [MutationRow(carried.value, stamp)], Targets(db)) else db.events
    ensures AppendAll(db.events, [], Targets(db)) == db.events
  {
    if carried.Some? { AppendOne(db.events, MutationRow(carried.value, stamp), Targets(db)); }
  }

  lemma SaveEvents(db: Db, snapshot: Snapshot, now: string)
    ensures ApplySave(db, snapshot, now).events
         == InsertAll(db.events, if JobsOf(snapshot.registry.tasks, now).Some? then SnapshotRows(snapshot.events)
             else [])
  {
  }

  /** A save without events, as after `load_snapshot_without_events`, leaves the event log as it is. */
  lemma SaveWithoutEventsKeepsLog(before: Db, snapshot: Snapshot, now: string)
    requires snapshot.events == []
    ensures Apply(before, Save(snapshot, now)).events == SchemaReady(before).events
  {
    hide Apply, SchemaReady;
    EventsAfter(before, Save(snapshot, now));
    assert SnapshotRows([]) == [];
  }

  /** A row that pruning may delete: a heartbeat no replay cursor points at. */
  predicate Disposable(db: Db, row: EventRow) { IsHeartbeat(row) && row.eventId !in Targets(db) }

  lemma {:induction false} AppendAllKeepsRow(log: seq<EventRow>, rows: seq<EventRow>, targets: set<string>,
      row: EventRow)
    requires row in log && (!IsHeartbeat(row) || row.eventId in targets)
    ensures row in AppendAll(log, rows, targets)
  {
    if rows != [] {
      var before, e := AppendAll(log, rows[..|rows| - 1], targets), rows[|rows| - 1];
      AppendAllKeepsRow(log, rows[..|rows| - 1], targets, row);
      PrunedRows(before, e, targets);
      if IsHeartbeat(e) && SameGroup(row, e) { assert row in Pruned(before, e, targets); }
    }
  }

  /** No operation deletes a row that is not disposable. */
  lemma ApplyKeepsEvents(before: Db, op: Op, row: EventRow)
    requires row in before.events && !Disposable(before, row)
    ensures row in Apply(before, op).events
  {
    var db := SchemaReady(before);
    MigratedKeepsEvents(before.events, Targets(before));
    EventsAfter(before, op);
    if op.Save? {
      InsertAllKeepsRows(db.events, OfferedBy(before, op));
    } else {
      AppendAllKeepsRow(db.events, OfferedBy(before, op), Targets(db), row);
    }
  }

  /** Whatever is done to the store, an event that is not a heartbeat is never lost. */
  lemma {:induction false} RunKeepsEvents(db: Db, ops: seq<Op>, row: EventRow)
    requires row in db.events && !IsHeartbeat(row)
    ensures row in Run(db, ops).events
    decreases |ops|
  {
    if ops != [] {
      ApplyKeepsEvents(db, ops[0], row);
      RunKeepsEvents(Apply(db, ops[0]), ops[1..], row);
    }
  }

  /** A replay cursor points at the event in every state before an operation. */
  predicate StaysPinned(db: Db, ops: seq<Op>, id: string)
    decreases |ops|
  {
    ops == [] || (id in Targets(db) && StaysPinned(Apply(db, ops[0]), ops[1..], id))
  }

  /** A heartbeat, too, is there for as long as a cursor points at it. */
  lemma {:induction false} RunKeepsCursorTargets(db: Db, ops: seq<Op>, row: EventRow)
    requires row in db.events && StaysPinned(db, ops, row.eventId)
    ensures row in Run(db, ops).events
    decreases |ops|
  {
    if ops != [] {
      ApplyKeepsEvents(db, ops[0], row);
      RunKeepsCursorTargets(Apply(db, ops[0]), ops[1..], row);
    }
  }

  /** Moving a cursor that has a row pins the event but leaves the cursor that loads return as it was. */
  lemma MovedCursorLoadsStale(db: Db, offset: nat, lastId: string, now: string)
    ensures lastId in Targets(CursorSet(db, "coordinator", offset, lastId, now))
    ensures var after := LoadedCursor(CursorSet(db, "coordinator", offset, lastId, now));
            if "coordinator" in db.cursors then after == LoadedCursor(db)
            else after.Some? && after.value.offset == offset && after.value.lastEventId.GetOr("") == lastId
  {
    var after := CursorSet(db, "coordinator", offset, lastId, now);
    assert "coordinator" in after.cursors && after.cursors["coordinator"].lastEventId == Some(lastId);
  }

  /** A task that has reported its result under a claim has reported it for good. */
  lemma TerminalResultIsPermanent(db: Db, ops: seq<Op>, taskId: string, claimId: string)
    requires HasTerminalResult(db.events, taskId, claimId)
    ensures HasTerminalResult(Run(db, ops).events, taskId, claimId)
  {
    var i :| 0 <= i < |db.events| && db.events[i].taskId == Some(taskId) && db.events[i].eventType == "phase_result"
             && db.events[i].record.claimId == Some(claimId);
    assert "phase_result"[0] != "heartbeat"[0] && "phase_result"[0] != "coordinator_heartbeat"[0];
    RunKeepsEvents(db, ops, db.events[i]);
    var after := Run(db, ops).events;
    var j :| 0 <= j < |after| && after[j] == db.events[i];
  }

  lemma {:induction false} AppendAllRowsFrom(log: seq<EventRow>, rows: seq<EventRow>, targets: set<string>)
    ensures forall r | r in AppendAll(log, rows, targets) :: r in log || r in rows
  {
    if rows != [] {
      var front, last := rows[..|rows| - 1], rows[|rows| - 1];
      AppendAllRowsFrom(log, front, targets);
      PrunedRows(AppendAll(log, front, targets), last, targets);
    }
  }

  lemma CarriedNamesNoClaim(db: Db, m: Mutation, carried: Option<EventMutation>, stamp: Stamp)
    ensures forall r | r in OfferedBy(db, Mutate(m, carried, stamp)) :: r.record.claimId.None?
  {
    if carried.Some? { MutationRowSays(carried.value, stamp); }
    hide MutationRow;
  }

  lemma MutationAddsNoClaim(db: Db, m: Mutation, carried: Option<EventMutation>, stamp: Stamp, row: EventRow)
    requires row in Apply(db, Mutate(m, carried, stamp)).events && row.record.claimId.Some?
    ensures row in db.events
  {
    var op := Mutate(m, carried, stamp);
    MigratedRows(db.events, Targets(db));
    SubsequenceMembers(Migrated(db.events, Targets(db)), db.events);
    hide Apply, OfferedBy, Migrated, AppendAll, Targets, Subsequence;
    EventsAfter(db, op);
    AppendAllRowsFrom(SchemaReady(db).events, OfferedBy(db, op), Targets(SchemaReady(db)));
    CarriedNamesNoClaim(db, m, carried, stamp);
  }

  lemma OneOp(db: Db, op: Op)
    ensures Run(db, [op]) == Apply(db, op)
  {
    hide Apply;
    assert [op][1..] == [];
  }

  /** A mutation reports no result: the event it carries names no claim. */
  lemma MutationReportsNothing(
      db: Db, m: Mutation, carried: Option<EventMutation>, stamp: Stamp, taskId: string, claimId: string)
    ensures HasTerminalResult(Apply(db, Mutate(m, carried, stamp)).events, taskId, claimId)
       <==> HasTerminalResult(db.events, taskId, claimId)
  {
    hide Apply, Run;
    var op := Mutate(m, carried, stamp);
    var after := Apply(db, op);
    OneOp(db, op);
    if HasTerminalResult(db.events, taskId, claimId) { TerminalResultIsPermanent(db, [op], taskId, claimId); }
    if HasTerminalResult(after.events, taskId, claimId) {
      var i :| 0 <= i < |after.events| && after.events[i].taskId == Some(taskId)
               && after.events[i].eventType == "phase_result" && after.events[i].record.claimId == Some(claimId);
      MutationAddsNoClaim(db, m, carried, stamp, after.events[i]);
      var k :| 0 <= k < |db.events| && db.events[k] == after.events[i];
    }
  }

  /** The row of a group that outlives pruning. */
  predicate HasGroup(log: seq<EventRow>, row: EventRow) { exists i | 0 <= i < |log| :: SameGroup(log[i], row) }

  lemma {:induction false} MigratedKeepsGroups(log: seq<EventRow>, targets: set<string>, row: EventRow)
    requires HasGroup(log, row)
    ensures HasGroup(Migrated(log, targets), row)
  {
    var i :| 0 <= i < |log| && SameGroup(log[i], row);
    var rest := log[1..];
    var head := if Superseded(log[0], rest) && log[0].eventId !in targets then [] else [log[0]];
    var all := head + Migrated(rest, targets);
    assert i > 0 ==> rest[i - 1] == log[i];
    if exists j | 0 <= j < |rest| :: SameGroup(rest[j], row) {
      MigratedKeepsGroups(rest, targets, row);
      var k :| 0 <= k < |Migrated(rest, targets)| && SameGroup(Migrated(rest, targets)[k], row);
      assert all[|head| + k] == Migrated(rest, targets)[k];
    } else {
      assert all[0] == log[0];
    }
  }

  lemma {:induction false} AppendAllKeepsGroups(log: seq<EventRow>, rows: seq<EventRow>, targets: set<string>,
      row: EventRow)
    requires HasGroup(log, row)
    ensures HasGroup(AppendAll(log, rows, targets), row)
  {
    if rows != [] {
      var before, e := AppendAll(log, rows[..|rows| - 1], targets), rows[|rows| - 1];
      AppendAllKeepsGroups(log, rows[..|rows| - 1], targets, row);
      var i :| 0 <= i < |before| && SameGroup(before[i], row);
      var after := Append(before, e, targets);
      if !HasId(before, e.eventId) {
        if IsHeartbeat(e) && !SameGroup(before[i], e) {
          PrunedRows(before, e, targets);
          assert before[i] in Pruned(before, e, targets);
          var k :| 0 <= k < |Pruned(before, e, targets)| && Pruned(before, e, targets)[k] == before[i];
          assert after[k] == before[i];
        } else if IsHeartbeat(e) {
          assert after[|after| - 1] == e;
        } else {
          assert after[i] == before[i];
        }
      }
    }
  }

  lemma LongerKeepsGroups(log: seq<EventRow>, longer: seq<EventRow>, row: EventRow)
    requires HasGroup(log, row) && log <= longer
    ensures HasGroup(longer, row)
  {
    var i :| 0 <= i < |log| && SameGroup(log[i], row);
    assert longer[i] == log[i];
  }

  lemma ApplyKeepsGroups(db: Db, op: Op, row: EventRow)
    requires HasGroup(db.events, row)
    ensures HasGroup(Apply(db, op).events, row)
  {
    var ready := SchemaReady(db);
    MigratedKeepsGroups(db.events, Targets(db), row);
    hide Apply, OfferedBy, Targets, Migrated, HasGroup, InsertAll, AppendAll;
    EventsAfter(db, op);
    if op.Save? {
      InsertAllKeepsRows(ready.events, OfferedBy(db, op));
      LongerKeepsGroups(ready.events, InsertAll(ready.events, OfferedBy(db, op)), row);
    } else {
      AppendAllKeepsGroups(ready.events, OfferedBy(db, op), Targets(ready), row);
    }
  }

  /** Pruning never silences a task: each task and type that ever had a row keeps one. */
  lemma {:induction false} RunKeepsGroups(db: Db, ops: seq<Op>, row: EventRow)
    requires HasGroup(db.events, row)
    ensures HasGroup(Run(db, ops).events, row)
    decreases |ops|
  {
    if ops != [] {
      ApplyKeepsGroups(db, ops[0], row);
      RunKeepsGroups(Apply(db, ops[0]), ops[1..], row);
    }
  }

  // ---- readers that skip heartbeats --------------------------------------

  /** Everything ever offered, ids kept apart but nothing pruned. */
  function History(db: Db, kept: seq<EventRow>, ops: seq<Op>): seq<EventRow>
    decreases |ops|
  {
    if ops == [] then kept else History(Apply(db, ops[0]), InsertAll(kept, OfferedBy(db, ops[0])), ops[1..])
  }

  /** A row the query looks for, refused by the history, that the log takes because pruning has freed its id. */
  predicate Reuses(log: seq<EventRow>, history: seq<EventRow>, row: EventRow, query: EventQuery)
  {
    Matches(row, query) && HasId(history, row.eventId) && !HasId(log, row.eventId)
  }

  /** Some row of `rows`, inserted one after the other, is such a row. */
  predicate RowsReuse(log: seq<EventRow>, history: seq<EventRow>, rows: seq<EventRow>, query: EventQuery)
  {
    rows != [] &&
    var front, last := rows[..|rows| - 1], rows[|rows| - 1];
    RowsReuse(log, history, front, query) || Reuses(InsertAll(log, front), InsertAll(history, front), last, query)
  }

  /** Some operation of the run offers such a row. */
  predicate RunReuses(db: Db, kept: seq<EventRow>, ops: seq<Op>, query: EventQuery)
    decreases |ops|
  {
    ops != [] &&
    var offered := OfferedBy(db, ops[0]);
    || RowsReuse(SchemaReady(db).events, kept, offered, query)
    || RunReuses(Apply(db, ops[0]), InsertAll(kept, offered), ops[1..], query)
  }

  /** The log knows no id that the history does not, and the history no event but heartbeats that the log does not. */
  ghost predicate Ahead(log: seq<EventRow>, history: seq<EventRow>)
  {
    && (forall id :: HasId(log, id) ==> HasId(history, id))
    && (forall r | r in history && !IsHeartbeat(r) :: r in log)
  }

  /** A row the query looks for is in the log, and its id has another row in the history. */
  predicate Differs(log: seq<EventRow>, history: seq<EventRow>, query: EventQuery)
  {
    exists r | r in log :: Matches(r, query) && r !in history && HasId(history, r.eventId)
  }

  /** To the query, the log is as the history until an id is reused, and different from then on. */
  ghost predicate Tracks(log: seq<EventRow>, history: seq<EventRow>, query: EventQuery, split: bool)
  {
    && Ahead(log, history)
    && (if split then Differs(log, history, query) else Selected(log, query) == Selected(history, query))
  }

  lemma SelectedSnoc(log: seq<EventRow>, row: EventRow, query: EventQuery)
    ensures Selected(log + [row], query) == Selected(log, query) + (if Matches(row, query) then [row] else [])
  {
    SelectedConcat(log, [row], query);
    assert [row][1..] == [];
  }

  lemma HasIdSnoc(log: seq<EventRow>, row: EventRow, id: string)
    ensures HasId(log + [row], id) <==> HasId(log, id) || row.eventId == id
  {
    var all := log + [row];
    assert all[|log|] == row && forall i | 0 <= i < |log| :: all[i] == log[i];
  }

  lemma InsertHasId(log: seq<EventRow>, row: EventRow, id: string)
    ensures HasId(Insert(log, row), id) <==> HasId(log, id) || row.eventId == id
  {
    HasIdSnoc(log, row, id);
  }

  lemma MemberHasId(log: seq<EventRow>, row: EventRow)
    requires row in log
    ensures HasId(log, row.eventId)
  {
  }

  lemma InsertKeepsAhead(log: seq<EventRow>, history: seq<EventRow>, row: EventRow)
    requires Ahead(log, history)
    ensures Ahead(Insert(log, row), Insert(history, row))
  {
    hide HasId;
    forall id ensures HasId(Insert(log, row), id) ==> HasId(Insert(history, row), id) {
      InsertHasId(log, row, id);
      InsertHasId(history, row, id);
    }
  }

  /** Without a reuse a row the query looks for is taken by both or by neither, and no other row is seen. */
  lemma InsertUnsplit(log: seq<EventRow>, history: seq<EventRow>, row: EventRow, query: EventQuery)
    requires Ahead(log, history) && Selected(log, query) == Selected(history, query)
        && !Reuses(log, history, row, query)
    ensures Selected(Insert(log, row), query) == Selected(Insert(history, row), query)
  {
    hide HasId, Matches;
    SelectedSnoc(log, row, query);
    SelectedSnoc(history, row, query);
  }

  /** Once different, different for good: the history never takes a row under that id. */
  lemma InsertStaysSplit(log: seq<EventRow>, history: seq<EventRow>, row: EventRow, query: EventQuery)
    requires Differs(log, history, query)
    ensures Differs(Insert(log, row), Insert(history, row), query)
  {
    hide HasId, Matches;
    var r :| r in log && Matches(r, query) && r !in history && HasId(history, r.eventId);
    InsertHasId(history, row, r.eventId);
    assert r in Insert(log, row) && r !in Insert(history, row);
  }

  lemma InsertSplits(log: seq<EventRow>, history: seq<EventRow>, row: EventRow, query: EventQuery)
    requires query.skipHeartbeats && Ahead(log, history) && Reuses(log, history, row, query)
    ensures Differs(Insert(log, row), Insert(history, row), query)
  {
    if row in history { MemberHasId(log, row); }
    assert row in Insert(log, row) && Insert(history, row) == history;
    hide HasId, Matches;
  }

  lemma InsertTracks(log: seq<EventRow>, history: seq<EventRow>, row: EventRow, query: EventQuery, split: bool)
    requires query.skipHeartbeats && Tracks(log, history, query, split)
    ensures Tracks(Insert(log, row), Insert(history, row), query, split || Reuses(log, history, row, query))
  {
    hide Ahead, Differs, Reuses, Insert;
    InsertKeepsAhead(log, history, row);
    if split {
      InsertStaysSplit(log, history, row, query);
    } else if Reuses(log, history, row, query) {
      InsertSplits(log, history, row, query);
    } else {
      InsertUnsplit(log, history, row, query);
    }
  }

  /** Deleting heartbeats from the log shows to no query that skips them. */
  lemma FewerTracks(log: seq<EventRow>, part: seq<EventRow>, history: seq<EventRow>, query: EventQuery, split: bool)
    requires query.skipHeartbeats && Tracks(log, history, query, split)
    requires (forall r | r in part :: r in log) && (forall r | r in log && !IsHeartbeat(r) :: r in part)
    requires Selected(part, query) == Selected(log, query)
    ensures Tracks(part, history, query, split)
  {
    forall id | HasId(part, id) ensures HasId(history, id) {
      var i :| 0 <= i < |part| && part[i].eventId == id;
      MemberHasId(log, part[i]);
    }
    hide HasId;
  }

  lemma MigratedTracks(log: seq<EventRow>, targets: set<string>, history: seq<EventRow>, query: EventQuery, split: bool)
    requires query.skipHeartbeats && Tracks(log, history, query, split)
    ensures Tracks(Migrated(log, targets), history, query, split)
  {
    hide Tracks;
    MigratedRows(log, targets);
    SubsequenceMembers(Migrated(log, targets), log);
    MigratedKeepsEvents(log, targets);
    MigratedUnseen(log, targets, query);
    FewerTracks(log, Migrated(log, targets), history, query, split);
  }

  lemma AppendTracks(
      log: seq<EventRow>, history: seq<EventRow>, row: EventRow, targets: set<string>, query: EventQuery, split: bool)
    requires query.skipHeartbeats && Tracks(log, history, query, split)
    ensures Tracks(Append(log, row, targets), Insert(history, row), query, split || Reuses(log, history, row, query))
  {
    InsertTracks(log, history, row, query, split);
    if !HasId(log, row.eventId) && IsHeartbeat(row) {
      var older, all := Pruned(log, row, targets), log + [row];
      hide Tracks, HasId, Reuses;
      PrunedKeepsEvents(log, row, targets);
      PrunedRows(log, row, targets);
      SubsequenceMembers(older, log);
      PrunedUnseen(log, row, targets, query);
      SelectedSnoc(older, row, query);
      SelectedSnoc(log, row, query);
      FewerTracks(all, older + [row], Insert(history, row), query, split || Reuses(log, history, row, query));
    }
  }

  lemma {:induction false} InsertAllTracks(
      log: seq<EventRow>, history: seq<EventRow>, rows: seq<EventRow>, query: EventQuery, split: bool)
    requires query.skipHeartbeats && Tracks(log, history, query, split)
    ensures Tracks(InsertAll(log, rows), InsertAll(history, rows), query, split || RowsReuse(log, history, rows, query))
  {
    hide Tracks, Insert, Reuses;
    if rows != [] {
      var front, last := rows[..|rows| - 1], rows[|rows| - 1];
      InsertAllTracks(log, history, front, query, split);
      InsertTracks(InsertAll(log, front), InsertAll(history, front), last, query, split
          || RowsReuse(log, history, front, query));
    }
  }

  lemma AppendAllTracks(
      log: seq<EventRow>, history: seq<EventRow>, rows: seq<EventRow>, targets: set<string>, query: EventQuery,
      split: bool)
    requires query.skipHeartbeats && Tracks(log, history, query, split) && |rows| <= 1
    ensures Tracks(AppendAll(log, rows, targets), InsertAll(history, rows), query, split
        || RowsReuse(log, history, rows, query))
  {
    hide Tracks, Append, Insert, Reuses;
    if rows != [] {
      assert rows[..0] == [] && rows[|rows| - 1] == rows[0];
      assert !RowsReuse(log, history, [], query);
      AppendTracks(log, history, rows[0], targets, query, split);
    }
  }

  lemma ApplyTracks(db: Db, kept: seq<EventRow>, op: Op, query: EventQuery, split: bool)
    requires query.skipHeartbeats && Tracks(db.events, kept, query, split)
    ensures var offered := OfferedBy(db, op);
            Tracks(Apply(db, op).events, InsertAll(kept, offered), query,
                   split || RowsReuse(SchemaReady(db).events, kept, offered, query))
  {
    var ready, offered := SchemaReady(db), OfferedBy(db, op);
    MigratedTracks(db.events, Targets(db), kept, query, split);
    assert !op.Save? ==> |offered| <= 1;
    hide Apply, Tracks, Migrated, OfferedBy, RowsReuse, Targets;
    EventsAfter(db, op);
    if op.Save? {
      InsertAllTracks(ready.events, kept, offered, query, split);
    } else {
      AppendAllTracks(ready.events, kept, offered, Targets(ready), query, split);
    }
  }

  lemma {:induction false} RunTracks(db: Db, kept: seq<EventRow>, ops: seq<Op>, query: EventQuery, split: bool)
    requires query.skipHeartbeats && Tracks(db.events, kept, query, split)
    ensures Tracks(Run(db, ops).events, History(db, kept, ops), query, split || RunReuses(db, kept, ops, query))
    decreases |ops|
  {
    hide Tracks, Apply, SchemaReady, OfferedBy, RowsReuse;
    if ops != [] {
      var offered := OfferedBy(db, ops[0]);
      var reuses := RowsReuse(SchemaReady(db).events, kept, offered, query);
      ApplyTracks(db, kept, ops[0], query, split);
      RunTracks(Apply(db, ops[0]), InsertAll(kept, offered), ops[1..], query, split || reuses);
    }
  }

  lemma {:induction false} PlaceNewestRows(row: EventRow, sorted: seq<EventRow>)
    ensures multiset(PlaceNewest(row, sorted)) == multiset(sorted) + multiset{row}
  {
    if sorted != [] {
      assert sorted == [sorted[0]] + sorted[1..];
      PlaceNewestRows(row, sorted[1..]);
    }
  }

  lemma {:induction false} DescendingRows(rows: seq<EventRow>)
    ensures multiset(Descending(rows)) == multiset(rows)
  {
    if rows != [] {
      assert rows == [rows[0]] + rows[1..];
      DescendingRows(rows[1..]);
      PlaceNewestRows(rows[0], Descending(rows[1..]));
    }
  }

  lemma ScansDiffer(log: seq<EventRow>, history: seq<EventRow>, query: EventQuery)
    requires Differs(log, history, query)
    ensures Scan(log, query) != Scan(history, query)
  {
    var r :| r in log && Matches(r, query) && r !in history;
    SelectedRows(log, query);
    SelectedRows(history, query);
    DescendingRows(Selected(log, query));
    DescendingRows(Selected(history, query));
    assert r in multiset(Selected(log, query)) && r !in multiset(Selected(history, query));
    assert r in multiset(Descending(Selected(log, query)));
  }

  /**
   A reader that skips heartbeats sees in the pruned log what it would see in
   everything ever offered, after any run of appends, mutations, cursor moves,
   upgrades and saves, if and only if no event it looks for came under the id of
   a heartbeat that pruning had deleted.
   */
  lemma PruningIsInvisibleIff(db: Db, ops: seq<Op>, query: EventQuery)
    requires query.skipHeartbeats
    ensures Scan(Run(db, ops).events, query) == Scan(History(db, db.events, ops), query)
       <==> !RunReuses(db, db.events, ops, query)
  {
    RunTracks(db, db.events, ops, query, false);
    hide Scan, Run, History, RunReuses, Selected;
    if RunReuses(db, db.events, ops, query) {
      ScansDiffer(Run(db, ops).events, History(db, db.events, ops), query);
    } else {
      SameScan(Run(db, ops).events, History(db, db.events, ops), query);
    }
  }

  lemma SameScan(log: seq<EventRow>, history: seq<EventRow>, query: EventQuery)
    requires Selected(log, query) == Selected(history, query)
    ensures Scan(log, query) == Scan(history, query)
  {
  }

  /** An event id tells whether its event is a heartbeat. */
  ghost predicate Faithful(rows: seq<EventRow>, beats: iset<string>)
  {
    forall i | 0 <= i < |rows| :: IsHeartbeat(rows[i]) <==> rows[i].eventId in beats
  }

  ghost predicate RunFaithful(db: Db, ops: seq<Op>, beats: iset<string>)
    decreases |ops|
  {
    ops == [] || (Faithful(OfferedBy(db, ops[0]), beats) && RunFaithful(Apply(db, ops[0]), ops[1..], beats))
  }

  lemma FaithfulRowReusesNothing(
      log: seq<EventRow>, history: seq<EventRow>, row: EventRow, query: EventQuery, beats: iset<string>)
    requires query.skipHeartbeats && Ahead(log, history) && Faithful(history, beats) && Faithful([row], beats)
    ensures !Reuses(log, history, row, query)
    ensures Faithful(Insert(history, row), beats)
  {
    assert IsHeartbeat([row][0]) <==> [row][0].eventId in beats;
    if Reuses(log, history, row, query) {
      var i :| 0 <= i < |history| && history[i].eventId == row.eventId;
      MemberHasId(log, history[i]);
    }
  }

  lemma {:induction false} FaithfulRowsReuseNothing(
      log: seq<EventRow>, history: seq<EventRow>, rows: seq<EventRow>, query: EventQuery, beats: iset<string>)
    requires query.skipHeartbeats && Tracks(log, history, query, false) && Faithful(history, beats)
        && Faithful(rows, beats)
    ensures !RowsReuse(log, history, rows, query) && Faithful(InsertAll(history, rows), beats)
  {
    if rows != [] {
      hide Reuses, Insert, IsHeartbeat, Matches;
      var front, last := rows[..|rows| - 1], rows[|rows| - 1];
      FaithfulRowsReuseNothing(log, history, front, query, beats);
      InsertAllTracks(log, history, front, query, false);
      FaithfulRowReusesNothing(InsertAll(log, front), InsertAll(history, front), last, query, beats);
    }
  }

  /** Ids that tell heartbeats from other events are never reused. */
  lemma {:induction false} FaithfulRunReusesNothing(
      db: Db, kept: seq<EventRow>, ops: seq<Op>, query: EventQuery, beats: iset<string>)
    requires query.skipHeartbeats && Tracks(db.events, kept, query, false)
    requires Faithful(kept, beats) && RunFaithful(db, ops, beats)
    ensures !RunReuses(db, kept, ops, query)
    decreases |ops|
  {
    if ops != [] {
      var offered := OfferedBy(db, ops[0]);
      MigratedTracks(db.events, Targets(db), kept, query, false);
      ApplyTracks(db, kept, ops[0], query, false);
      hide Tracks, Faithful, Apply, OfferedBy, RowsReuse, Migrated, Targets;
      FaithfulRowsReuseNothing(SchemaReady(db).events, kept, offered, query, beats);
      FaithfulRunReusesNothing(Apply(db, ops[0]), InsertAll(kept, offered), ops[1..], query, beats);
    }
  }

  /** So with such ids pruning is invisible. */
  lemma PruningIsInvisible(db: Db, ops: seq<Op>, query: EventQuery, beats: iset<string>)
    requires query.skipHeartbeats && Faithful(db.events, beats) && RunFaithful(db, ops, beats)
    ensures Scan(Run(db, ops).events, query) == Scan(History(db, db.events, ops), query)
  {
    FaithfulRunReusesNothing(db, db.events, ops, query, beats);
    PruningIsInvisibleIff(db, ops, query);
  }

  const NEWS := EventQuery(None, None, true)

  lemma AppendedToReady(db: Db, event: EventRecord, stamp: Stamp)
    requires db.version >= SQLITE_SCHEMA_VERSION || db.events == []
    ensures var op := Log(AppendEvent(event, stamp));
            && Apply(db, op).events == Append(db.events, RecordRow(event, stamp), Targets(db))
            && Apply(db, op).version >= SQLITE_SCHEMA_VERSION && Targets(Apply(db, op)) == Targets(db)
            && OfferedBy(db, op) == [RecordRow(event, stamp)] && SchemaReady(db).events == db.events
  {
    hide Append, RecordRow;
    assert Migrated([], Targets(db)) == [];
  }

  lemma OneOpMore(db: Db, kept: seq<EventRow>, op: Op, rest: seq<Op>, query: EventQuery)
    ensures Run(db, [op] + rest) == Run(Apply(db, op), rest)
    ensures History(db, kept, [op] + rest) == History(Apply(db, op), InsertAll(kept, OfferedBy(db, op)), rest)
    ensures RunReuses(Apply(db, op), InsertAll(kept, OfferedBy(db, op)), rest, query) ==>
        RunReuses(db, kept, [op] + rest, query)
    ensures RowsReuse(SchemaReady(db).events, kept, OfferedBy(db, op), query) ==>
        RunReuses(db, kept, [op] + rest, query)
  {
    hide Apply, OfferedBy, InsertAll, RowsReuse, SchemaReady;
    assert ([op] + rest)[1..] == rest;
  }

  /**
   A heartbeat, a second one of the same task and type that prunes it, and an
   event under the id of the first: a reader of the log is shown the event, and
   the history had refused it.
   */
  lemma ReusedIdShows(first: EventRecord, second: EventRecord, late: EventRecord, stamp: Stamp)
    requires first.eventType == second.eventType && first.eventType in HEARTBEAT_EVENT_TYPES
        && first.taskId == second.taskId
    requires !Blank(first.eventId) && !Blank(second.eventId) && first.eventId != second.eventId
    requires late.eventId == first.eventId && late.eventType !in HEARTBEAT_EVENT_TYPES
    ensures var ops := [Log(AppendEvent(first, stamp)), Log(AppendEvent(second, stamp)), Log(AppendEvent(late, stamp))];
            && Run(EMPTY_DB, ops).events == [RecordRow(second, stamp), RecordRow(late, stamp)]
            && History(EMPTY_DB, [], ops) == [RecordRow(first, stamp), RecordRow(second, stamp)]
            && RunReuses(EMPTY_DB, [], ops, NEWS)
            && Scan(Run(EMPTY_DB, ops).events, NEWS) != Scan(History(EMPTY_DB, [], ops), NEWS)
  {
    var a, b, c := RecordRow(first, stamp), RecordRow(second, stamp), RecordRow(late, stamp);
    var one, two, three := Log(AppendEvent(first, stamp)), Log(AppendEvent(second, stamp)),
        Log(AppendEvent(late, stamp));
    var db1 := Apply(EMPTY_DB, one);
    var db2 := Apply(db1, two);
    assert Targets(EMPTY_DB) == {};
    RecordRowSays(first, stamp);
    RecordRowSays(second, stamp);
    RecordRowSays(late, stamp);
    hide RecordRow, Apply, OfferedBy, Blank, Run, History, RunReuses, SchemaReady, Targets, InsertAll, Append, Scan,
         RowsReuse;
    SecondPrunesFirst(a, b);
    LateReuses(a, b, c);
    hide IsHeartbeat, SameGroup;
    AppendedToReady(EMPTY_DB, first, stamp);
    AppendedToReady(db1, second, stamp);
    AppendedToReady(db2, late, stamp);
    ThreeOps(EMPTY_DB, one, two, three, a, b, c);
    PruningIsInvisibleIff(EMPTY_DB, [one, two, three], NEWS);
  }

  lemma ThreeOps(db: Db, one: Op, two: Op, three: Op, a: EventRow, b: EventRow, c: EventRow)
    requires OfferedBy(db, one) == [a] && InsertAll([], [a]) == [a]
    requires OfferedBy(Apply(db, one), two) == [b] && InsertAll([a], [b]) == [a, b]
    requires var db2 := Apply(Apply(db, one), two);
             && OfferedBy(db2, three) == [c] && InsertAll([a, b], [c]) == [a, b]
             && RowsReuse(SchemaReady(db2).events, [a, b], [c], NEWS)
    ensures Run(db, [one, two, three]) == Apply(Apply(Apply(db, one), two), three)
    ensures History(db, [], [one, two, three]) == [a, b] && RunReuses(db, [], [one, two, three], NEWS)
  {
    hide Apply, OfferedBy, Run, History, RunReuses, SchemaReady, InsertAll, RowsReuse;
    var db1 := Apply(db, one);
    var db2 := Apply(db1, two);
    OneOpMore(db2, [a, b], three, [], NEWS);
    OneOpMore(db1, [a], two, [three], NEWS);
    OneOpMore(db, [], one, [two, three], NEWS);
    NoOps(Apply(db2, three), [a, b]);
    assert [three] + [] == [three] && [two] + [three] == [two, three] && [one] + [two, three] == [one, two, three];
  }

  lemma NoOps(db: Db, kept: seq<EventRow>)
    ensures Run(db, []) == db && History(db, kept, []) == kept
  {
  }

  lemma InsertOne(log: seq<EventRow>, row: EventRow)
    ensures InsertAll(log, [row]) == Insert(log, row)
  {
    assert [row][..0] == [];
  }

  lemma SecondPrunesFirst(a: EventRow, b: EventRow)
    requires IsHeartbeat(a) && SameGroup(a, b) && a.eventId != b.eventId
    ensures Append([], a, {}) == [a] && Append([a], b, {}) == [b]
    ensures InsertAll([], [a]) == [a] && InsertAll([a], [b]) == [a, b]
  {
    assert [a][1..] == [];
    assert Pruned([a], b, {}) == Pruned([], b, {}) == [];
    InsertOne([], a);
    InsertOne([a], b);
    assert [a] + [b] == [a, b];
  }

  lemma LateReuses(a: EventRow, b: EventRow, c: EventRow)
    requires a.eventId != b.eventId && c.eventId == a.eventId && !IsHeartbeat(c)
    ensures Append([b], c, {}) == [b, c] && InsertAll([a, b], [c]) == [a, b] && RowsReuse([b], [a, b], [c], NEWS)
  {
    InsertOne([a, b], c);
    assert [a, b][0].eventId == c.eventId;
    assert [c][..0] == [] && InsertAll([b], []) == [b] && InsertAll([a, b], []) == [a, b];
    assert Reuses([b], [a, b], c, NEWS);
    assert [b] + [c] == [b, c];
  }

  // ---- applying an operation twice ---------------------------------------

  lemma UpsertedTwice(runtime: RuntimeTable, t: Task, now: string)
    ensures Upserted(Upserted(runtime, t, now), t, now) == Upserted(runtime, t, now)
  {
  }

  lemma AppendedHasId(log: seq<EventRow>, row: EventRow, targets: set<string>)
    ensures HasId(Append(log, row, targets), row.eventId)
  {
    var after := Append(log, row, targets);
    if !HasId(log, row.eventId) { assert after[|after| - 1] == row; }
  }

  lemma TaskStoredTwice(db: Db, taskId: string, t: Task, now: string, relock: bool)
    ensures var once := TaskStored(db, taskId, t, now, relock);
            TaskStored(once.(events := db.events), taskId, t, now, relock).(events := once.events) == once
  {
    hide LocksOf, RuntimeRowOf, TaskRowOf;
    UpsertedTwice(db.runtime, t, now);
    assert db.tasks[taskId := TaskRowOf(t, now)][taskId := TaskRowOf(t, now)] == db.tasks[taskId := TaskRowOf(t, now)];
  }

  /** An event that brings its own id is refused the second time. */
  lemma AppendedTwice(db: Db, event: EventMutation, first: Stamp, second: Stamp)
    requires event.eventId.Some? && !Blank(event.eventId.value)
    ensures Appended(Appended(db, MutationRow(event, first)), MutationRow(event, second))
        == Appended(db, MutationRow(event, first))
  {
    AppendedHasId(db.events, MutationRow(event, first), Targets(db));
  }

  lemma MutationAgain(db: Db, m: Mutation, carried: Option<EventMutation>, first: Stamp, second: Stamp)
    requires WellKeyed(db.tasks) && (m.Transition? || m.Runtime?)
    requires carried.Some? ==> carried.value.eventId.Some? && !Blank(carried.value.eventId.value)
    ensures ApplyMutation(ApplyMutation(db, m, carried, first), m, carried, second)
        == ApplyMutation(db, m, carried, first)
  {
    if m.TaskId() in db.tasks {
      hide LocksOf, Upserted, TaskRowOf, Append, MutationRow;
      var t := db.tasks[m.TaskId()].payload;
      var stored := TaskStored(db, m.TaskId(), m.Changed(t), m.Now(), m.Transition?);
      MutationTwice(t, m);
      TaskStoredTwice(db, m.TaskId(), m.Changed(t), m.Now(), m.Transition?);
      assert stored.tasks[m.TaskId()].payload == m.Changed(t) by { PayloadOfRow(m.Changed(t), m.Now()); }
      if carried.Some? { AppendedTwice(stored, carried.value, first, second); }
    }
  }

  lemma PayloadOfRow(t: Task, now: string)
    ensures TaskRowOf(t, now).payload == t
  {
  }

  /**
   Delivering a transition or a runtime report again, with the event id it
   names, leaves the whole store as the first delivery left it, whatever the
   clock says the second time.
   */
  lemma RedeliveryChangesNothing(db: Db, m: Mutation, carried: Option<EventMutation>, first: Stamp, second: Stamp)
    requires Consistent(db) && (m.Transition? || m.Runtime?)
    requires carried.Some? ==> carried.value.eventId.Some? && !Blank(carried.value.eventId.value)
    ensures Apply(Apply(db, Mutate(m, carried, first)), Mutate(m, carried, second))
        == Apply(db, Mutate(m, carried, first))
  {
    hide Migrated, Append, MutationRow, LocksOf, Upserted, TaskRowOf;
    var ready := SchemaReady(db);
    assert ApplyMutation(ready, m, carried, first).version == ready.version >= SQLITE_SCHEMA_VERSION;
    MutationAgain(ready, m, carried, first, second);
  }

  // ---- what a stored task always satisfies --------------------------------

  predicate AllSound(db: Db) { forall id | id in db.tasks :: Sound(db.tasks[id].payload) }

  /** Saves store sound tasks, and whoever reports a task as running has a clock. */
  predicate KeepsSound(op: Op)
  {
    && (op.Save? ==> forall i | 0 <= i < |op.snapshot.registry.tasks| :: Sound(op.snapshot.registry.tasks[i]))
    && (op.Mutate? && op.mutation.Runtime? && op.mutation.runtime.runtimeStatus == "running" ==>
        op.mutation.runtime.now != "")
  }

  lemma {:induction false} SaveTasksKeepsSound(stored: TaskTable, start: Tables, ts: seq<Task>, now: string)
    requires forall id | id in start.tasks :: Sound(start.tasks[id].payload)
    requires forall i | 0 <= i < |ts| :: Sound(ts[i])
    ensures forall id | id in SaveTasks(stored, start, ts, now).tasks ::
        Sound(SaveTasks(stored, start, ts, now).tasks[id].payload)
  {
    if ts != [] { SaveTasksKeepsSound(stored, start, ts[..|ts| - 1], now); }
  }

  lemma MutationKeepsAllSound(db: Db, m: Mutation, carried: Option<EventMutation>, stamp: Stamp)
    requires AllSound(db) && KeepsSound(Mutate(m, carried, stamp))
    ensures AllSound(ApplyMutation(db, m, carried, stamp))
  {
    if m.TaskId() in db.tasks { MutationKeepsSound(db.tasks[m.TaskId()].payload, m); }
  }

  lemma SaveKeepsAllSound(db: Db, snapshot: Snapshot, now: string)
    requires AllSound(db) && KeepsSound(Save(snapshot, now))
    ensures AllSound(ApplySave(db, snapshot, now))
  {
    var ts := snapshot.registry.tasks;
    SaveTasksKeepsSound(db.tasks, SaveStart(db.tasks, db.runtime, ts), ts, now);
  }

  lemma ApplyKeepsSound(before: Db, op: Op)
    requires AllSound(before) && KeepsSound(op)
    ensures AllSound(Apply(before, op))
  {
    var db := SchemaReady(before);
    match op
    case Log(log) => assert Apply(before, op) == ApplyLog(db, log);
    case Mutate(m, carried, stamp) =>
      assert Apply(before, op) == ApplyMutation(db, m, carried, stamp);
      MutationKeepsAllSound(db, m, carried, stamp);
    case Save(snapshot, now) =>
      assert Apply(before, op) == ApplySave(db, snapshot, now);
      SaveKeepsAllSound(db, snapshot, now);
  }

  /** The three rules of a stored task hold of every task in every reachable state. */
  lemma {:induction false} RunKeepsSound(db: Db, ops: seq<Op>)
    requires AllSound(db) && forall i | 0 <= i < |ops| :: KeepsSound(ops[i])
    ensures AllSound(Run(db, ops))
    decreases |ops|
  {
    if ops != [] {
      ApplyKeepsSound(db, ops[0]);
      RunKeepsSound(Apply(db, ops[0]), ops[1..]);
    }
  }

  // ---- a saved store stays authoritative ----------------------------------

  lemma MutationKeepsData(db: Db, m: Mutation, carried: Option<EventMutation>, stamp: Stamp)
    requires HasSnapshotData(db)
    ensures HasSnapshotData(ApplyMutation(db, m, carried, stamp))
  {
    if m.TaskId() in db.tasks { assert m.TaskId() in Mutated(db, m, carried, stamp).tasks; }
  }

  lemma SaveKeepsData(db: Db, snapshot: Snapshot, now: string)
    requires HasSnapshotData(db) || JobsOf(snapshot.registry.tasks, now).Some?
    ensures HasSnapshotData(ApplySave(db, snapshot, now))
  {
  }

  lemma ApplyKeepsData(before: Db, op: Op)
    requires HasSnapshotData(before)
    ensures HasSnapshotData(Apply(before, op))
  {
    match op
    case Log(log) =>
    case Mutate(m, carried, stamp) => MutationKeepsData(SchemaReady(before), m, carried, stamp);
    case Save(snapshot, now) => SaveKeepsData(SchemaReady(before), snapshot, now);
  }

  /** Having data is for good, even if it is only tasks: whatever removes the last task also writes the metadata. */
  lemma {:induction false} DataStays(db: Db, ops: seq<Op>)
    requires HasSnapshotData(db)
    ensures HasSnapshotData(Run(db, ops))
    decreases |ops|
  {
    if ops != [] {
      ApplyKeepsData(db, ops[0]);
      DataStays(Apply(db, ops[0]), ops[1..]);
    }
  }
}

/**
 What the store's operations do, read off the tables: which events a replay
 cursor keeps, in which states a task holds its resources, and what a mutation
 leaves in each field and column. The states, statuses and event types are
 written out here, apart from the definitions the operations share.
 */
module StoreLaws {
  import opened Wrappers
  import opened Text
  import opened Tasks
  import opened EventLog
  import opened TaskTables
  import opened CoordinatorStore
  import opened StoreRuns
  import opened StorageSync
  import RepeatedTransfers

  // ---- events that cursors point at ------------------------------------------

  /** A stream of `event_cursor` or a row of `cursors` has this as its last event. */
  ghost predicate PointedAt(db: Db, id: string)
  {
    || (exists s | s in db.streams :: db.streams[s] == Some(id))
    || (exists n | n in db.cursors :: db.cursors[n].lastEventId == Some(id))
  }

  predicate HeartbeatType(eventType: string) { eventType == "heartbeat" || eventType == "coordinator_heartbeat" }

  lemma TargetsArePointedAt(db: Db, id: string)
    ensures id in Targets(db) <==> PointedAt(db, id)
  {
  }

  lemma HeartbeatsByType(row: EventRow)
    ensures IsHeartbeat(row) <==> HeartbeatType(row.eventType)
  {
  }

  /** No operation deletes an event that a stream or a cursor points at, or one that is no heartbeat. */
  lemma PointedAtStays(db: Db, op: Op, row: EventRow)
    requires row in db.events && (PointedAt(db, row.eventId) || !HeartbeatType(row.eventType))
    ensures row in Apply(db, op).events
  {
    hide Apply, Targets, IsHeartbeat, PointedAt, HeartbeatType;
    TargetsArePointedAt(db, row.eventId);
    HeartbeatsByType(row);
    ApplyKeepsEvents(db, op, row);
  }

  /** The operation takes the stream away from the event. */
  predicate MovesStream(op: Op, s: string, id: string)
  {
    op.Log? && op.log.MoveStream? && op.log.stream == s && op.log.lastEventId != id
  }

  lemma StreamStays(before: Db, op: Op, s: string, id: string)
    requires s in before.streams && before.streams[s] == Some(id) && !MovesStream(op, s, id)
    ensures s in Apply(before, op).streams && Apply(before, op).streams[s] == Some(id)
  {
    hide Migrated, ApplyLog, ApplyMutation, ApplySave, JobsOf;
    var db := SchemaReady(before);
    assert db.streams == before.streams;
    match op
    case Log(log) => LogMovesCursors(db, log);
    case Mutate(m, carried, stamp) => MutationKeepsCursors(db, m, carried, stamp);
    case Save(snapshot, now) => SaveSetsCursors(db, snapshot, now);
  }

  lemma LogMovesCursors(db: Db, log: LogOp)
    ensures var after := ApplyLog(db, log);
            && after.streams == (if log.MoveStream? then db.streams[log.stream := Some(log.lastEventId)]
                else db.streams)
            && after.cursors.Keys == (if log.SetCursor? then db.cursors.Keys + {log.name} else db.cursors.Keys)
            && forall n | n in after.cursors ::
                 after.cursors[n].lastEventId
                 == if log.SetCursor? && n == log.name then Some(log.lastId) else db.cursors[n].lastEventId
  {
    hide Append, RecordRow, Targets;
  }

  lemma MutationKeepsCursors(db: Db, m: Mutation, carried: Option<EventMutation>, stamp: Stamp)
    ensures var after := ApplyMutation(db, m, carried, stamp);
            after.streams == db.streams && after.cursors == db.cursors
  {
    hide Append, LocksOf, Upserted, TaskRowOf, MutationRow, Targets;
  }

  lemma SaveSetsCursors(db: Db, snapshot: Snapshot, now: string)
    ensures var after := ApplySave(db, snapshot, now);
            && after.streams == db.streams
            && after.cursors == if JobsOf(snapshot.registry.tasks, now).Some? then SavedCursors(snapshot.cursor)
                                else db.cursors
  {
    hide JobsOf, Saved, SavedLocks, InsertAll, SnapshotRows, SavedCursors;
  }

  /** An event stays over every run until the stream that points at it moves. */
  lemma {:induction false} StreamPinsEvent(db: Db, ops: seq<Op>, row: EventRow, s: string)
    requires row in db.events && s in db.streams && db.streams[s] == Some(row.eventId)
    requires forall i | 0 <= i < |ops| :: !MovesStream(ops[i], s, row.eventId)
    ensures var after := Run(db, ops);
            row in after.events && s in after.streams && after.streams[s] == Some(row.eventId)
    decreases |ops|
  {
    hide Apply, MovesStream;
    if ops != [] {
      PointedAtStays(db, ops[0], row);
      StreamStays(db, ops[0], s, row.eventId);
      StreamPinsEvent(Apply(db, ops[0]), ops[1..], row, s);
    }
  }

  /** The operation takes the cursor away from the event; a save that succeeds keeps the coordinator's only. */
  predicate MovesCursor(op: Op, n: string, id: string)
  {
    match op
    case Log(log) => log.SetCursor? && log.name == n && log.lastId != id
    case Mutate(_, _, _) => false
    case Save(snapshot, now) =>
      JobsOf(snapshot.registry.tasks, now).Some? &&
      !(n == "coordinator" && snapshot.cursor.Some? && snapshot.cursor.value.lastEventId.GetOr("") == id)
  }

  lemma CursorStays(before: Db, op: Op, n: string, id: string)
    requires n in before.cursors && before.cursors[n].lastEventId == Some(id) && !MovesCursor(op, n, id)
    ensures n in Apply(before, op).cursors && Apply(before, op).cursors[n].lastEventId == Some(id)
  {
    hide Migrated, ApplyLog, ApplyMutation, ApplySave, JobsOf;
    var db := SchemaReady(before);
    assert db.cursors == before.cursors;
    match op
    case Log(log) => LogMovesCursors(db, log);
    case Mutate(m, carried, stamp) => MutationKeepsCursors(db, m, carried, stamp);
    case Save(snapshot, now) => SaveSetsCursors(db, snapshot, now);
  }

  /** And until the cursor that points at it moves. */
  lemma {:induction false} CursorPinsEvent(db: Db, ops: seq<Op>, row: EventRow, n: string)
    requires row in db.events && n in db.cursors && db.cursors[n].lastEventId == Some(row.eventId)
    requires forall i | 0 <= i < |ops| :: !MovesCursor(ops[i], n, row.eventId)
    ensures var after := Run(db, ops);
            row in after.events && n in after.cursors && after.cursors[n].lastEventId == Some(row.eventId)
    decreases |ops|
  {
    hide Apply, MovesCursor;
    if ops != [] {
      PointedAtStays(db, ops[0], row);
      CursorStays(db, ops[0], n, row.eventId);
      CursorPinsEvent(Apply(db, ops[0]), ops[1..], row, n);
    }
  }

  /** Moving a stream to an event pins it from then on. */
  lemma MovedStreamPins(db: Db, s: string, ops: seq<Op>, row: EventRow)
    requires row in SchemaReady(db).events && forall i | 0 <= i < |ops| :: !MovesStream(ops[i], s, row.eventId)
    ensures row in Run(db, [Log(MoveStream(s, row.eventId))] + ops).events
  {
    hide SchemaReady;
    var first := Log(MoveStream(s, row.eventId));
    assert ([first] + ops)[1..] == ops;
    StreamPinsEvent(Apply(db, first), ops, row, s);
  }

  /** So does setting a cursor, and so does saving one. */
  lemma MovedCursorPins(db: Db, n: string, offset: nat, now: string, ops: seq<Op>, row: EventRow)
    requires row in SchemaReady(db).events && forall i | 0 <= i < |ops| :: !MovesCursor(ops[i], n, row.eventId)
    ensures row in Run(db, [Log(SetCursor(n, offset, row.eventId, now))] + ops).events
  {
    hide SchemaReady;
    var first := Log(SetCursor(n, offset, row.eventId, now));
    assert ([first] + ops)[1..] == ops;
    CursorPinsEvent(Apply(db, first), ops, row, n);
  }

  lemma RunOne(db: Db, op: Op, ops: seq<Op>)
    ensures Run(db, [op] + ops) == Run(Apply(db, op), ops)
  {
    hide Apply;
    assert ([op] + ops)[1..] == ops;
  }

  lemma SaveKeepsRow(db: Db, snapshot: Snapshot, now: string, row: EventRow)
    requires row in SchemaReady(db).events
    ensures row in Apply(db, Save(snapshot, now)).events
  {
    hide SchemaReady, Apply, JobsOf, InsertAll, SnapshotRows;
    EventsAfter(db, Save(snapshot, now));
    InsertAllKeepsRows(SchemaReady(db).events, OfferedBy(db, Save(snapshot, now)));
  }

  lemma ApplySaveCursor(db: Db, snapshot: Snapshot, now: string)
    requires JobsOf(snapshot.registry.tasks, now).Some?
    ensures Apply(db, Save(snapshot, now)).cursors == SavedCursors(snapshot.cursor)
  {
    hide JobsOf, ApplySave, Migrated, SavedCursors;
    SaveSetsCursors(SchemaReady(db), snapshot, now);
  }

  lemma SavedCursorPins(db: Db, snapshot: Snapshot, now: string, ops: seq<Op>, row: EventRow)
    requires row in SchemaReady(db).events && JobsOf(snapshot.registry.tasks, now).Some?
    requires snapshot.cursor.Some? && snapshot.cursor.value.lastEventId == Some(row.eventId)
    requires forall i | 0 <= i < |ops| :: !MovesCursor(ops[i], "coordinator", row.eventId)
    ensures row in Run(db, [Save(snapshot, now)] + ops).events
  {
    hide SchemaReady, Apply, JobsOf, InsertAll, SnapshotRows, MovesCursor;
    var first := Save(snapshot, now);
    assert ([first] + ops)[1..] == ops;
    hide Run;
    SaveKeepsRow(db, snapshot, now, row);
    ApplySaveCursor(db, snapshot, now);
    CursorPinsEvent(Apply(db, first), ops, row, "coordinator");
    RunOne(db, first, ops);
  }

  /** The rows an accepted append deletes: of the same heartbeat type and task, with nothing pointing at them. */
  lemma AppendDeletes(db: Db, row: EventRow, e: EventRow)
    requires row in db.events && !HasId(db.events, e.eventId)
    ensures row in Appended(db, e).events <==>
            !(HeartbeatType(e.eventType) && row.eventType == e.eventType && row.taskId == e.taskId
                && !PointedAt(db, row.eventId))
  {
    hide PointedAt, Targets;
    TargetsArePointedAt(db, row.eventId);
    HeartbeatsByType(e);
    PrunedRows(db.events, e, Targets(db));
    MemberHasId(db.events, row);
  }

  /** Of an event that is appended, with a schema set up before. */
  lemma AcceptedEventDeletes(db: Db, event: EventRecord, stamp: Stamp, row: EventRow)
    requires db.version >= 2 && row in db.events && !HasId(db.events, RecordRow(event, stamp).eventId)
    ensures row in Apply(db, Log(AppendEvent(event, stamp))).events <==>
            !(HeartbeatType(event.eventType) && row.eventType == event.eventType && row.taskId == event.taskId
                && !PointedAt(db, row.eventId))
  {
    RecordRowSays(event, stamp);
    hide RecordRow, PointedAt, HeartbeatType, Appended;
    AppendDeletes(db, row, RecordRow(event, stamp));
  }

  /** The same of an event that a mutation carries. */
  lemma CarriedEventDeletes(db: Db, m: Mutation, event: EventMutation, stamp: Stamp, row: EventRow)
    requires db.version >= 2 && row in db.events && (m.Transition? || m.Runtime?) && m.TaskId() in db.tasks
    requires !HasId(db.events, MutationRow(event, stamp).eventId)
    ensures row in Apply(db, Mutate(m, Some(event), stamp)).events <==>
            !(HeartbeatType(event.eventType) && row.eventType == event.eventType && row.taskId == Some(event.taskId)
                && !PointedAt(db, row.eventId))
  {
    MutationRowSays(event, stamp);
    hide MutationRow, PointedAt, HeartbeatType, Append, LocksOf, Upserted, TaskRowOf;
    AppendDeletes(db, row, MutationRow(event, stamp));
  }

  /**
   The schema set-up of an older store deletes a heartbeat that has a later one
   of its task and type, unless pointed at.
   */
  lemma MigrationDeletes(db: Db, i: nat)
    requires Consistent(db) && db.version < 2 && i < |db.events|
    ensures var row := db.events[i];
            row in SchemaReady(db).events <==>
            !(HeartbeatType(row.eventType) && !PointedAt(db, row.eventId)
                && exists j | i < j < |db.events| ::
                     db.events[j].eventType == row.eventType && db.events[j].taskId == row.taskId)
  {
    hide PointedAt, Targets, Migrated;
    var row := db.events[i];
    TargetsArePointedAt(db, row.eventId);
    HeartbeatsByType(row);
    MigratedKeepsExactly(db.events, Targets(db), i);
  }

  // ---- resources and states --------------------------------------------------

  /** The task asks for the resource: it is being worked on, in a worktree, and lists it. */
  predicate AsksFor(t: Task, r: string)
  {
    && (|| t.state == "claimed" || t.state == "in_progress" || t.state == "pr_open" || t.state == "changes_requested"
        || t.state == "queued")
    && t.worktree.Some? && r != "" && r in t.exclusiveResources
  }

  /** The claim a task works under: its claim id, else its session, else a name made of its id. */
  ghost predicate IsClaimOf(claim: string, t: Task)
  {
    if t.runtime.claimId.Some? && t.runtime.claimId != Some("") then t.runtime.claimId == Some(claim)
    else if t.runtime.activeSessionId.Some? then t.runtime.activeSessionId == Some(claim)
    else claim == "unclaimed-" + t.id
  }

  /** A lock row says who holds the resource, where and until when, and since the claim if that has a time. */
  predicate IsLockOf(row: LockRow, t: Task, now: string)
  {
    && row.taskId == t.id && row.expiresAt == t.runtime.leaseExpiresAt && row.updatedAt == now
    && (t.worktree.Some? ==> row.worktreePath == t.worktree.value.worktreePath.GetOr(""))
    && row.acquiredAt == (if t.claimedAt.Some? && t.claimedAt != Some("") then t.claimedAt.value else now)
    && (row.payload.None? <==> row.worktreePath == "")
    && (row.payload.Some? ==> row.payload.value.lockedAt == row.acquiredAt)
  }

  lemma ClaimantsAsk(tasks: TaskTable, r: string, id: string)
    requires WellKeyed(tasks) && r != ""
    ensures id in Claimants(tasks, r) <==> id in tasks && AsksFor(tasks[id].payload, r)
  {
    hide TaskRowOf;
  }

  lemma HolderAsksFirst(tasks: TaskTable, r: string)
    requires WellKeyed(tasks)
    ensures Holder(tasks, r).Some? <==> exists id | id in tasks :: AsksFor(tasks[id].payload, r)
    ensures Holder(tasks, r).Some? ==>
              var id := Holder(tasks, r).value;
              && id in tasks && AsksFor(tasks[id].payload, r)
              && forall other | other in tasks && AsksFor(tasks[other].payload, r) :: StringLe(id, other)
  {
    hide WellKeyed, HoldsLocks;
    if r == "" {
    } else {
      forall id ensures id in Claimants(tasks, r) <==> id in tasks && AsksFor(tasks[id].payload, r) {
        ClaimantsAsk(tasks, r, id);
      }
      hide Claimants, AsksFor;
    }
  }

  lemma LockRowSays(t: Task, now: string)
    ensures IsLockOf(LockRowOf(t, now), t, now) && IsClaimOf(ClaimKey(t), t)
  {
  }

  /** A recomputation locks a resource exactly if some task asks for it, for the first such task, under its claim. */
  lemma ResourcesAreLocked(tasks: TaskTable, now: string, r: string)
    requires WellKeyed(tasks)
    ensures (exists claim :: LockKey(r, claim) in LocksOf(tasks, now))
       <==> exists id | id in tasks :: AsksFor(tasks[id].payload, r)
    ensures forall claim | LockKey(r, claim) in LocksOf(tasks, now) ::
              var row := LocksOf(tasks, now)[LockKey(r, claim)];
              && row.taskId in tasks && AsksFor(tasks[row.taskId].payload, r)
              && IsClaimOf(claim, tasks[row.taskId].payload) && IsLockOf(row, tasks[row.taskId].payload, now)
              && forall other | other in tasks && AsksFor(tasks[other].payload, r) :: StringLe(row.taskId, other)
  {
    LockedNames(tasks, r);
    HolderAsksFirst(tasks, r);
    if Holder(tasks, r).Some? {
      var t := tasks[Holder(tasks, r).value].payload;
      LockRowSays(t, now);
      assert LockRowOf(t, now).taskId == t.id;
      assert LockKey(r, ClaimKey(t)) in LocksOf(tasks, now);
    }
    hide AsksFor, Holder, LockedResourceNames, HoldsLocks, IsLockOf, IsClaimOf, LockRowOf, ClaimKey, TaskRowOf;
  }

  lemma TransitionLocks(db: Db, c: TransitionMutation, carried: Option<EventMutation>, stamp: Stamp)
    requires WellKeyed(db.tasks) && c.taskId in db.tasks
    ensures var after := ApplyMutation(db, Transition(c), carried, stamp);
            && after.locks == LocksOf(after.tasks, c.now) && WellKeyed(after.tasks)
            && after.tasks == db.tasks[c.taskId := TaskRowOf(Transitioned(db.tasks[c.taskId].payload, c), c.now)]
  {
    hide LocksOf, Upserted, Append, MutationRow;
  }

  /** The state a task goes to decides whether it holds what it alone lists, and nothing else of the mutation does. */
  lemma StateHoldsResource(db: Db, c: TransitionMutation, carried: Option<EventMutation>, stamp: Stamp, r: string)
    requires WellKeyed(db.tasks) && c.taskId in db.tasks
    requires db.tasks[c.taskId].payload.worktree.Some? && r != "" && r in db.tasks[c.taskId].payload.exclusiveResources
    requires forall id | id in db.tasks && id != c.taskId :: r !in db.tasks[id].payload.exclusiveResources
    ensures var locks, t := ApplyMutation(db, Transition(c), carried, stamp).locks, db.tasks[c.taskId].payload;
            if c.newState in {"claimed", "in_progress", "pr_open", "changes_requested", "queued"} then
              exists claim | IsClaimOf(claim, t) ::
                  LockKey(r, claim) in locks && IsLockOf(locks[LockKey(r, claim)], t, c.now)
            else forall claim :: LockKey(r, claim) !in locks
  {
    var t := db.tasks[c.taskId].payload;
    var after := ApplyMutation(db, Transition(c), carried, stamp);
    hide LocksOf, ApplyMutation, IsLockOf, IsClaimOf, WellKeyed, AsksFor, TaskRowOf, Transitioned;
    TransitionLocks(db, c, carried, stamp);
    AskingAfter(t, c, r);
    OnlyAsker(after.tasks, c.now, r, c.taskId);
    if c.newState in {"claimed", "in_progress", "pr_open", "changes_requested", "queued"} {
      var claim :| IsClaimOf(claim, Transitioned(t, c)) && LockKey(r, claim) in after.locks
                   && IsLockOf(after.locks[LockKey(r, claim)], Transitioned(t, c), c.now);
      SameLockFields(t, c, after.locks[LockKey(r, claim)], claim);
    }
  }

  /** A resource that one task lists alone is locked exactly if the task asks for it. */
  lemma OnlyAsker(tasks: TaskTable, now: string, r: string, id: string)
    requires WellKeyed(tasks) && id in tasks
    requires forall other | other in tasks && other != id :: r !in tasks[other].payload.exclusiveResources
    ensures var locks, t := LocksOf(tasks, now), tasks[id].payload;
            if AsksFor(t, r) then
              exists claim | IsClaimOf(claim, t) ::
                  LockKey(r, claim) in locks && IsLockOf(locks[LockKey(r, claim)], t, now)
            else forall claim :: LockKey(r, claim) !in locks
  {
    hide LocksOf, IsLockOf, IsClaimOf, AsksFor, WellKeyed, StringLe;
    ResourcesAreLocked(tasks, now, r);
    forall other | other in tasks && AsksFor(tasks[other].payload, r) ensures other == id {
      ListedIfAsked(tasks[other].payload, r);
    }
    if AsksFor(tasks[id].payload, r) { var claim :| LockKey(r, claim) in LocksOf(tasks, now); }
  }

  lemma ListedIfAsked(t: Task, r: string)
    requires AsksFor(t, r)
    ensures r in t.exclusiveResources
  {
  }

  lemma AskingAfter(t: Task, c: TransitionMutation, r: string)
    requires t.worktree.Some? && r != "" && r in t.exclusiveResources
    ensures AsksFor(Transitioned(t, c), r)
       <==> c.newState in {"claimed", "in_progress", "pr_open", "changes_requested", "queued"}
    ensures TaskRowOf(Transitioned(t, c), c.now).payload == Transitioned(t, c)
  {
  }

  lemma SameLockFields(t: Task, c: TransitionMutation, row: LockRow, claim: string)
    requires c.newState in {"claimed", "in_progress", "pr_open", "changes_requested", "queued"}
    ensures IsLockOf(row, Transitioned(t, c), c.now) <==> IsLockOf(row, t, c.now)
    ensures IsClaimOf(claim, Transitioned(t, c)) <==> IsClaimOf(claim, t)
  {
  }

  /** Recomputing later keeps every lock, and its time unless the holder's claim has none. */
  lemma LocksKeepTime(tasks: TaskTable, now: string, later: string, key: LockKey)
    requires WellKeyed(tasks) && key in LocksOf(tasks, now)
    ensures key in LocksOf(tasks, later)
    ensures var one, two := LocksOf(tasks, now)[key], LocksOf(tasks, later)[key];
            && one.taskId in tasks && two.taskId == one.taskId && two.worktreePath == one.worktreePath
            && two.expiresAt == one.expiresAt
            && (two.acquiredAt == one.acquiredAt
                <==> tasks[one.taskId].payload.claimedAt.GetOr("") != "" || now == later)
  {
    var t := tasks[Holder(tasks, key.resource).value].payload;
    HolderAsksFirst(tasks, key.resource);
    LockRowSays(t, now);
    LockRowSays(t, later);
    assert LocksOf(tasks, now)[key] == LockRowOf(t, now) && LocksOf(tasks, later)[key] == LockRowOf(t, later);
    hide LocksOf, Holder, LockRowOf, AsksFor, TaskRowOf;
  }

  // ---- what mutations leave of a task ------------------------------------------

  /** A field takes what a mutation gives, and keeps what it had if the mutation gives nothing. */
  predicate Takes<T(==)>(after: Option<T>, given: Option<T>, before: Option<T>)
  {
    (given.Some? ==> after == given) && (given.None? ==> after == before)
  }

  /** The same of a text, which gives nothing when it is empty. */
  predicate TakesText(after: Option<string>, given: string, before: Option<string>)
  {
    (given != "" ==> after == Some(given)) && (given == "" ==> after == before)
  }

  predicate EndedPhase(status: string)
  {
    status == "idle" || status == "phase_done" || status == "failed" || status == "stale"
  }

  /** The process and the times of a task after a report. */
  predicate ProcessReported(after: TaskRuntime, c: RuntimeMutation, before: TaskRuntime)
  {
    && (c.pid.Some? ==> after.pid == c.pid)
    && (c.pid.None? ==> after.pid == if EndedPhase(c.runtimeStatus) then None else before.pid)
    && (EndedPhase(c.runtimeStatus) ==> after.phaseStartedAt == None && after.startedAt == before.startedAt)
    && (c.runtimeStatus == "running" ==>
          && after.phaseStartedAt == Some(c.now)
          && after.startedAt == if before.startedAt in {None, Some("")} then Some(c.now) else before.startedAt)
    && (c.runtimeStatus != "running" && !EndedPhase(c.runtimeStatus) ==>
          after.phaseStartedAt == before.phaseStartedAt && after.startedAt == before.startedAt)
  }

  /** The fields a report may give. */
  predicate FieldsReported(after: TaskRuntime, c: RuntimeMutation, before: TaskRuntime)
  {
    && after.status == Some(c.runtimeStatus) && after.registryUpdatedAt == Some(c.now)
    && TakesText(after.currentPhase, c.phase, before.currentPhase)
    && TakesText(after.lastError, c.lastError, before.lastError)
    && TakesText(after.lastHeartbeat, c.heartbeatTs, before.lastHeartbeat)
    && Takes(after.message, c.message, before.message) && Takes(after.progress, c.progress, before.progress)
    && Takes(after.workerId, c.workerId, before.workerId) && Takes(after.tool, c.tool, before.tool)
    && Takes(after.worktree, c.worktree, before.worktree) && Takes(after.branch, c.branch, before.branch)
    && Takes(after.stdoutLog, c.stdoutLog, before.stdoutLog) && Takes(after.stderrLog, c.stderrLog, before.stderrLog)
    && Takes(after.eventsLog, c.eventsLog, before.eventsLog)
    && Takes(after.lastEventAt, c.lastEventAt, before.lastEventAt) && Takes(after.attempt, c.attempt, before.attempt)
  }

  /** Everything else of the runtime is as it was. */
  predicate NothingElseReported(after: TaskRuntime, before: TaskRuntime)
  {
    after == before.(
      status := after.status, registryUpdatedAt := after.registryUpdatedAt, currentPhase := after.currentPhase,
      lastError := after.lastError, lastHeartbeat := after.lastHeartbeat, message := after.message,
      progress := after.progress, workerId := after.workerId, tool := after.tool, worktree := after.worktree,
      branch := after.branch, stdoutLog := after.stdoutLog, stderrLog := after.stderrLog,
      eventsLog := after.eventsLog, lastEventAt := after.lastEventAt, attempt := after.attempt, pid := after.pid,
      startedAt := after.startedAt, phaseStartedAt := after.phaseStartedAt)
  }

  lemma StoredMutation(db: Db, m: Mutation, carried: Option<EventMutation>, stamp: Stamp)
    requires WellKeyed(db.tasks) && m.TaskId() in db.tasks
    ensures var after, t := ApplyMutation(db, m, carried, stamp), db.tasks[m.TaskId()].payload;
            && m.TaskId() in after.tasks && after.tasks[m.TaskId()] == TaskRowOf(m.Changed(t), m.Now())
            && ClaimKey(t) in after.runtime && after.runtime[ClaimKey(t)] == RuntimeRowOf(m.Changed(t), m.Now())
            && (forall id | id in db.tasks && id != m.TaskId() :: id in after.tasks && after.tasks[id] == db.tasks[id])
            && after.tasks.Keys == db.tasks.Keys && m.Changed(t).id == t.id == m.TaskId()
  {
    MutationTables(db, m, carried, stamp);
    ChangedKeepsKey(db.tasks[m.TaskId()].payload, m);
    hide RuntimeRowOf, TaskRowOf, ApplyMutation, ClaimKey;
  }

  lemma ReportChanges(t: Task, c: RuntimeMutation)
    ensures var after := RuntimeChanged(t, c);
            && ProcessReported(after.runtime, c, t.runtime) && FieldsReported(after.runtime, c, t.runtime)
            && NothingElseReported(after.runtime, t.runtime)
            && after == t.(updatedAt := Some(c.now), runtime := after.runtime)
  {
    DifferentStatuses();
  }

  lemma DifferentStatuses()
    ensures !EndedPhase("running")
  {
    assert "running"[0] !in {"idle"[0], "phase_done"[0], "failed"[0], "stale"[0]};
  }

  /** What a report leaves of the stored task and of its runtime row. */
  lemma ReportSays(db: Db, c: RuntimeMutation, carried: Option<EventMutation>, stamp: Stamp)
    requires WellKeyed(db.tasks) && c.taskId in db.tasks
    ensures var after, t := ApplyMutation(db, Runtime(c), carried, stamp), db.tasks[c.taskId].payload;
            && c.taskId in after.tasks && ClaimKey(t) in after.runtime
            && var reported := after.tasks[c.taskId].payload;
            && ProcessReported(reported.runtime, c, t.runtime) && FieldsReported(reported.runtime, c, t.runtime)
            && NothingElseReported(reported.runtime, t.runtime)
            && reported == t.(updatedAt := Some(c.now), runtime := reported.runtime)
            && ShowsTask(after.runtime[ClaimKey(t)], reported, c.now)
  {
    hide ProcessReported, FieldsReported, NothingElseReported, ShowsTask, RuntimeChanged, RuntimeRowOf, ClaimKey,
         ApplyMutation, WellKeyed;
    var t := db.tasks[c.taskId].payload;
    StoredMutation(db, Runtime(c), carried, stamp);
    ReportChanges(t, c);
    RuntimeRowShows(RuntimeChanged(t, c), c.now);
  }

  // ---- the columns of task_runtime ---------------------------------------------

  predicate ShowsOr<T(==)>(column: T, field: Option<T>, default: T)
  {
    (field.Some? ==> column == field.value) && (field.None? ==> column == default)
  }

  /** A runtime row shows the task: its payload, and column by column. */
  predicate ShowsTask(row: RuntimeRow, t: Task, at: string)
  {
    var r := t.runtime;
    && row.taskId == t.id && row.workflowState == t.state && row.payload == r && row.updatedAt == at
    && ShowsOr(row.runId, r.runId, "-") && ShowsOr(row.runtimeStatus, r.status, "idle")
    && ShowsOr(row.coordinatorEpoch, r.coordinatorEpoch, 0) && ShowsOr(row.heartbeatSeq, r.heartbeatSeq, 0)
    && ShowsOr(row.attempt, r.attempt, 0)
    && row.phase == r.currentPhase && row.tool == t.tool && row.worktreeSlotId == r.worktreeSlotId
    && (t.worktree.Some? ==>
          && row.worktreePath == t.worktree.value.worktreePath && row.branch == t.worktree.value.branch
          && row.baseBranch == t.worktree.value.baseBranch)
    && (t.worktree.None? ==> row.worktreePath == None && row.branch == None && row.baseBranch == None)
    && row.pid == r.pid && row.processGroupId == r.processGroupId && row.startedAt == r.startedAt
    && row.lastHeartbeatAt == r.lastHeartbeat && row.leaseExpiresAt == r.leaseExpiresAt
    && (r.lockedResourcesJson.Some? ==> row.lockedResources == Raw(r.lockedResourcesJson.value))
    && (r.lockedResourcesJson.None? ==> row.lockedResources == Listed(t.exclusiveResources))
    && row.lastErrorCode == r.lastErrorCode
    && (r.lastErrorMessage.Some? ==> row.lastErrorMessage == r.lastErrorMessage)
    && (r.lastErrorMessage.None? ==> row.lastErrorMessage == r.lastError)
  }

  lemma RuntimeRowShows(t: Task, at: string)
    ensures ShowsTask(RuntimeRowOf(t, at), t, at)
  {
  }

  /** In a mirror each task is shown by exactly one row, under its claim. */
  lemma MirrorShowsTasks(db: Db, id: string)
    requires Mirrors(db.runtime, db.tasks) && id in db.tasks
    ensures var t := db.tasks[id].payload;
            exists claim | claim in db.runtime && IsClaimOf(claim, t) ::
              && ShowsTask(db.runtime[claim], t, db.runtime[claim].updatedAt)
              && forall k | k in db.runtime && k != claim :: db.runtime[k].taskId != id
  {
    var t := db.tasks[id].payload;
    OneRowPerTask(db, id);
    LockRowSays(t, "");
    var claim := ClaimKey(t);
    RuntimeRowShows(t, db.runtime[claim].updatedAt);
    hide ShowsTask, IsClaimOf, ClaimKey, RuntimeRowOf, Mirrors;
    assert claim in db.runtime && IsClaimOf(claim, t);
  }

  // ---- transitions ---------------------------------------------------------------

  predicate EndsWork(state: string) { state == "merged" || state == "abandoned" || state == "todo" }

  /** A transition to a state in which nobody works on the task frees it; any other keeps who works on it. */
  predicate WorkTransitioned(after: Task, c: TransitionMutation, before: Task)
  {
    if EndsWork(c.newState) then
      && after.assignee == None && after.claimedAt == None && after.worktree == None
      && after.runtime == before.runtime.(
           status := Some("idle"), pid := None, startedAt := None, currentPhase := None,
           mergeResultPending := Some(false), mergeResultFile := None)
    else
      && after.assignee == before.assignee && after.claimedAt == before.claimedAt && after.worktree == before.worktree
      && after.runtime == before.runtime
  }

  /** A review is recorded when changes are requested, and only then. */
  predicate ReviewTransitioned(after: Option<TaskReview>, c: TransitionMutation, before: Option<TaskReview>)
  {
    if c.newState == "changes_requested" then
      && after.Some? && after.value.changed == Some(true) && after.value.lastReviewedAt == Some(c.now)
      && TakesText(after.value.reviewer, c.reviewer, if before.Some? then before.value.reviewer else None)
      && TakesText(after.value.reason, c.reason, if before.Some? then before.value.reason else None)
      && after.value.rest == if before.Some? then before.value.rest else ""
    else
      after == before
  }

  lemma TransitionChanges(t: Task, c: TransitionMutation)
    ensures var after := Transitioned(t, c);
            && after.state == c.newState && after.updatedAt == after.stateChangedAt == Some(c.now)
            && (c.newState == "pr_open" ==> TakesText(after.prUrl, c.prUrl, t.prUrl))
            && (c.newState != "pr_open" ==> after.prUrl == t.prUrl)
            && ReviewTransitioned(after.review, c, t.review) && WorkTransitioned(after, c, t)
            && after == t.(
                 state := after.state, updatedAt := after.updatedAt, stateChangedAt := after.stateChangedAt,
                 prUrl := after.prUrl, review := after.review, assignee := after.assignee,
                 claimedAt := after.claimedAt, worktree := after.worktree, runtime := after.runtime)
  {
  }

  /** What a transition leaves of the stored task, of its row and of its runtime row. */
  lemma TransitionSays(db: Db, c: TransitionMutation, carried: Option<EventMutation>, stamp: Stamp)
    requires WellKeyed(db.tasks) && c.taskId in db.tasks
    ensures var after, t := ApplyMutation(db, Transition(c), carried, stamp), db.tasks[c.taskId].payload;
            && c.taskId in after.tasks && ClaimKey(t) in after.runtime
            && var moved := after.tasks[c.taskId].payload;
            && moved.state == c.newState && moved.updatedAt == moved.stateChangedAt == Some(c.now)
            && (c.newState == "pr_open" ==> TakesText(moved.prUrl, c.prUrl, t.prUrl))
            && (c.newState != "pr_open" ==> moved.prUrl == t.prUrl)
            && ReviewTransitioned(moved.review, c, t.review) && WorkTransitioned(moved, c, t)
            && moved.(state := t.state, updatedAt := t.updatedAt, stateChangedAt := t.stateChangedAt, prUrl := t.prUrl,
                      review := t.review, assignee := t.assignee, claimedAt := t.claimedAt, worktree := t.worktree,
                      runtime := t.runtime) == t
            && ShowsColumns(after.tasks[c.taskId], moved, c.now)
            && ShowsTask(after.runtime[ClaimKey(t)], moved, c.now)
  {
    hide ReviewTransitioned, WorkTransitioned, ShowsTask, Transitioned, RuntimeRowOf, ClaimKey, ApplyMutation,
         WellKeyed;
    var t := db.tasks[c.taskId].payload;
    StoredMutation(db, Transition(c), carried, stamp);
    TransitionChanges(t, c);
    RuntimeRowShows(Transitioned(t, c), c.now);
  }

  /** The columns of `tasks` copy the payload; a missing text is stored empty. */
  predicate ShowsColumns(row: TaskRow, t: Task, at: string)
  {
    && row.payload == t && row.state == t.state && row.updatedAt == at && ShowsOr(row.title, t.title, "")
    && ShowsOr(row.priority, t.priority, "") && ShowsOr(row.tool, t.tool, "")
  }

  // ---- merge results, retries and warnings ----------------------------------------

  lemma PendingSays(db: Db, c: MergePendingMutation, carried: Option<EventMutation>, stamp: Stamp)
    requires WellKeyed(db.tasks) && c.taskId in db.tasks
    ensures var after, t := ApplyMutation(db, Pending(c), carried, stamp), db.tasks[c.taskId].payload;
            && c.taskId in after.tasks && after.events == db.events && after.locks == db.locks
            && after.tasks[c.taskId].payload == t.(updatedAt := Some(c.now), runtime := t.runtime.(
                 mergeResultPending := Some(true), mergeResultFile := Some(c.resultFile), mergeWorkerPid := c.pid,
                 mergeResultStartedAt := Some(c.now)))
  {
    hide RuntimeRowOf, ClaimKey, WellKeyed, Upserted;
    StoredMutation(db, Pending(c), carried, stamp);
  }

  lemma ProcessedSays(db: Db, c: MergeProcessedMutation, carried: Option<EventMutation>, stamp: Stamp)
    requires WellKeyed(db.tasks) && c.taskId in db.tasks
    ensures var after, t := ApplyMutation(db, Processed(c), carried, stamp), db.tasks[c.taskId].payload;
            && c.taskId in after.tasks && after.events == db.events && after.locks == db.locks
            && var r := after.tasks[c.taskId].payload.runtime;
            && TakesText(r.lastMergeResultFile, c.resultFile, t.runtime.lastMergeResultFile)
            && TakesText(r.lastMergeResultStatus, c.status, t.runtime.lastMergeResultStatus)
            && Takes(r.lastMergeResultRc, c.rc, t.runtime.lastMergeResultRc)
            && r == t.runtime.(
                 mergeResultPending := Some(false), mergeResultFile := None, mergeWorkerPid := None,
                 lastMergeResultAt := Some(c.now), lastMergeResultFile := r.lastMergeResultFile,
                 lastMergeResultStatus := r.lastMergeResultStatus, lastMergeResultRc := r.lastMergeResultRc)
            && after.tasks[c.taskId].payload == t.(updatedAt := Some(c.now), runtime := r)
  {
    hide RuntimeRowOf, ClaimKey, WellKeyed, Upserted;
    StoredMutation(db, Processed(c), carried, stamp);
  }

  /** The counter of a task: its own, else the one among its metrics; none or a negative one counts as none. */
  predicate HasRetries(r: TaskRuntime, n: nat)
  {
    var stored := if r.retries.Some? then r.retries else if r.metrics.Some? then r.metrics.value.retries else None;
    stored == Some(n) || (n == 0 && (stored == None || stored.value < 0))
  }

  /** A retry counts by one, in both places, and changes nothing else. */
  lemma RetrySays(db: Db, c: RetryIncrementMutation, carried: Option<EventMutation>, stamp: Stamp, n: nat)
    requires WellKeyed(db.tasks) && c.taskId in db.tasks
    requires HasRetries(db.tasks[c.taskId].payload.runtime, n) && n < 0x7fff_ffff_ffff_ffff
    ensures var after, t := ApplyMutation(db, Retry(c), carried, stamp), db.tasks[c.taskId].payload;
            && c.taskId in after.tasks && after.events == db.events && after.locks == db.locks
            && var r := after.tasks[c.taskId].payload.runtime;
            && r.retries == Some(n + 1) && r.metrics.Some? && r.metrics.value.retries == Some(n + 1)
            && r.metrics.value.rest == (if t.runtime.metrics.Some? then t.runtime.metrics.value.rest else "")
            && r == t.runtime.(retries := r.retries, metrics := r.metrics)
            && after.tasks[c.taskId].payload == t.(updatedAt := Some(c.now), runtime := r)
  {
    hide RuntimeRowOf, ClaimKey, WellKeyed, Upserted;
    StoredMutation(db, Retry(c), carried, stamp);
  }

  /** A warning is stored under its metric with all it says. */
  lemma WarningSays(db: Db, c: SloWarningMutation, carried: Option<EventMutation>, stamp: Stamp)
    requires WellKeyed(db.tasks) && c.taskId in db.tasks
    ensures var after, t := ApplyMutation(db, Slo(c), carried, stamp), db.tasks[c.taskId].payload;
            && c.taskId in after.tasks && after.events == db.events && after.locks == db.locks
            && var r := after.tasks[c.taskId].payload.runtime;
            && r.sloWarnings.Some? && c.metric in r.sloWarnings.value
            && r.sloWarnings.value[c.metric] == SloWarning(c.metric, c.threshold, c.value, c.now, c.suggestion)
            && (t.runtime.sloWarnings.Some? ==>
                r.sloWarnings.value - {c.metric} == t.runtime.sloWarnings.value - {c.metric})
            && (t.runtime.sloWarnings.None? ==> r.sloWarnings.value.Keys == {c.metric})
            && r == t.runtime.(sloWarnings := r.sloWarnings)
            && after.tasks[c.taskId].payload == t.(updatedAt := Some(c.now), runtime := r)
  {
    hide RuntimeRowOf, ClaimKey, WellKeyed, Upserted;
    StoredMutation(db, Slo(c), carried, stamp);
  }

  // ---- terminal results -----------------------------------------------------------

  /** The event reports that the task has finished its phase under the claim. */
  predicate Reports(event: EventRecord, taskId: string, claimId: string)
  {
    event.eventType == "phase_result" && event.taskId == Some(taskId) && event.claimId == Some(claimId)
  }

  /** After an append a result is found exactly if it was there or the event, being new, reports it. */
  lemma ResultIsFoundIff(db: Db, event: EventRecord, stamp: Stamp, taskId: string, claimId: string)
    requires db.version >= 2
    ensures HasTerminalResult(Apply(db, Log(AppendEvent(event, stamp))).events, taskId, claimId)
       <==> HasTerminalResult(db.events, taskId, claimId)
            || (taskId != "" && claimId != "" && Reports(event, taskId, claimId)
                && !HasId(db.events, RecordRow(event, stamp).eventId))
  {
    var e, op := RecordRow(event, stamp), Log(AppendEvent(event, stamp));
    var after := Apply(db, op);
    hide Apply, RecordRow, HasId, Append, Run, Targets, Blank;
    RecordRowSays(event, stamp);
    AppliedAppend(db, event, stamp);
    AppendRowsIff(db.events, e, Targets(db));
    if HasTerminalResult(db.events, taskId, claimId) {
      OneOp(db, op);
      TerminalResultIsPermanent(db, [op], taskId, claimId);
    }
    if HasTerminalResult(after.events, taskId, claimId) {
      var i :| 0 <= i < |after.events| && after.events[i].taskId == Some(taskId)
               && after.events[i].eventType == "phase_result" && after.events[i].record.claimId == Some(claimId);
      if after.events[i] in db.events { var k :| 0 <= k < |db.events| && db.events[k] == after.events[i]; }
    }
    if Reports(event, taskId, claimId) && !HasId(db.events, e.eventId) && taskId != "" && claimId != "" {
      var i :| 0 <= i < |after.events| && after.events[i] == e;
    }
  }

  lemma AppliedAppend(db: Db, event: EventRecord, stamp: Stamp)
    requires db.version >= 2
    ensures Apply(db, Log(AppendEvent(event, stamp))).events == Append(db.events, RecordRow(event, stamp), Targets(db))
  {
    hide RecordRow, Append, Targets;
  }

  /** An append adds the row if its id is new, and adds nothing else. */
  lemma AppendRowsIff(log: seq<EventRow>, row: EventRow, targets: set<string>)
    ensures forall r | r in Append(log, row, targets) :: r in log || (r == row && !HasId(log, row.eventId))
    ensures !HasId(log, row.eventId) ==> row in Append(log, row, targets)
  {
    PrunedRows(log, row, targets);
  }

  // ---- what a save stores ------------------------------------------------------------

  lemma StoredTables(db: Db, snapshot: Snapshot, now: string)
    requires JobsOf(snapshot.registry.tasks, now).Some?
    ensures ApplySave(db, snapshot, now).tasks == Saved(db.tasks, db.runtime, snapshot.registry.tasks, now).tasks
  {
    hide JobsOf, Saved, SavedLocks, InsertAll, SnapshotRows, SavedCursors;
  }

  lemma KeptRow(stored: TaskTable, runtime: RuntimeTable, ts: seq<Task>, i: nat)
    requires i < |ts| && ts[i].id != ""
    ensures var start := SaveStart(stored, runtime, ts).tasks;
            && (ts[i].id in stored ==> ts[i].id in start && start[ts[i].id] == stored[ts[i].id])
            && (Unchanged(stored, ts[i]) <==> ts[i].id in stored && stored[ts[i].id].payload == ts[i])
  {
    assert ts[i].id in KeptIds(ts);
    hide KeptIds;
  }

  /**
   A task of a snapshot with distinct ids is stored under its id, with its own
   time if it has one; an unchanged row stays.
   */
  lemma SavedTaskSays(db: Db, snapshot: Snapshot, now: string, i: nat)
    requires WellKeyed(db.tasks) && DistinctTaskIds(snapshot.registry.tasks) && i < |snapshot.registry.tasks|
    requires snapshot.registry.tasks[i].id != ""
    ensures var after, t := ApplySave(db, snapshot, now).tasks, snapshot.registry.tasks[i];
            && t.id in after
            && if t.id in db.tasks && db.tasks[t.id].payload == t then after[t.id] == db.tasks[t.id]
               else ShowsColumns(after[t.id], t, if t.updatedAt.Some? then t.updatedAt.value else now)
  {
    var ts, t := snapshot.registry.tasks, snapshot.registry.tasks[i];
    hide ApplySave, JobsOf, SaveTasks, WellKeyed, DistinctTaskIds, Unchanged;
    KeptRow(db.tasks, db.runtime, ts, i);
    DistinctIdsSave(ts, now);
    StoredTables(db, snapshot, now);
    TaskTables.SavedRow(db.tasks, SaveStart(db.tasks, db.runtime, ts), ts, now, i);
  }

  /** A job row of the kind exists exactly for the tasks with a process of it, and says what the task says. */
  lemma SavedJobSays(db: Db, snapshot: Snapshot, now: string, t: Task)
    requires JobsOf(snapshot.registry.tasks, now).Some? && t in snapshot.registry.tasks && t.id != ""
    requires DistinctTaskIds(snapshot.registry.tasks)
    ensures var jobs := ApplySave(db, snapshot, now).jobs;
            && (JobKey(t.id, Performer) in jobs <==> t.runtime.pid.Some?)
            && (JobKey(t.id, MergeWorker) in jobs <==> t.runtime.mergeWorkerPid.Some?)
            && forall kind | JobKey(t.id, kind) in jobs ::
                 && Some(jobs[JobKey(t.id, kind)].pid)
                    == (if kind.Performer? then t.runtime.pid else t.runtime.mergeWorkerPid)
                 && ShowsOr(jobs[JobKey(t.id, kind)].status, t.runtime.status, "idle")
                 && jobs[JobKey(t.id, kind)].updatedAt
                    == if t.runtime.extraUpdatedAt.Some? then t.runtime.extraUpdatedAt.value
                       else if t.updatedAt.Some? then t.updatedAt.value else now
  {
    var ts := snapshot.registry.tasks;
    var i :| 0 <= i < |ts| && ts[i] == t;
    JobsOfIff(ts, now);
    hide JobsOf, Saved, SavedLocks, InsertAll, SnapshotRows, SavedCursors;
    var jobs := JobsOf(ts, now).value;
    forall kind ensures JobKey(t.id, kind) in jobs <==> Asks(t, JobKey(t.id, kind)) {
      if JobKey(t.id, kind) in jobs {
        var j :| 0 <= j < |ts| && Asks(ts[j], JobKey(t.id, kind));
        assert j == i;
      }
    }
  }

  /** Each lock of the registry gets one row, under its claim or a name made of its task, and nothing else does. */
  lemma SavedLockSays(db: Db, snapshot: Snapshot, now: string, key: LockKey)
    requires JobsOf(snapshot.registry.tasks, now).Some?
    ensures var locks, given := ApplySave(db, snapshot, now).locks, snapshot.registry.resourceLocks;
            && (key in locks <==>
                  key.resource in given && var lock := given[key.resource];
                  key.claimId == if lock.claimId != "" then lock.claimId else "unclaimed-" + lock.taskId)
            && (key in locks ==>
                  var lock := given[key.resource];
                  locks[key] == LockRow(lock.taskId, lock.lockedAt, lock.expiresAt, lock.worktreePath, Some(lock), now))
  {
    hide JobsOf, Saved, InsertAll, SnapshotRows, SavedCursors;
  }

  /** The cursor table keeps the coordinator's cursor only, and the metadata all of the registry but the tasks. */
  lemma SavedCursorSays(db: Db, snapshot: Snapshot, now: string)
    requires JobsOf(snapshot.registry.tasks, now).Some?
    ensures var after := ApplySave(db, snapshot, now);
            && after.cursors.Keys == (if snapshot.cursor.Some? then {"coordinator"} else {})
            && (snapshot.cursor.Some? ==>
                  var row := after.cursors["coordinator"];
                  row.payload == snapshot.cursor.value && row.lastEventId.Some?
                  && ShowsOr(row.lastEventId.value, snapshot.cursor.value.lastEventId, ""))
            && after.registryMeta == Some(snapshot.registry.(tasks := [])) && after.streams == db.streams
  {
    hide JobsOf, Saved, SavedLocks, InsertAll, SnapshotRows;
  }

  /** A saved event is stored as it is, under its id or its position, at its sequence number or its position. */
  lemma SavedEventSays(event: EventRecord, idx: nat)
    ensures var row := SnapshotRow(event, idx);
            && row.record == event && row.eventType == event.eventType
            && (event.eventId != "" ==> row.eventId == event.eventId)
            && (event.eventId == "" ==> row.eventId == "event-" + Decimal(idx + 1))
            && (event.seqNo != 0 ==> row.seqNo == event.seqNo) && (event.seqNo == 0 ==> row.seqNo == idx + 1)
            && row.taskId.Some? && ShowsOr(row.taskId.value, event.taskId, "")
  {
  }

  /** After a report, saving what is stored writes a performer job for the task exactly if it has a process then. */
  lemma ReportDecidesJob(db: Db, c: RuntimeMutation, carried: Option<EventMutation>, stamp: Stamp,
      snapshot: Snapshot, now: string)
    requires WellKeyed(db.tasks) && c.taskId in db.tasks
    requires snapshot.registry.tasks == TasksInOrder(ApplyMutation(db, Runtime(c), carried, stamp).tasks)
    ensures JobKey(c.taskId, Performer) in ApplySave(ApplyMutation(db, Runtime(c), carried, stamp), snapshot, now).jobs
       <==> c.pid.Some? || (c.runtimeStatus !in {"idle", "phase_done", "failed", "stale"}
                            && db.tasks[c.taskId].payload.runtime.pid.Some?)
  {
    var after := ApplyMutation(db, Runtime(c), carried, stamp);
    hide ApplyMutation, JobsOf, Saved, TasksInOrder, SavedLocks, InsertAll, SnapshotRows, SavedCursors, WellKeyed,
         ShowsTask, FieldsReported, NothingElseReported, ClaimKey, DistinctTaskIds;
    ReportSays(db, c, carried, stamp);
    StoredMutation(db, Runtime(c), carried, stamp);
    StoredStaysWellKeyed(db, Runtime(c), carried, stamp);
    StoredIsNormal(after.tasks);
    DistinctIdsSave(TasksInOrder(after.tasks), now);
    JobsOfIff(TasksInOrder(after.tasks), now);
    RepeatedTransfers.StoredAsks(after.tasks, JobsOf(TasksInOrder(after.tasks), now).value,
        JobKey(c.taskId, Performer), now);
  }

  lemma StoredStaysWellKeyed(db: Db, m: Mutation, carried: Option<EventMutation>, stamp: Stamp)
    requires WellKeyed(db.tasks) && m.TaskId() in db.tasks
    ensures WellKeyed(ApplyMutation(db, m, carried, stamp).tasks)
  {
    MutationTables(db, m, carried, stamp);
    ChangedKeepsKey(db.tasks[m.TaskId()].payload, m);
    hide ApplyMutation, Upserted, ClaimKey;
  }

  // ---- what cursors and loads say ------------------------------------------------------

  /** A cursor move names the event in the column; a new row's payload says the same, an old row's stays. */
  lemma CursorMoveSays(db: Db, n: string, offset: nat, lastId: string, now: string)
    ensures var after := ApplyLog(db, SetCursor(n, offset, lastId, now));
            && after == db.(cursors := after.cursors) && after.cursors.Keys == db.cursors.Keys + {n}
            && (forall k | k in db.cursors && k != n :: after.cursors[k] == db.cursors[k])
            && after.cursors[n].lastEventId == Some(lastId)
            && (n in db.cursors ==> after.cursors[n].payload == db.cursors[n].payload)
            && (n !in db.cursors ==>
                  && after.cursors[n].payload.offset == offset && after.cursors[n].payload.updatedAt == Some(now)
                  && (lastId == "" ==> after.cursors[n].payload.lastEventId == None)
                  && (lastId != "" ==> after.cursors[n].payload.lastEventId == Some(lastId)))
  {
  }

  /** The last `limit` records of a snapshot, or all of them. */
  lemma RecentRecordsSay(log: seq<EventRow>, limit: nat)
    ensures var recent, sorted := LastRecords(log, limit), Ascending(log);
            && |sorted| == |log| && |recent| == (if limit <= |log| then limit else |log|)
            && forall i | 0 <= i < |recent| :: recent[i] == sorted[|log| - |recent| + i].record
  {
    hide Ascending;
    SortedLength(log);
  }

  lemma SortedLength(log: seq<EventRow>)
    ensures |Ascending(log)| == |log|
  {
    hide Ascending;
    assert |Ascending(log)| == |multiset(Ascending(log))| == |multiset(log)| == |log|;
  }

  /** The locks a load finds are the payloads of the lock rows, one for each resource that has one. */
  predicate ShowsLocks(locks: map<string, ResourceLock>, table: LockTable)
  {
    && (forall key | key in table && table[key].payload.Some? ::
          key.resource in locks && locks[key.resource] == table[key].payload.value)
    && (forall r | r in locks :: exists key | key in table && key.resource == r :: table[key].payload.Some?)
  }

  lemma PayloadsShowLocks(table: LockTable)
    requires Exclusive(table)
    ensures ShowsLocks(LockPayloads(table), table)
  {
  }

  /**
   A load returns what the tables hold, in the order of the ids, completed by the
   metadata: its locks only where the tables show none, its merged ids as well, its
   time and its extra members before the defaults. Metadata that still has tasks
   is all there is when the tables have none.
   */
  lemma LoadedRegistrySays(db: Db, now: string)
    requires Consistent(db)
    ensures var reg := LoadedRegistry(db, now);
            if db.tasks.Keys == {} && db.registryMeta.Some? && db.registryMeta.value.tasks != [] then
              reg == db.registryMeta.value
            else
              && |reg.tasks| == |db.tasks.Keys|
              && (forall t: Task :: t in reg.tasks <==> t.id in db.tasks && db.tasks[t.id].payload == t)
              && (forall i, j | 0 <= i < j < |reg.tasks| :: StringLe(reg.tasks[i].id, reg.tasks[j].id))
              && match db.registryMeta
                 case None =>
                   ShowsLocks(reg.resourceLocks, db.locks) && reg.externalMergedTaskIds == {}
                   && reg.updatedAt == Some(now)
                 case Some(meta) =>
                   && (if (forall key | key in db.locks :: db.locks[key].payload.None?) && meta.resourceLocks != map[]
                       then reg.resourceLocks == meta.resourceLocks else ShowsLocks(reg.resourceLocks, db.locks))
                   && reg.externalMergedTaskIds == meta.externalMergedTaskIds
                   && reg.updatedAt == (if meta.updatedAt.Some? then meta.updatedAt else Some(now))
                   && forall k | k in meta.extra :: k in reg.extra && reg.extra[k] == meta.extra[k]
  {
    hide TasksInOrder, LockPayloads, DistinctIds, WellKeyed, ShowsLocks, DEFAULT_EXTRA, Exclusive, WithMeta;
    TasksInOrderSay(db.tasks);
    PayloadsShowLocks(db.locks);
    NoPayloads(db.locks);
    if db.registryMeta.Some? { MetadataSays(TablesRegistry(db.tasks, db.locks, now), db.registryMeta.value); }
  }

  lemma MetadataSays(reg: TaskRegistry, meta: TaskRegistry)
    requires reg.externalMergedTaskIds == {}
    ensures var r := WithMeta(reg, meta);
            if reg.tasks == [] && meta.tasks != [] then r == meta
            else
              && r.tasks == reg.tasks && r.externalMergedTaskIds == meta.externalMergedTaskIds
              && r.resourceLocks == (if reg.resourceLocks == map[]
              && meta.resourceLocks != map[] then meta.resourceLocks
                                     else reg.resourceLocks)
              && r.updatedAt == (if meta.updatedAt.Some? then meta.updatedAt else reg.updatedAt)
              && forall k | k in meta.extra :: k in r.extra && r.extra[k] == meta.extra[k]
  {
    assert {} + meta.externalMergedTaskIds == meta.externalMergedTaskIds;
  }

  lemma NoPayloads(table: LockTable)
    requires Exclusive(table)
    ensures LockPayloads(table) == map[] <==> forall key | key in table :: table[key].payload.None?
  {
    if key :| key in table && table[key].payload.Some? { assert key.resource in LockPayloads(table); }
  }

  lemma SameTask(stored: TaskTable, t: Task, other: Task)
    requires t.id in stored && stored[t.id].payload == t && other.id == t.id && stored[other.id].payload == other
    ensures t == other
  {
  }

  lemma TasksInOrderSay(stored: TaskTable)
    requires WellKeyed(stored)
    ensures var ts := TasksInOrder(stored);
            && |ts| == |stored.Keys| && (ts == [] <==> stored.Keys == {})
            && (forall t: Task :: t in ts <==> t.id in stored && stored[t.id].payload == t)
            && forall i, j | 0 <= i < j < |ts| :: StringLe(ts[i].id, ts[j].id)
  {
    hide StringLe, WellKeyed, TasksInOrder, KeptIds, DistinctTaskIds, TasksById;
    var ts, ids := TasksInOrder(stored), Ordered(stored.Keys);
    forall i | 0 <= i < |ts| ensures ts[i].id == ids[i] && ts[i].id in stored && stored[ts[i].id].payload == ts[i] {
      InOrderAt(stored, i);
      assert ids[i] in ids;
    }
    forall t: Task | t.id in stored && stored[t.id].payload == t ensures t in ts {
      var i :| 0 <= i < |ids| && ids[i] == t.id;
      SameTask(stored, ts[i], t);
    }
  }
}

/**
 The `tasks` table and the two tables derived from it, `task_runtime` and
 `resource_locks`: the rows each operation writes, and why the derived tables
 agree with the task payloads.
 */
module TaskTables {
  import opened Wrappers
  import opened Text
  import opened Tasks

  /** A row of `tasks`; `payload` is the task `payload_json` encodes. */
  datatype TaskRow = TaskRow(
    state: string, title: string, priority: string, tool: string, payload: Task, updatedAt: string)

  datatype LockedResources = Raw(json: string) | Listed(resources: seq<string>)

  /** A row of `task_runtime`; its key, the claim id, is the key of the map holding it. */
  datatype RuntimeRow = RuntimeRow(
    taskId: string, runId: string, coordinatorEpoch: int, workflowState: string, runtimeStatus: string,
    phase: Option<string>, tool: Option<string>, worktreeSlotId: Option<string>, worktreePath: Option<string>,
    branch: Option<string>, baseBranch: Option<string>, pid: Option<int>, processGroupId: Option<int>,
    startedAt: Option<string>, updatedAt: string, lastHeartbeatAt: Option<string>, heartbeatSeq: int,
    leaseExpiresAt: Option<string>, attempt: int, lockedResources: LockedResources,
    lastErrorCode: Option<string>, lastErrorMessage: Option<string>, payload: TaskRuntime)

  /** The primary key of `resource_locks`. */
  datatype LockKey = LockKey(resource: string, claimId: string)

  /** A row of `resource_locks`; `payload` is the lock `payload_json` encodes, if it parses as one. */
  datatype LockRow = LockRow(
    taskId: string, acquiredAt: string, expiresAt: Option<string>, worktreePath: string, payload: Option<ResourceLock>,
    updatedAt: string)

  type TaskTable = map<string, TaskRow>
  type RuntimeTable = map<string, RuntimeRow>
  type LockTable = map<LockKey, LockRow>

  // ---- rows --------------------------------------------------------------

  function TaskRowOf(t: Task, updatedAt: string): TaskRow
  {
    TaskRow(t.state, t.title.GetOr(""), t.priority.GetOr(""), t.tool.GetOr(""), t, updatedAt)
  }

  /** The claim a task's runtime row and locks are filed under; an empty session id is taken as it is. */
  function ClaimKey(t: Task): string
  {
    if t.runtime.claimId.Some? && t.runtime.claimId.value != "" then t.runtime.claimId.value
    else t.runtime.activeSessionId.GetOr("unclaimed-" + t.id)
  }

  function RuntimeRowOf(t: Task, updatedAt: string): RuntimeRow
  {
    var r, w := t.runtime, t.worktree.GetOr(TaskWorktree(None, None, None, ""));
    RuntimeRow(
      t.id, r.runId.GetOr("-"), r.coordinatorEpoch.GetOr(0), t.state, r.status.GetOr("idle"),
      r.currentPhase, t.tool, r.worktreeSlotId, w.worktreePath, w.branch, w.baseBranch, r.pid, r.processGroupId,
      r.startedAt, updatedAt, r.lastHeartbeat, r.heartbeatSeq.GetOr(0), r.leaseExpiresAt, r.attempt.GetOr(0),
      if r.lockedResourcesJson.Some? then Raw(r.lockedResourcesJson.value) else Listed(t.exclusiveResources),
      r.lastErrorCode, Replacing(r.lastErrorMessage, r.lastError), r)
  }

  /** `upsert_task_runtime_row`: drop the task's row, then take the claim's row over. */
  function Upserted(runtime: RuntimeTable, t: Task, updatedAt: string): RuntimeTable
  {
    (map k | k in runtime && runtime[k].taskId != t.id :: runtime[k])[ClaimKey(t) := RuntimeRowOf(t, updatedAt)]
  }

  // ---- agreement ---------------------------------------------------------

  /** Each task row is filed under its payload's id and its columns copy the payload. */
  predicate WellKeyed(tasks: TaskTable)
  {
    forall id | id in tasks :: id != "" && tasks[id].payload.id == id
                            && tasks[id] == TaskRowOf(tasks[id].payload, tasks[id].updatedAt)
  }

  /** The row under a task's claim projects the task; its time of writing is its own. */
  predicate HasRow(runtime: RuntimeTable, t: Task)
  {
    ClaimKey(t) in runtime && runtime[ClaimKey(t)] == RuntimeRowOf(t, runtime[ClaimKey(t)].updatedAt)
  }

  /** One runtime row per task, under the task's claim, projecting the task's payload. */
  predicate RuntimeAgrees(tasks: TaskTable, runtime: RuntimeTable)
  {
    && (forall id | id in tasks :: HasRow(runtime, tasks[id].payload))
    && (forall k | k in runtime :: runtime[k].taskId in tasks && ClaimKey(tasks[runtime[k].taskId].payload) == k)
  }

  /** A mutation that keeps a task's id and claim keeps the tables in agreement. */
  lemma MutationKeepsAgreement(tasks: TaskTable, runtime: RuntimeTable, t: Task, now: string)
    requires WellKeyed(tasks) && RuntimeAgrees(tasks, runtime)
    requires t.id in tasks && ClaimKey(t) == ClaimKey(tasks[t.id].payload)
    ensures WellKeyed(tasks[t.id := TaskRowOf(t, now)])
    ensures RuntimeAgrees(tasks[t.id := TaskRowOf(t, now)], Upserted(runtime, t, now))
  {
    var tasks', runtime' := tasks[t.id := TaskRowOf(t, now)], Upserted(runtime, t, now);
    forall id | id in tasks' ensures HasRow(runtime', tasks'[id].payload) {
      if id != t.id {
        var p := tasks[id].payload;
        assert HasRow(runtime, p);
        assert runtime[ClaimKey(p)].taskId == id;
        assert HasRow(runtime, tasks[t.id].payload);
      }
    }
  }

  // ---- the save loop -----------------------------------------------------

  datatype Tables = Tables(tasks: TaskTable, runtime: RuntimeTable)

  predicate Unchanged(stored: TaskTable, t: Task) { t.id in stored && stored[t.id].payload == t }

  function RuntimeUpdatedAt(t: Task, now: string): string
  {
    t.runtime.extraUpdatedAt.GetOr(t.updatedAt.GetOr(now))
  }

  /** Ids of the tasks a snapshot keeps. */
  function KeptIds(ts: seq<Task>): set<string> { set i | 0 <= i < |ts| && ts[i].id != "" :: ts[i].id }

  /** The deletes before the loop: tasks the snapshot lacks, then runtime rows without a task. */
  function SaveStart(stored: TaskTable, runtime: RuntimeTable, ts: seq<Task>): Tables
  {
    var tasks := map id | id in stored && id in KeptIds(ts) :: stored[id];
    Tables(tasks, map k | k in runtime && runtime[k].taskId in tasks :: runtime[k])
  }

  /** One turn of the loop; `stored` is the table as it was read before the loop. */
  function SaveTask(stored: TaskTable, tables: Tables, t: Task, now: string): Tables
  {
    if t.id == "" || Unchanged(stored, t) then tables
    else Tables(tables.tasks[t.id := TaskRowOf(t, t.updatedAt.GetOr(now))],
                Upserted(tables.runtime, t, RuntimeUpdatedAt(t, now)))
  }

  function SaveTasks(stored: TaskTable, start: Tables, ts: seq<Task>, now: string): Tables
  {
    if ts == [] then start
    else SaveTask(stored, SaveTasks(stored, start, ts[..|ts| - 1], now), ts[|ts| - 1], now)
  }

  function Saved(stored: TaskTable, runtime: RuntimeTable, ts: seq<Task>, now: string): Tables
  {
    SaveTasks(stored, SaveStart(stored, runtime, ts), ts, now)
  }

  predicate DistinctTaskIds(ts: seq<Task>)
  {
    forall i, j | 0 <= i < j < |ts| && ts[i].id != "" :: ts[i].id != ts[j].id
  }

  predicate DistinctClaimKeys(ts: seq<Task>)
  {
    forall i, j | 0 <= i < j < |ts| && ts[i].id != "" && ts[j].id != "" :: ClaimKey(ts[i]) != ClaimKey(ts[j])
  }

  /** Position `i` holds its final row once the loop is past it, or if it had nothing to write. */
  predicate Settled(stored: TaskTable, ts: seq<Task>, i: nat, done: nat)
    requires i < |ts|
  {
    ts[i].id != "" && (i < done || Unchanged(stored, ts[i]))
  }

  /** What the loop has made of `tasks` after `done` turns. */
  ghost predicate TasksSoFar(stored: TaskTable, ts: seq<Task>, tasks: TaskTable, done: nat)
    requires done <= |ts|
  {
    && WellKeyed(tasks)
    && (forall i | 0 <= i < |ts| && Settled(stored, ts, i, done) ::
        ts[i].id in tasks && tasks[ts[i].id].payload == ts[i])
    && (forall id | id in tasks :: id in KeptIds(ts))
  }

  /**
   What the loop has made of `task_runtime` after `done` turns. The row of a
   changed task that is still to come may have been taken over by another
   task's claim, so nothing is said about where it is.
   */
  ghost predicate RuntimeSoFar(stored: TaskTable, ts: seq<Task>, runtime: RuntimeTable, done: nat)
    requires done <= |ts|
  {
    && (forall i | 0 <= i < |ts| && Settled(stored, ts, i, done) :: HasRow(runtime, ts[i]))
    && (forall k | k in runtime :: runtime[k].taskId in KeptIds(ts))
    && (forall k, i | k in runtime && 0 <= i < |ts| && Settled(stored, ts, i, done) && ts[i].id == runtime[k].taskId ::
          ClaimKey(ts[i]) == k)
  }

  lemma TasksTurn(stored: TaskTable, ts: seq<Task>, before: TaskTable, n: nat, at: string)
    requires n < |ts| && DistinctTaskIds(ts) && TasksSoFar(stored, ts, before, n) && ts[n].id != ""
    ensures TasksSoFar(stored, ts, before[ts[n].id := TaskRowOf(ts[n], at)], n + 1)
  {
    var after := before[ts[n].id := TaskRowOf(ts[n], at)];
    assert ts[n].id in KeptIds(ts);
    forall i | 0 <= i < |ts| && Settled(stored, ts, i, n + 1)
      ensures ts[i].id in after && after[ts[i].id].payload == ts[i]
    {
      if i != n {
        assert Settled(stored, ts, i, n);
        assert ts[i].id != ts[n].id;
      }
    }
  }

  lemma StartTasks(stored: TaskTable, runtime: RuntimeTable, ts: seq<Task>)
    requires WellKeyed(stored) && DistinctTaskIds(ts)
    ensures TasksSoFar(stored, ts, SaveStart(stored, runtime, ts).tasks, 0)
  {
    forall i | 0 <= i < |ts| && Settled(stored, ts, i, 0) ensures ts[i].id in SaveStart(stored, runtime, ts).tasks {
      assert ts[i].id in KeptIds(ts);
    }
  }

  /** A task without an id, or unchanged, needs no turn. */
  lemma SkippedTurn(stored: TaskTable, ts: seq<Task>, before: TaskTable, n: nat)
    requires n < |ts| && TasksSoFar(stored, ts, before, n) && (ts[n].id == "" || Unchanged(stored, ts[n]))
    ensures TasksSoFar(stored, ts, before, n + 1)
  {
    hide WellKeyed;
    forall i | 0 <= i < |ts| && Settled(stored, ts, i, n + 1) ensures Settled(stored, ts, i, n) {}
    hide Settled;
  }

  lemma {:induction false} SaveLoopTasks(
      stored: TaskTable, runtime: RuntimeTable, ts: seq<Task>, done: nat, now: string)
    requires done <= |ts| && WellKeyed(stored) && DistinctTaskIds(ts)
    ensures TasksSoFar(stored, ts, SaveTasks(stored, SaveStart(stored, runtime, ts), ts[..done], now).tasks, done)
  {
    hide TasksSoFar, WellKeyed, Unchanged, DistinctTaskIds, SaveStart, TaskRowOf, Upserted;
    if done == 0 {
      StartTasks(stored, runtime, ts);
    } else {
      SaveLoopTasks(stored, runtime, ts, done - 1, now);
      assert ts[..done][..done - 1] == ts[..done - 1];
      var t := ts[done - 1];
      var before := SaveTasks(stored, SaveStart(stored, runtime, ts), ts[..done - 1], now).tasks;
      if t.id != "" && !Unchanged(stored, t) {
        TasksTurn(stored, ts, before, done - 1, t.updatedAt.GetOr(now));
      } else {
        SkippedTurn(stored, ts, before, done - 1);
      }
    }
  }

  /** The deletes leave the rows of unchanged tasks, and only rows of tasks the snapshot keeps. */
  lemma SaveStartRuntime(stored: TaskTable, runtime: RuntimeTable, ts: seq<Task>)
    requires WellKeyed(stored) && RuntimeAgrees(stored, runtime)
    ensures RuntimeSoFar(stored, ts, SaveStart(stored, runtime, ts).runtime, 0)
  {
    var start := SaveStart(stored, runtime, ts);
    forall i | 0 <= i < |ts| && Settled(stored, ts, i, 0) ensures HasRow(start.runtime, ts[i]) {
      assert ts[i].id in KeptIds(ts);
      assert stored[ts[i].id].payload == ts[i];
      assert HasRow(runtime, ts[i]);
    }
  }

  lemma {:induction false} SaveLoopRuntime(stored: TaskTable, runtime: RuntimeTable, ts: seq<Task>, done: nat,
      now: string)
    requires done <= |ts| && WellKeyed(stored) && RuntimeAgrees(stored, runtime)
    requires DistinctTaskIds(ts) && DistinctClaimKeys(ts)
    ensures RuntimeSoFar(stored, ts, SaveTasks(stored, SaveStart(stored, runtime, ts), ts[..done], now).runtime, done)
  {
    var start := SaveStart(stored, runtime, ts);
    if done == 0 {
      SaveStartRuntime(stored, runtime, ts);
    } else {
      SaveLoopRuntime(stored, runtime, ts, done - 1, now);
      hide RuntimeSoFar, Upserted, TaskRowOf;
      assert ts[..done][..done - 1] == ts[..done - 1];
      var t, before := ts[done - 1], SaveTasks(stored, start, ts[..done - 1], now).runtime;
      if t.id != "" && !Unchanged(stored, t) {
        SaveTurn(stored, ts, before, done - 1, RuntimeUpdatedAt(t, now));
      } else {
        IdleTurn(stored, ts, before, done - 1);
      }
    }
  }

  /** A turn that writes nothing settles nothing. */
  lemma IdleTurn(stored: TaskTable, ts: seq<Task>, before: RuntimeTable, n: nat)
    requires n < |ts| && RuntimeSoFar(stored, ts, before, n) && (ts[n].id == "" || Unchanged(stored, ts[n]))
    ensures RuntimeSoFar(stored, ts, before, n + 1)
  {
    hide HasRow;
    assert forall i | 0 <= i < |ts| && Settled(stored, ts, i, n + 1) :: Settled(stored, ts, i, n);
  }

  /** The turn that matters: a changed task may take over the row of a task that is still to come. */
  lemma SaveTurn(stored: TaskTable, ts: seq<Task>, before: RuntimeTable, n: nat, at: string)
    requires n < |ts| && DistinctTaskIds(ts) && DistinctClaimKeys(ts)
    requires RuntimeSoFar(stored, ts, before, n)
    requires ts[n].id != "" && !Unchanged(stored, ts[n])
    ensures RuntimeSoFar(stored, ts, Upserted(before, ts[n], at), n + 1)
  {
    var t, after := ts[n], Upserted(before, ts[n], at);
    assert t.id in KeptIds(ts);
    forall i | 0 <= i < |ts| && Settled(stored, ts, i, n + 1) ensures HasRow(after, ts[i]) {
      if i != n {
        assert Settled(stored, ts, i, n);
        assert HasRow(before, ts[i]) && ts[i].id != t.id;
        assert ClaimKey(ts[i]) != ClaimKey(t);
      }
    }
    forall k, i | k in after && 0 <= i < |ts| && Settled(stored, ts, i, n + 1) && ts[i].id == after[k].taskId
      ensures ClaimKey(ts[i]) == k
    {
      if k != ClaimKey(t) {
        assert after[k] == before[k] && before[k].taskId != t.id;
        assert Settled(stored, ts, i, n);
      } else {
        assert after[k].taskId == t.id;
      }
    }
  }

  /** A position of the snapshot for each kept id. */
  lemma KeptIdPosition(ts: seq<Task>, id: string) returns (i: nat)
    requires id in KeptIds(ts)
    ensures i < |ts| && ts[i].id == id && id != ""
  {
    i :| 0 <= i < |ts| && ts[i].id != "" && ts[i].id == id;
  }

  /** A save stores exactly the snapshot's tasks, each under its id. */
  lemma SaveStoresTasks(stored: TaskTable, runtime: RuntimeTable, ts: seq<Task>, now: string)
    requires WellKeyed(stored) && DistinctTaskIds(ts)
    ensures var tasks := Saved(stored, runtime, ts, now).tasks;
            && WellKeyed(tasks) && tasks.Keys == KeptIds(ts)
            && forall i | 0 <= i < |ts| && ts[i].id != "" :: tasks[ts[i].id].payload == ts[i]
  {
    SaveLoopTasks(stored, runtime, ts, |ts|, now);
    assert ts[..|ts|] == ts;
    var tasks := Saved(stored, runtime, ts, now).tasks;
    forall id | id in KeptIds(ts) ensures id in tasks {
      var i := KeptIdPosition(ts, id);
      assert Settled(stored, ts, i, |ts|);
    }
    forall i | 0 <= i < |ts| && ts[i].id != "" ensures tasks[ts[i].id].payload == ts[i] {
      assert Settled(stored, ts, i, |ts|);
    }
  }

  /**
   From tables in agreement, a save of tasks with distinct ids ends in agreement
   if and only if no two of them are filed under the same claim.
   */
  lemma SaveAgreesIffClaimsDistinct(stored: TaskTable, runtime: RuntimeTable, ts: seq<Task>, now: string)
    requires WellKeyed(stored) && RuntimeAgrees(stored, runtime) && DistinctTaskIds(ts)
    ensures var saved := Saved(stored, runtime, ts, now);
            RuntimeAgrees(saved.tasks, saved.runtime) <==> DistinctClaimKeys(ts)
  {
    var saved := Saved(stored, runtime, ts, now);
    SaveStoresTasks(stored, runtime, ts, now);
    hide RuntimeAgrees, RuntimeSoFar, WellKeyed;
    if DistinctClaimKeys(ts) {
      SaveLoopRuntime(stored, runtime, ts, |ts|, now);
      assert ts[..|ts|] == ts;
      SettledAgrees(stored, ts, saved.tasks, saved.runtime);
    } else if RuntimeAgrees(saved.tasks, saved.runtime) {
      AgreementSeparatesClaims(saved.tasks, saved.runtime, ts);
    }
  }

  /** Once every position is settled the tables agree. */
  lemma SettledAgrees(stored: TaskTable, ts: seq<Task>, tasks: TaskTable, runtime: RuntimeTable)
    requires RuntimeSoFar(stored, ts, runtime, |ts|) && tasks.Keys == KeptIds(ts)
    requires forall i | 0 <= i < |ts| && ts[i].id != "" :: ts[i].id in tasks && tasks[ts[i].id].payload == ts[i]
    ensures RuntimeAgrees(tasks, runtime)
  {
    hide HasRow, ClaimKey;
    forall id | id in tasks ensures HasRow(runtime, tasks[id].payload) {
      var i := KeptIdPosition(ts, id);
      assert Settled(stored, ts, i, |ts|);
    }
    forall k | k in runtime ensures runtime[k].taskId in tasks && ClaimKey(tasks[runtime[k].taskId].payload) == k {
      var i := KeptIdPosition(ts, runtime[k].taskId);
      assert Settled(stored, ts, i, |ts|);
    }
  }

  /** Two tasks under one claim would share a runtime row, which can name only one of them. */
  lemma AgreementSeparatesClaims(tasks: TaskTable, runtime: RuntimeTable, ts: seq<Task>)
    requires RuntimeAgrees(tasks, runtime) && DistinctTaskIds(ts)
    requires forall i | 0 <= i < |ts| && ts[i].id != "" :: ts[i].id in tasks && tasks[ts[i].id].payload == ts[i]
    ensures DistinctClaimKeys(ts)
  {
    forall i, j | 0 <= i < j < |ts| && ts[i].id != "" && ts[j].id != "" ensures ClaimKey(ts[i]) != ClaimKey(ts[j]) {
      assert HasRow(runtime, ts[i]) && HasRow(runtime, ts[j]);
    }
  }

  // ---- incremental save and full rewrite ---------------------------------

  /** Delete every task, then insert the snapshot's tasks one after the other. */
  function Rewritten(ts: seq<Task>, now: string): TaskTable
  {
    if ts == [] then map[] else
      var before, t := Rewritten(ts[..|ts| - 1], now), ts[|ts| - 1];
      if t.id == "" then before else before[t.id := TaskRowOf(t, t.updatedAt.GetOr(now))]
  }

  function Payloads(tasks: TaskTable): map<string, Task> { map id | id in tasks :: tasks[id].payload }

  /** The last task of the snapshot with this id. */
  function LastWithId(ts: seq<Task>, id: string): Option<Task>
  {
    if ts == [] then None
    else if ts[|ts| - 1].id == id then Some(ts[|ts| - 1])
    else LastWithId(ts[..|ts| - 1], id)
  }

  /** The last task of the snapshot with this id that the loop writes. */
  function LastWritten(stored: TaskTable, ts: seq<Task>, id: string): Option<Task>
  {
    if ts == [] then None
    else if ts[|ts| - 1].id == id && !Unchanged(stored, ts[|ts| - 1]) then Some(ts[|ts| - 1])
    else LastWritten(stored, ts[..|ts| - 1], id)
  }

  lemma {:induction false} RewrittenHoldsLast(ts: seq<Task>, now: string, id: string)
    requires id != ""
    ensures id in Rewritten(ts, now) <==> LastWithId(ts, id).Some?
    ensures id in Rewritten(ts, now) ==> Rewritten(ts, now)[id].payload == LastWithId(ts, id).value
    ensures "" !in Rewritten(ts, now)
  {
    if ts != [] { RewrittenHoldsLast(ts[..|ts| - 1], now, id); }
  }

  lemma {:induction false} SaveHoldsLastWritten(stored: TaskTable, start: Tables, ts: seq<Task>, now: string,
      id: string)
    requires id != ""
    ensures var tasks := SaveTasks(stored, start, ts, now).tasks;
            && (id in tasks <==> id in start.tasks || LastWritten(stored, ts, id).Some?)
            && (LastWritten(stored, ts, id).Some? ==> tasks[id].payload == LastWritten(stored, ts, id).value)
            && (LastWritten(stored, ts, id).None? && id in start.tasks ==> tasks[id] == start.tasks[id])
            && ("" !in start.tasks ==> "" !in tasks)
  {
    if ts != [] { SaveHoldsLastWritten(stored, start, ts[..|ts| - 1], now, id); }
  }

  lemma {:induction false} LastWithIdExists(ts: seq<Task>, id: string)
    requires id != ""
    ensures LastWithId(ts, id).Some? <==> id in KeptIds(ts)
    ensures LastWithId(ts, id).Some? ==> LastWithId(ts, id).value.id == id
  {
    if ts != [] {
      var front := ts[..|ts| - 1];
      LastWithIdExists(front, id);
      if id in KeptIds(front) {
        var i := KeptIdPosition(front, id);
        assert ts[i].id == id;
      }
      if id in KeptIds(ts) {
        var i := KeptIdPosition(ts, id);
        assert i < |front| ==> front[i].id == id;
      }
    }
  }

  /** The last task with an id equals its stored row while an earlier task with that id does not. */
  predicate SkipsLast(stored: TaskTable, ts: seq<Task>, id: string)
  {
    && LastWithId(ts, id).Some? && Unchanged(stored, LastWithId(ts, id).value)
    && exists i | 0 <= i < |ts| :: ts[i].id == id && !Unchanged(stored, ts[i])
  }

  lemma {:induction false} WritesSome(stored: TaskTable, ts: seq<Task>, id: string)
    ensures LastWritten(stored, ts, id).Some?
        <==> exists i | 0 <= i < |ts| :: ts[i].id == id && !Unchanged(stored, ts[i])
  {
    if ts != [] {
      var front := ts[..|ts| - 1];
      WritesSome(stored, front, id);
      assert forall i | 0 <= i < |front| :: front[i] == ts[i];
    }
  }

  lemma {:induction false} LastWrittenIsLast(stored: TaskTable, ts: seq<Task>, id: string)
    requires LastWithId(ts, id).Some?
    ensures !Unchanged(stored, LastWithId(ts, id).value) ==> LastWritten(stored, ts, id) == LastWithId(ts, id)
    ensures LastWritten(stored, ts, id).Some? ==>
              LastWritten(stored, ts, id).value.id == id && !Unchanged(stored, LastWritten(stored, ts, id).value)
    ensures LastWritten(stored, ts, id).None? ==> Unchanged(stored, LastWithId(ts, id).value)
  {
    if ts[|ts| - 1].id != id {
      LastWrittenIsLast(stored, ts[..|ts| - 1], id);
    } else {
      LastWrittenWrites(stored, ts[..|ts| - 1], id);
    }
  }

  lemma {:induction false} LastWrittenWrites(stored: TaskTable, ts: seq<Task>, id: string)
    ensures LastWritten(stored, ts, id).Some? ==>
              LastWritten(stored, ts, id).value.id == id && !Unchanged(stored, LastWritten(stored, ts, id).value)
  {
    if ts != [] { LastWrittenWrites(stored, ts[..|ts| - 1], id); }
  }

  lemma IncrementalRowIsRewrittenIff(stored: TaskTable, runtime: RuntimeTable, ts: seq<Task>, now: string, id: string)
    requires WellKeyed(stored) && id != ""
    ensures var inc, full := Saved(stored, runtime, ts, now).tasks, Rewritten(ts, now);
            && (id in inc <==> id in KeptIds(ts)) && (id in full <==> id in KeptIds(ts))
            && (id in KeptIds(ts) ==> (inc[id].payload == full[id].payload <==> !SkipsLast(stored, ts, id)))
  {
    RewrittenHoldsLast(ts, now, id);
    SaveHoldsLastWritten(stored, SaveStart(stored, runtime, ts), ts, now, id);
    LastWithIdExists(ts, id);
    WritesSome(stored, ts, id);
    if id in KeptIds(ts) {
      LastWrittenIsLast(stored, ts, id);
    } else if LastWritten(stored, ts, id).Some? {
      WrittenIsKept(stored, ts, id);
    }
  }

  /**
   The incremental save leaves the payloads a full rewrite would leave, if and
   only if it never skips the last task with an id after writing an earlier one.
   */
  lemma IncrementalIsRewriteIff(stored: TaskTable, runtime: RuntimeTable, ts: seq<Task>, now: string)
    requires WellKeyed(stored)
    ensures Payloads(Saved(stored, runtime, ts, now).tasks) == Payloads(Rewritten(ts, now))
       <==> !(exists id | id in KeptIds(ts) :: SkipsLast(stored, ts, id))
  {
    var inc, full := Saved(stored, runtime, ts, now).tasks, Rewritten(ts, now);
    RewrittenHoldsLast(ts, now, "x");
    SaveHoldsLastWritten(stored, SaveStart(stored, runtime, ts), ts, now, "x");
    forall id | id != ""
      ensures (id in inc <==> id in KeptIds(ts)) && (id in full <==> id in KeptIds(ts))
      ensures id in KeptIds(ts) ==> (inc[id].payload == full[id].payload <==> !SkipsLast(stored, ts, id))
    {
      IncrementalRowIsRewrittenIff(stored, runtime, ts, now, id);
    }
    SamePayloadsIff(inc, full, KeptIds(ts));
  }

  /** Two tasks with one id, the second as it is stored: the incremental save keeps the first, a rewrite the second. */
  lemma DuplicateIdsBreakTheSave(t: Task, now: string)
    requires t.id != "" && t.state != "blocked"
    ensures var stored := map[t.id := TaskRowOf(t, now)];
            var first := t.(state := "blocked");
            var saved, rewritten := Saved(stored, map[], [first, t], now).tasks, Rewritten([first, t], now);
            && t.id in saved && saved[t.id].payload == first
            && t.id in rewritten && rewritten[t.id].payload == t
  {
    var stored := map[t.id := TaskRowOf(t, now)];
    var first := t.(state := "blocked");
    var ts, start := [first, t], SaveStart(stored, map[], [first, t]);
    assert ts[..1] == [first] && [first][..0] == [];
    assert SaveTasks(stored, start, [first], now) == SaveTask(stored, SaveTasks(stored, start, [], now), first, now);
    assert Saved(stored, map[], ts, now) == SaveTask(stored, SaveTasks(stored, start, [first], now), t, now);
    assert Rewritten([first], now).Keys == {t.id};
  }

  lemma SamePayloadsIff(a: TaskTable, b: TaskTable, keys: set<string>)
    requires a.Keys == keys && b.Keys == keys
    ensures Payloads(a) == Payloads(b) <==> forall id | id in keys :: a[id].payload == b[id].payload
  {
    if Payloads(a) == Payloads(b) {
      forall id | id in keys ensures a[id].payload == b[id].payload {
        assert Payloads(a)[id] == Payloads(b)[id];
      }
    }
  }

  lemma {:induction false} WrittenIsKept(stored: TaskTable, ts: seq<Task>, id: string)
    requires id != "" && LastWritten(stored, ts, id).Some?
    ensures id in KeptIds(ts)
  {
    if ts[|ts| - 1].id != id || Unchanged(stored, ts[|ts| - 1]) {
      WrittenIsKept(stored, ts[..|ts| - 1], id);
      var i := KeptIdPosition(ts[..|ts| - 1], id);
      assert ts[i].id == id;
    }
  }

  /** The row stored for an unchanged task has the time that a rewrite would give it. */
  predicate KeepsTime(stored: TaskTable, t: Task, now: string)
    requires Unchanged(stored, t)
  {
    stored[t.id].updatedAt == t.updatedAt.GetOr(now)
  }

  /**
   With distinct ids the two saves leave the same table, times and all, if and
   only if every task that is skipped is stored with the time a rewrite would
   give it.
   */
  lemma DistinctIdsRewriteIff(stored: TaskTable, runtime: RuntimeTable, ts: seq<Task>, now: string)
    requires WellKeyed(stored) && DistinctTaskIds(ts)
    ensures Saved(stored, runtime, ts, now).tasks == Rewritten(ts, now)
       <==> forall i | 0 <= i < |ts| && ts[i].id != "" && Unchanged(stored, ts[i]) :: KeepsTime(stored, ts[i], now)
  {
    var inc, full := Saved(stored, runtime, ts, now).tasks, Rewritten(ts, now);
    SaveStoresTasks(stored, runtime, ts, now);
    RewrittenKeys(ts, now);
    hide Saved, Rewritten, WellKeyed, TaskRowOf;
    forall i | 0 <= i < |ts| && ts[i].id != ""
      ensures ts[i].id in inc && ts[i].id in full
      ensures inc[ts[i].id] == full[ts[i].id] <==> Unchanged(stored, ts[i]) ==> KeepsTime(stored, ts[i], now)
    {
      SameRowIff(stored, runtime, ts, now, i);
    }
    forall id | id in inc ensures exists i | 0 <= i < |ts| :: ts[i].id == id != "" {
      var i := KeptIdPosition(ts, id);
    }
    hide Unchanged;
  }

  lemma RewrittenKeys(ts: seq<Task>, now: string)
    ensures Rewritten(ts, now).Keys == KeptIds(ts)
  {
    RewrittenHoldsLast(ts, now, "x");
    forall id | id != "" ensures id in Rewritten(ts, now) <==> id in KeptIds(ts) {
      LastWithIdExists(ts, id);
      RewrittenHoldsLast(ts, now, id);
    }
  }

  lemma SameRowIff(stored: TaskTable, runtime: RuntimeTable, ts: seq<Task>, now: string, i: nat)
    requires WellKeyed(stored) && DistinctTaskIds(ts) && i < |ts| && ts[i].id != ""
    ensures var inc, full := Saved(stored, runtime, ts, now).tasks, Rewritten(ts, now);
            && ts[i].id in inc && ts[i].id in full
            && (inc[ts[i].id] == full[ts[i].id] <==> Unchanged(stored, ts[i]) ==> KeepsTime(stored, ts[i], now))
  {
    var start := SaveStart(stored, runtime, ts);
    assert Unchanged(stored, ts[i]) ==> ts[i].id in start.tasks && start.tasks[ts[i].id] == stored[ts[i].id];
    RewrittenRow(ts, now, i);
    SavedRow(stored, start, ts, now, i);
  }

  /** A task without a time of its own, saved again as it is: the save keeps the old time, a rewrite writes the new. */
  lemma OldTimeIsKept(t: Task, before: string, now: string)
    requires t.id != "" && t.updatedAt.None? && before != now
    ensures var stored := map[t.id := TaskRowOf(t, before)];
            && WellKeyed(stored) && DistinctTaskIds([t])
            && Saved(stored, map[], [t], now).tasks == map[t.id := TaskRowOf(t, before)]
            && Rewritten([t], now) == map[t.id := TaskRowOf(t, now)]
            && TaskRowOf(t, before) != TaskRowOf(t, now)
  {
    var stored := map[t.id := TaskRowOf(t, before)];
    assert [t][..0] == [];
    assert SaveStart(stored, map[], [t]).tasks == stored by { assert [t][0].id in KeptIds([t]); }
    assert Saved(stored, map[], [t], now)
        == SaveTask(stored, SaveTasks(stored, SaveStart(stored, map[], [t]), [], now), t, now);
  }

  /** Rows of tasks that have a time carry it. */
  predicate TimesCarried(tasks: TaskTable)
  {
    forall id | id in tasks && tasks[id].payload.updatedAt.Some? ::
        tasks[id].updatedAt == tasks[id].payload.updatedAt.value
  }

  lemma {:induction false} SaveCarriesTimes(stored: TaskTable, start: Tables, ts: seq<Task>, now: string)
    requires TimesCarried(start.tasks)
    ensures TimesCarried(SaveTasks(stored, start, ts, now).tasks)
  {
    if ts != [] { SaveCarriesTimes(stored, start, ts[..|ts| - 1], now); }
  }

  /** So tasks that have a time are never the ones that keep the save from being a rewrite. */
  lemma TimedTasksKeepTime(stored: TaskTable, ts: seq<Task>, i: nat, now: string)
    requires TimesCarried(stored) && i < |ts| && Unchanged(stored, ts[i]) && ts[i].updatedAt.Some?
    ensures KeepsTime(stored, ts[i], now)
  {
  }

  lemma {:induction false} RewrittenRow(ts: seq<Task>, now: string, i: nat)
    requires i < |ts| && ts[i].id != "" && DistinctTaskIds(ts)
    ensures ts[i].id in Rewritten(ts, now)
    ensures Rewritten(ts, now)[ts[i].id] == TaskRowOf(ts[i], ts[i].updatedAt.GetOr(now))
  {
    if i < |ts| - 1 { RewrittenRow(ts[..|ts| - 1], now, i); }
  }

  lemma {:induction false} SavedRow(stored: TaskTable, start: Tables, ts: seq<Task>, now: string, i: nat)
    requires i < |ts| && ts[i].id != "" && DistinctTaskIds(ts)
    requires Unchanged(stored, ts[i]) ==> ts[i].id in start.tasks
    ensures var tasks := SaveTasks(stored, start, ts, now).tasks;
            && ts[i].id in tasks
            && tasks[ts[i].id] == if Unchanged(stored, ts[i]) then start.tasks[ts[i].id]
                else TaskRowOf(ts[i], ts[i].updatedAt.GetOr(now))
  {
    if i < |ts| - 1 {
      SavedRow(stored, start, ts[..|ts| - 1], now, i);
    } else if Unchanged(stored, ts[i]) {
      OtherRowsKept(stored, start, ts[..i], now, ts[i].id);
    }
  }

  lemma {:induction false} OtherRowsKept(stored: TaskTable, start: Tables, ts: seq<Task>, now: string, id: string)
    requires id in start.tasks && forall j | 0 <= j < |ts| :: ts[j].id != id
    ensures var tasks := SaveTasks(stored, start, ts, now).tasks; id in tasks && tasks[id] == start.tasks[id]
  {
    if ts != [] { OtherRowsKept(stored, start, ts[..|ts| - 1], now, id); }
  }

  // ---- resource locks ----------------------------------------------------

  predicate IsActiveState(state: string)
  {
    state in {"claimed", "in_progress", "pr_open", "changes_requested", "queued"}
  }

  /** A task whose listed resources are locked. */
  predicate HoldsLocks(t: Task) { IsActiveState(t.state) && t.worktree.Some? && t.id != "" }

  function Claimants(tasks: TaskTable, resource: string): set<string>
  {
    set id | id in tasks && HoldsLocks(tasks[id].payload) && resource in tasks[id].payload.exclusiveResources
  }

  function LockedResourceNames(tasks: TaskTable): set<string>
  {
    set id, r
      | id in tasks && HoldsLocks(tasks[id].payload) && r in tasks[id].payload.exclusiveResources && r != "" :: r
  }

  /** The task that gets a contended resource: the first in id order. */
  function Holder(tasks: TaskTable, resource: string): Option<string>
  {
    if resource != "" && Claimants(tasks, resource) != {} then Some(Least(Claimants(tasks, resource))) else None
  }

  function LockOf(t: Task, now: string): ResourceLock
  {
    ResourceLock(
      t.id, ClaimKey(t), t.worktree.GetOr(TaskWorktree(None, None, None, "")).worktreePath.GetOr(""),
      if t.claimedAt.GetOr("") != "" then t.claimedAt.value else now, t.runtime.leaseExpiresAt, "")
  }

  /** An empty worktree path is written as a null, which no longer parses as a lock. */
  function LockRowOf(t: Task, now: string): LockRow
  {
    var lock := LockOf(t, now);
    var payload := if lock.worktreePath == "" then None else Some(lock);
    LockRow(t.id, lock.lockedAt, lock.expiresAt, lock.worktreePath, payload, now)
  }

  function LockKeys(tasks: TaskTable): set<LockKey>
  {
    set r | r in LockedResourceNames(tasks) && Holder(tasks, r).Some? ::
      LockKey(r, ClaimKey(tasks[Holder(tasks, r).value].payload))
  }

  /** One lock per contended resource, as `recompute_resource_locks` leaves the table. */
  function LocksOf(tasks: TaskTable, now: string): (locks: LockTable)
  {
    map key | key in LockKeys(tasks) && Holder(tasks, key.resource).Some? ::
      LockRowOf(tasks[Holder(tasks, key.resource).value].payload, now)
  }

  /** Who holds each resource, and under which claim, worktree and lease; the times of locking are left out. */
  datatype Holding = Holding(taskId: string, claimId: string, worktreePath: string, expiresAt: Option<string>)

  function HoldingOf(t: Task): Holding
  {
    Holding(t.id, ClaimKey(t), t.worktree.GetOr(TaskWorktree(None, None, None, "")).worktreePath.GetOr(""),
        t.runtime.leaseExpiresAt)
  }

  /** At most one lock per resource. */
  predicate Exclusive(locks: LockTable)
  {
    forall a, b | a in locks && b in locks && a.resource == b.resource :: a == b
  }

  lemma LockedNames(tasks: TaskTable, r: string)
    ensures r in LockedResourceNames(tasks) <==> Holder(tasks, r).Some?
  {
    if r in LockedResourceNames(tasks) {
      var id :| id in tasks && HoldsLocks(tasks[id].payload) && r in tasks[id].payload.exclusiveResources;
      assert id in Claimants(tasks, r);
    }
    if Holder(tasks, r).Some? {
      assert Least(Claimants(tasks, r)) in Claimants(tasks, r);
    }
  }

  /** Every lock row is the lock of the resource's holder, and every holder has its lock. */
  ghost predicate LocksAgree(tasks: TaskTable, locks: LockTable)
  {
    && (forall key | key in locks ::
          var holder := Holder(tasks, key.resource);
          holder.Some? && HoldingOf(tasks[holder.value].payload)
                       == Holding(locks[key].taskId, key.claimId, locks[key].worktreePath, locks[key].expiresAt))
    && (forall r | Holder(tasks, r).Some? :: LockKey(r, ClaimKey(tasks[Holder(tasks, r).value].payload)) in locks)
  }

  /** What locking means to a task: the resources it gets are those it lists and no active task before it lists. */
  lemma HolderIsFirstClaimant(tasks: TaskTable, id: string, r: string)
    requires WellKeyed(tasks)
    ensures Holder(tasks, r) == Some(id) <==>
              && r != "" && id in tasks && HoldsLocks(tasks[id].payload) && r in tasks[id].payload.exclusiveResources
              && forall other | other in tasks && HoldsLocks(tasks[other].payload)
              && r in tasks[other].payload.exclusiveResources ::
                   StringLe(id, other)
  {
    if id in Claimants(tasks, r) && forall other | other in Claimants(tasks, r) :: StringLe(id, other) {
      LeastIsUnique(id, Least(Claimants(tasks, r)), Claimants(tasks, r));
    }
  }

  lemma RecomputedLocksAgree(tasks: TaskTable, now: string)
    requires WellKeyed(tasks)
    ensures LocksAgree(tasks, LocksOf(tasks, now))
    ensures Exclusive(LocksOf(tasks, now))
  {
    forall r | Holder(tasks, r).Some? ensures r in LockedResourceNames(tasks) { LockedNames(tasks, r); }
  }

  lemma AgreeingLocksAreExclusive(tasks: TaskTable, locks: LockTable)
    requires WellKeyed(tasks) && LocksAgree(tasks, locks)
    ensures Exclusive(locks)
    ensures forall r :: (exists c :: LockKey(r, c) in locks) <==> Holder(tasks, r).Some?
  {
    forall r | Holder(tasks, r).Some? ensures exists c :: LockKey(r, c) in locks {
      assert LockKey(r, ClaimKey(tasks[Holder(tasks, r).value].payload)) in locks;
    }
  }

  /** `t` asks for the same locks, under the same claim, as the task it replaces. */
  predicate SameLocking(t: Task, before: Task)
  {
    && HoldingOf(t) == HoldingOf(before) && (HoldsLocks(t) <==> HoldsLocks(before))
    && t.exclusiveResources == before.exclusiveResources
  }

  lemma SameLockingSameHolder(tasks: TaskTable, t: Task, now: string, r: string)
    requires t.id in tasks && SameLocking(t, tasks[t.id].payload)
    ensures Holder(tasks[t.id := TaskRowOf(t, now)], r) == Holder(tasks, r)
  {
    assert Claimants(tasks[t.id := TaskRowOf(t, now)], r) == Claimants(tasks, r);
  }

  /** A mutation that leaves state, worktree, resources, claim and lease alone leaves the locks in agreement. */
  lemma MutationKeepsLocks(tasks: TaskTable, locks: LockTable, t: Task, now: string)
    requires LocksAgree(tasks, locks) && t.id in tasks && SameLocking(t, tasks[t.id].payload)
    ensures LocksAgree(tasks[t.id := TaskRowOf(t, now)], locks)
  {
    var tasks' := tasks[t.id := TaskRowOf(t, now)];
    forall r
      ensures Holder(tasks', r) == Holder(tasks, r)
      ensures Holder(tasks, r).Some? ==>
                HoldingOf(tasks'[Holder(tasks, r).value].payload) == HoldingOf(tasks[Holder(tasks, r).value].payload)
    {
      SameLockingSameHolder(tasks, t, now, r);
    }
    forall r | Holder(tasks', r).Some? ensures LockKey(r, ClaimKey(tasks'[Holder(tasks', r).value].payload)) in locks {
      assert LockKey(r, ClaimKey(tasks[Holder(tasks, r).value].payload)) in locks;
    }
  }

  /** When the holder of a resource stops being active, the next claimant in id order gets it. */
  lemma ReleasedResourcePasses(tasks: TaskTable, t: Task, r: string, now: string)
    requires WellKeyed(tasks) && Holder(tasks, r) == Some(t.id) && t.id in tasks && !HoldsLocks(t)
    ensures var others := Claimants(tasks, r) - {t.id};
            Holder(tasks[t.id := TaskRowOf(t, now)], r) == if others == {} then None else Some(Least(others))
  {
    assert Claimants(tasks[t.id := TaskRowOf(t, now)], r) == Claimants(tasks, r) - {t.id};
  }
}

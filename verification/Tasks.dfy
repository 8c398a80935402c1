/**
 The task registry as values, and what each storage mutation does to a task.
 Members of the JSON objects that no storage operation reads are kept together
 in a `rest` field.
 */
module Tasks {
  import opened Wrappers

  datatype SloWarning = SloWarning(metric: string, threshold: int, value: int, warnedAt: string, suggestion: string)

  datatype RuntimeMetrics = RuntimeMetrics(retries: Option<int>, rest: string)

  datatype TaskRuntime = TaskRuntime(
    claimId: Option<string>, activeSessionId: Option<string>, runId: Option<string>,
    coordinatorEpoch: Option<int>, processGroupId: Option<int>, heartbeatSeq: Option<int>,
    leaseExpiresAt: Option<string>, lockedResourcesJson: Option<string>,
    status: Option<string>, pid: Option<int>, currentPhase: Option<string>,
    message: Option<string>, progress: Option<int>, workerId: Option<string>, tool: Option<string>,
    worktree: Option<string>, branch: Option<string>, stdoutLog: Option<string>, stderrLog: Option<string>,
    eventsLog: Option<string>, lastEventAt: Option<string>, registryUpdatedAt: Option<string>,
    lastError: Option<string>, lastErrorCode: Option<string>, lastErrorMessage: Option<string>,
    lastHeartbeat: Option<string>, startedAt: Option<string>, phaseStartedAt: Option<string>,
    attempt: Option<int>, retries: Option<int>, metrics: Option<RuntimeMetrics>,
    sloWarnings: Option<map<string, SloWarning>>,
    mergeResultPending: Option<bool>, mergeResultFile: Option<string>, mergeWorkerPid: Option<int>,
    mergeResultStartedAt: Option<string>, lastMergeResultFile: Option<string>,
    lastMergeResultStatus: Option<string>, lastMergeResultRc: Option<int>, lastMergeResultAt: Option<string>,
    extraUpdatedAt: Option<string>, worktreeSlotId: Option<string>, rest: string)

  datatype TaskReview = TaskReview(
    changed: Option<bool>, lastReviewedAt: Option<string>, reviewer: Option<string>, reason: Option<string>,
    rest: string)

  datatype TaskWorktree = TaskWorktree(
    worktreePath: Option<string>, branch: Option<string>, baseBranch: Option<string>, rest: string)

  datatype Task = Task(
    id: string, state: string, title: Option<string>, priority: Option<string>, tool: Option<string>,
    assignee: Option<string>, claimedAt: Option<string>, prUrl: Option<string>, review: Option<TaskReview>,
    worktree: Option<TaskWorktree>, exclusiveResources: seq<string>, runtime: TaskRuntime,
    stateChangedAt: Option<string>, updatedAt: Option<string>, rest: string)

  datatype ResourceLock = ResourceLock(
    taskId: string, claimId: string, worktreePath: string, lockedAt: string, expiresAt: Option<string>, rest: string)

  datatype Json = JsonNumber(n: int) | JsonEmptyObject | JsonOther(text: string)

  datatype TaskRegistry = TaskRegistry(
    tasks: seq<Task>, resourceLocks: map<string, ResourceLock>, externalMergedTaskIds: set<string>,
    updatedAt: Option<string>, extra: map<string, Json>)

  // ---- mutations ---------------------------------------------------------

  datatype TransitionMutation = TransitionMutation(
    taskId: string, newState: string, prUrl: string, reviewer: string, reason: string, now: string)

  datatype RuntimeMutation = RuntimeMutation(
    taskId: string, runtimeStatus: string, phase: string, pid: Option<int>, lastError: string,
    heartbeatTs: string, attempt: Option<int>, now: string, message: Option<string>, progress: Option<int>,
    workerId: Option<string>, tool: Option<string>, worktree: Option<string>, branch: Option<string>,
    stdoutLog: Option<string>, stderrLog: Option<string>, eventsLog: Option<string>, lastEventAt: Option<string>)

  datatype MergePendingMutation = MergePendingMutation(
    taskId: string, resultFile: string, pid: Option<int>, now: string)

  datatype MergeProcessedMutation = MergeProcessedMutation(
    taskId: string, resultFile: string, status: string, rc: Option<int>, now: string)

  datatype RetryIncrementMutation = RetryIncrementMutation(taskId: string, now: string)

  datatype SloWarningMutation = SloWarningMutation(
    taskId: string, metric: string, threshold: int, value: int, suggestion: string, now: string)

  predicate ReleasesWork(state: string) { state in {"merged", "abandoned", "todo"} }

  predicate EndsPhase(status: string) { status in {"idle", "phase_done", "failed", "stale"} }

  const NO_REVIEW := TaskReview(None, None, None, None, "")

  /** The new value if there is one, else the old value. */
  function Replacing<T>(change: Option<T>, old_: Option<T>): Option<T> { if change.Some? then change else old_ }

  function ReplacingText(change: string, old_: Option<string>): Option<string>
  {
    if change != "" then Some(change) else old_
  }

  function Reviewed(review: Option<TaskReview>, change: TransitionMutation): TaskReview
  {
    var r := review.GetOr(NO_REVIEW);
    r.(changed := Some(true), lastReviewedAt := Some(change.now),
       reviewer := ReplacingText(change.reviewer, r.reviewer),
       reason := ReplacingText(change.reason, r.reason))
  }

  /** `apply_transition` on the task payload. */
  function Transitioned(task: Task, change: TransitionMutation): Task
  {
    var t := task.(
      state := change.newState, updatedAt := Some(change.now), stateChangedAt := Some(change.now),
      prUrl := if change.newState == "pr_open" then ReplacingText(change.prUrl, task.prUrl) else task.prUrl,
      review := if change.newState == "changes_requested" then Some(Reviewed(task.review, change)) else task.review);
    if ReleasesWork(change.newState)
    then t.(assignee := None, claimedAt := None, worktree := None,
            runtime := t.runtime.(status := Some("idle"), pid := None, startedAt := None, currentPhase := None,
                                  mergeResultPending := Some(false), mergeResultFile := None))
    else t
  }

  /** `set_runtime` on the task payload. */
  function RuntimeChanged(task: Task, c: RuntimeMutation): Task
  {
    var r := task.runtime;
    task.(updatedAt := Some(c.now), runtime := r.(
      status := Some(c.runtimeStatus),
      currentPhase := ReplacingText(c.phase, r.currentPhase),
      message := Replacing(c.message, r.message),
      progress := Replacing(c.progress, r.progress),
      workerId := Replacing(c.workerId, r.workerId),
      tool := Replacing(c.tool, r.tool),
      worktree := Replacing(c.worktree, r.worktree),
      branch := Replacing(c.branch, r.branch),
      stdoutLog := Replacing(c.stdoutLog, r.stdoutLog),
      stderrLog := Replacing(c.stderrLog, r.stderrLog),
      eventsLog := Replacing(c.eventsLog, r.eventsLog),
      lastEventAt := Replacing(c.lastEventAt, r.lastEventAt),
      registryUpdatedAt := Some(c.now),
      pid := if c.pid.Some? then c.pid else if EndsPhase(c.runtimeStatus) then None else r.pid,
      lastError := ReplacingText(c.lastError, r.lastError),
      lastHeartbeat := ReplacingText(c.heartbeatTs, r.lastHeartbeat),
      attempt := Replacing(c.attempt, r.attempt),
      startedAt := if c.runtimeStatus == "running" && r.startedAt.GetOr("") == "" then Some(c.now) else r.startedAt,
      phaseStartedAt := if EndsPhase(c.runtimeStatus) then None
                        else if c.runtimeStatus == "running" then Some(c.now) else r.phaseStartedAt))
  }

  function MergePending(task: Task, c: MergePendingMutation): Task
  {
    task.(updatedAt := Some(c.now), runtime := task.runtime.(
      mergeResultPending := Some(true), mergeResultFile := Some(c.resultFile),
      mergeWorkerPid := c.pid, mergeResultStartedAt := Some(c.now)))
  }

  function MergeProcessed(task: Task, c: MergeProcessedMutation): Task
  {
    var r := task.runtime;
    task.(updatedAt := Some(c.now), runtime := r.(
      mergeResultPending := Some(false), mergeResultFile := None, mergeWorkerPid := None,
      lastMergeResultFile := ReplacingText(c.resultFile, r.lastMergeResultFile),
      lastMergeResultStatus := ReplacingText(c.status, r.lastMergeResultStatus),
      lastMergeResultRc := Replacing(c.rc, r.lastMergeResultRc),
      lastMergeResultAt := Some(c.now)))
  }

  /** `retries_count`: the counter, or its copy among the metrics; a negative one reads as zero. */
  function RetriesCount(r: TaskRuntime): nat
  {
    var stored := if r.retries.Some? then r.retries else if r.metrics.Some? then r.metrics.value.retries else None;
    if stored.Some? && stored.value >= 0 then stored.value else 0
  }

  /** `retries_count() + 1` stored back as an `i64`: a count past `i64::MAX` wraps. */
  function NextRetries(r: TaskRuntime): int
  {
    var next := RetriesCount(r) + 1;
    if next < 0x8000_0000_0000_0000 then next else next - 0x1_0000_0000_0000_0000
  }

  function RetriesIncremented(task: Task, c: RetryIncrementMutation): Task
  {
    var r, next := task.runtime, NextRetries(task.runtime);
    task.(updatedAt := Some(c.now), runtime := r.(
      retries := Some(next), metrics := Some(r.metrics.GetOr(RuntimeMetrics(None, "")).(retries := Some(next)))))
  }

  function SloWarned(task: Task, c: SloWarningMutation): Task
  {
    var warning := SloWarning(c.metric, c.threshold, c.value, c.now, c.suggestion);
    task.(updatedAt := Some(c.now), runtime := task.runtime.(
      sloWarnings := Some(task.runtime.sloWarnings.GetOr(map[])[c.metric := warning])))
  }

  datatype Mutation =
    | Transition(transition: TransitionMutation)
    | Runtime(runtime: RuntimeMutation)
    | Pending(pending: MergePendingMutation)
    | Processed(processed: MergeProcessedMutation)
    | Retry(retry: RetryIncrementMutation)
    | Slo(slo: SloWarningMutation)
  {
    function TaskId(): string
    {
      match this
      case Transition(c) => c.taskId
      case Runtime(c) => c.taskId
      case Pending(c) => c.taskId
      case Processed(c) => c.taskId
      case Retry(c) => c.taskId
      case Slo(c) => c.taskId
    }

    function Now(): string
    {
      match this
      case Transition(c) => c.now
      case Runtime(c) => c.now
      case Pending(c) => c.now
      case Processed(c) => c.now
      case Retry(c) => c.now
      case Slo(c) => c.now
    }

    function Changed(task: Task): Task
    {
      match this
      case Transition(c) => Transitioned(task, c)
      case Runtime(c) => RuntimeChanged(task, c)
      case Pending(c) => MergePending(task, c)
      case Processed(c) => MergeProcessed(task, c)
      case Retry(c) => RetriesIncremented(task, c)
      case Slo(c) => SloWarned(task, c)
    }
  }

  // ---- what holds of a stored task ---------------------------------------

  /** A running task says when it started. */
  predicate RunningHasStart(t: Task)
  {
    t.runtime.status == Some("running") ==> t.runtime.startedAt.GetOr("") != ""
  }

  /** A merge result is pending exactly while its file is known. */
  predicate PendingHasFile(t: Task)
  {
    t.runtime.mergeResultPending == Some(true) <==> t.runtime.mergeResultFile.Some?
  }

  /** A task that is not being worked on holds no worktree, assignee or claim time. */
  predicate ReleasedIsFree(t: Task)
  {
    ReleasesWork(t.state) ==> t.worktree == None && t.assignee == None && t.claimedAt == None
  }

  predicate Sound(t: Task) { RunningHasStart(t) && PendingHasFile(t) && ReleasedIsFree(t) }

  /**
   Each mutation keeps the three rules together, except that a `running` report
   without a clock reading leaves a task that has no start time without one; that
   is the only way to break them.
   */
  lemma MutationKeepsSound(t: Task, m: Mutation)
    requires Sound(t)
    ensures Sound(m.Changed(t)) <==>
            !(m.Runtime? && m.runtime.runtimeStatus == "running" && m.runtime.now == ""
                && t.runtime.startedAt.GetOr("") == "")
  {
    match m
    case Transition(c) =>
      assert Some("idle") != Some("running") by { assert "idle"[0] != "running"[0]; }
    case Runtime(c) =>
    case Pending(c) =>
    case Processed(c) =>
    case Retry(c) =>
    case Slo(c) =>
  }

  lemma TransitionTwice(t: Task, c: TransitionMutation)
    ensures Transitioned(Transitioned(t, c), c) == Transitioned(t, c)
  {
  }

  lemma ReportTwice(t: Task, c: RuntimeMutation)
    ensures RuntimeChanged(RuntimeChanged(t, c), c) == RuntimeChanged(t, c)
  {
  }

  lemma RetryTwice(t: Task, c: RetryIncrementMutation)
    ensures RetriesIncremented(RetriesIncremented(t, c), c) != RetriesIncremented(t, c)
  {
    var once, twice := RetriesIncremented(t, c).runtime, RetriesIncremented(RetriesIncremented(t, c), c).runtime;
    assert once.retries == Some(NextRetries(t.runtime)) && twice.retries == Some(NextRetries(once));
    assert NextRetries(once) != once.retries.value;
  }

  /** A retry is counted, until the counter overflows and starts again; nothing else of the task changes. */
  lemma RetryCounts(t: Task, c: RetryIncrementMutation)
    requires RetriesCount(t.runtime) < 0x8000_0000_0000_0000
    ensures var after := RetriesIncremented(t, c);
            && RetriesCount(after.runtime) ==
               (if RetriesCount(t.runtime) == 0x7fff_ffff_ffff_ffff then 0 else RetriesCount(t.runtime) + 1)
            && after.(updatedAt := t.updatedAt,
                runtime := after.runtime.(retries := t.runtime.retries, metrics := t.runtime.metrics)) == t
            && after.runtime.metrics.Some? && after.runtime.metrics.value.retries == after.runtime.retries
  {
  }

  /** A warning replaces the one of its metric and leaves those of the others, and the rest of the task, alone. */
  lemma WarningIsPerMetric(t: Task, c: SloWarningMutation)
    ensures var before, after := t.runtime.sloWarnings.GetOr(map[]), SloWarned(t, c).runtime.sloWarnings.GetOr(map[]);
            && c.metric in after && after[c.metric].value == c.value && after[c.metric].warnedAt == c.now
            && after.Keys == before.Keys + {c.metric}
            && forall metric | metric in before && metric != c.metric :: after[metric] == before[metric]
    ensures var after := SloWarned(t, c);
            after.(updatedAt := t.updatedAt, runtime := after.runtime.(sloWarnings := t.runtime.sloWarnings)) == t
  {
  }

  function RetriedAll(t: Task, changes: seq<RetryIncrementMutation>): Task
  {
    if changes == [] then t else RetriesIncremented(RetriedAll(t, changes[..|changes| - 1]), changes[|changes| - 1])
  }

  /** Every retry counts: after any number of them the counter has gone up by that number. */
  lemma {:induction false} RetriesAddUp(t: Task, changes: seq<RetryIncrementMutation>)
    requires RetriesCount(t.runtime) + |changes| < 0x8000_0000_0000_0000
    ensures RetriesCount(RetriedAll(t, changes).runtime) == RetriesCount(t.runtime) + |changes|
  {
    if changes != [] {
      RetriesAddUp(t, changes[..|changes| - 1]);
      RetryCounts(RetriedAll(t, changes[..|changes| - 1]), changes[|changes| - 1]);
    }
  }

  /** The order of warnings about different metrics does not matter. */
  lemma WarningsCommute(t: Task, c: SloWarningMutation, d: SloWarningMutation)
    requires c.metric != d.metric
    ensures SloWarned(SloWarned(t, c), d).runtime == SloWarned(SloWarned(t, d), c).runtime
  {
    var one := SloWarned(SloWarned(t, c), d).runtime.sloWarnings.value;
    var other := SloWarned(SloWarned(t, d), c).runtime.sloWarnings.value;
    WarningIsPerMetric(t, c);
    WarningIsPerMetric(SloWarned(t, d), c);
    assert one == other;
  }

  lemma WarningTwice(t: Task, c: SloWarningMutation)
    ensures SloWarned(SloWarned(t, c), c) == SloWarned(t, c)
  {
    var w := SloWarned(t, c).runtime.sloWarnings.value;
    assert w[c.metric := w[c.metric]] == w;
  }

  /** Repeating a mutation changes the task no further, for every mutation but the retry counter. */
  lemma MutationTwice(t: Task, m: Mutation)
    ensures m.Changed(m.Changed(t)) == m.Changed(t) <==> !m.Retry?
  {
    match m
    case Transition(c) => TransitionTwice(t, c);
    case Runtime(c) => ReportTwice(t, c);
    case Retry(c) => RetryTwice(t, c);
    case Slo(c) => WarningTwice(t, c);
    case Pending(_) =>
    case Processed(_) =>
  }
}

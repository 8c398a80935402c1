# MACC coordinator: a verified model

MACC coordinates AI coding agents. This project models, in Dafny, the parts of
its core library that have to be right for the rest to be trusted, and proves
what they promise:

- **The coordinator store** (`Tasks`, `EventLog`, `TaskTables`,
  `CoordinatorStore`, `StoreRuns`, `StoreLaws`). The SQLite store is a class whose
  fields are its tables. Each public operation is one transaction: a method that
  changes the tables in place and is proved to leave exactly what a function of
  the old tables says. About those functions, over every run: the derived table
  `task_runtime` mirrors the task payloads, `resource_locks` does so from a
  transition on until a save that cannot bring the locks back, the incremental
  save is a rewrite, and the self-pruning event log loses nothing that matters.
  What each operation does is also read off the tables, with states, statuses and
  event types written out.
- **Two sides of a project** (`StorageSync`, `RepeatedTransfers`): the JSON files
  beside the store, the transfers between them, which side wins, and what becomes
  of tasks, jobs, locks and events that are loaded and saved again and again.
- **The connection pool** (`ConnectionPool`), with a file system in which files
  are replaced, moved and removed behind its back, even while it opens them.
- **Commit messages** (`CommitMessage`) and what they say about tasks
  (`CommitCompletion`). The regular expressions are matchers over strings.
- **Removing managed files** (`ManagedPaths`) from a file tree in two passes.
- **The advisory lock** (`FsLock`) over paths, inodes, descriptors and processes
  that may be killed.
- **Workflow states** (`Workflow`) over interleaved runs of many tasks.
- **The commit graph**: reading what `git log` prints (`GitLog`) and paging
  through it (`GitGraph`).

`Wrappers` and `Text` hold what these share: options, results, code point order,
white space and ASCII case.

Code that changes things step by step is a class or a method with loops; code
made of expressions is functions. A method's contract ties its result or the new
state to a specification function, and the lemmas are about those functions. A
store's run is a list of operations (`StoreRuns.Op`), a project's a list of steps
(`StorageSync.Step`), so "over every run" is an induction over the list.

`dafny verify dfyconfig.toml` checks everything.

## Where the code does not do what one might expect

Each of these is proved, with the exact condition or a witness:

- Two tasks of one snapshot with the same id break the incremental save: a task
  equal to the row stored before the save is skipped even after another one has
  overwritten that row (`TaskTables.IncrementalIsRewriteIff`,
  `TaskTables.DuplicateIdsBreakTheSave`).
- With distinct ids the save is a rewrite but for the `updated_at` column of an
  unchanged task without a time of its own, which keeps the old time
  (`TaskTables.DistinctIdsRewriteIff`, `TaskTables.OldTimeIsKept`).
- Two tasks under one effective claim cannot both have a `task_runtime` row
  (`TaskTables.SaveAgreesIffClaimsDistinct`).
- A `running` report whose clock is empty leaves a running task without a start
  time; nothing else breaks the rules of a stored task
  (`Tasks.MutationKeepsSound`).
- Once a heartbeat is pruned its id is free, and another event may take it; that
  is the only way in which pruning shows to a reader that skips heartbeats
  (`StoreRuns.PruningIsInvisibleIff`, `StoreRuns.ReusedIdShows`).
- `set_cursor` on an existing row moves the column that pruning reads but not the
  cursor that loads return (`StoreRuns.MovedCursorLoadsStale`).
- A recomputed lock whose worktree has no path is stored with a null in its
  payload, which no longer parses as a lock, so loads pass over it
  (`CoordinatorStore.LoadedLocksHavePaths`).
- With repeated ids a saved registry may load as another than was saved, and a
  second transfer may lose the job of a running process
  (`StorageSync.LoadAfterSaveIff`, `RepeatedTransfers.TransferIsStable`,
  `RepeatedTransfers.RepeatedIdLosesJob`).
- An event saved without an id is named after its position, and comes back from
  an export as another event when its position has changed. Behind a named event
  it comes back once more at every transfer, for ever; where it takes its place as
  well as its name from its position it can come to rest
  (`RepeatedTransfers.ResavedIsStableIff`, `RepeatedTransfers.UnnamedEventGrows`,
  `RepeatedTransfers.UnnamedEventSettles`).
- A save of a registry just loaded drops the lock of a holder without a worktree
  path and renames that of a claim without a name
  (`RepeatedTransfers.FreshSaveKeepsLocksIff`). When all locks have been released
  it brings back those of the last saved metadata, whose tasks no longer hold them
  (`RepeatedTransfers.ReleasedLocksComeBack`).
- A database file replaced between the opening of a connection and the reading of
  its identity leaves a pooled connection to the old file
  (`ConnectionPool.ReopenIsCurrentIff`, `ConnectionPool.RaceHappens`).
- Unlinking a held lock file breaks exclusion, as the module's own comment says
  (`FsLock.UnlinkBreaksExclusion`).
- A last sha of a page that begins an earlier one sends paging back. It then
  repeats commits, and either ends all the same or goes round for ever: the latter
  iff some page starts where an earlier one did (`GitGraph.PagingIsCompleteIff`,
  `GitGraph.PagingEndsIff`, `GitGraph.PrefixShaMayEnd`, `GitGraph.PrefixShaRepeats`).

## Model

| member | source | states |
|---|---|---|
| Tasks.MutationKeepsSound | core/src/coordinator_storage.rs:1302-1364 | a mutation keeps "running has a start time", "a pending merge has its file and only then" and "released work holds no worktree, assignee or claim time", except exactly for a clockless running report of a task without a start time |
| Tasks.MutationTwice | core/src/coordinator_storage.rs:1389-1483 | repeating a mutation on a task changes nothing more, for every mutation but the retry counter |
| Tasks.RetryTwice | core/src/coordinator_storage.rs:1573-1605 | a repeated retry is counted again |
| Tasks.RetriesAddUp | core/src/coordinator/model.rs:1315-1325 | after any number of retries the counter has gone up by that number |
| Tasks.WarningsCommute | core/src/coordinator_storage.rs:1607-1645 | the order of warnings about different metrics does not matter |
| EventLog.IncrementalPruningIsMigration | core/src/coordinator_storage.rs:935-951 | appending rows one by one, each append pruning, gives the log that inserting all and migrating once gives |
| EventLog.MigratedKeepsExactly | core/src/coordinator_storage.rs:935-951 | the migration keeps a row iff it is no heartbeat, or a cursor target, or the last arrival of its task and type, a missing task being a group of its own |
| EventLog.AppendedLogKeepsExactly | core/src/coordinator_storage.rs:284-302 | the pruning appends keep the same rows, in arrival order |
| EventLog.MigratedTwice | core/src/coordinator_storage.rs:935-951 | migrating a migrated log changes nothing |
| EventLog.MigratedUnseen | core/src/coordinator_storage.rs:2106-2151 | a reader that skips heartbeats selects the same rows before and after the migration |
| EventLog.PrunedUnseen | core/src/coordinator_storage.rs:284-302 | a reader that skips heartbeats selects the same rows before and after one pruning |
| EventLog.SelectedIff | core/src/coordinator_storage.rs:2106-2151 | a filtered scan sees exactly the rows of the task and type it asks for, without the two heartbeat types if it skips them |
| EventLog.BlanksAreFilled | core/src/coordinator_storage.rs:502-557 | what an appended record leaves blank is filled in from the clock, the run and its own type, task and number |
| EventLog.CarriedBlanksAreFilled | core/src/coordinator_storage.rs:589-676 | the same of an event that a mutation carries |
| EventLog.FilledIdsDiffer | core/src/coordinator_storage.rs:530-539 | filled-in ids of one type and task differ when the numbers do |
| EventLog.AscendingSorted | core/src/coordinator_storage.rs:2155-2181 | the order of `load_snapshot` is by sequence number, then event id |
| EventLog.OldestFirstIsUnique | core/src/coordinator_storage.rs:2155-2181 | for distinct ids there is only one such order of the same rows |
| EventLog.DescendingIsReversed | core/src/coordinator_storage.rs:2039-2054 | the newest-first order is the reverse of the order of `load_snapshot` |
| TaskTables.MutationKeepsAgreement | core/src/coordinator_storage.rs:1647-1785 | upserting the runtime row of a changed task that keeps its id and claim keeps one row per task, each the projection of its payload |
| TaskTables.SaveTurn | core/src/coordinator_storage.rs:2188-2319 | one turn of the save loop settles its task and unsettles none, also when it takes over the row of a task the loop has yet to reach |
| TaskTables.SaveStoresTasks | core/src/coordinator_storage.rs:2188-2275 | a save stores exactly the snapshot's tasks that have an id, each under its id |
| TaskTables.SaveAgreesIffClaimsDistinct | core/src/coordinator_storage.rs:1647-1785 | from agreeing tables, a save of tasks with distinct ids ends in agreement iff no two share an effective claim |
| TaskTables.IncrementalRowIsRewrittenIff | core/src/coordinator_storage.rs:2188-2275 | per id: the incremental save and a full rewrite leave the same payload iff the last task with that id was not skipped after an earlier one was written |
| TaskTables.IncrementalIsRewriteIff | core/src/coordinator_storage.rs:2188-2275 | the same for the whole table |
| TaskTables.DuplicateIdsBreakTheSave | core/src/coordinator_storage.rs:2188-2275 | two tasks with one id, the second as stored: the save keeps the first, a rewrite the second |
| TaskTables.DistinctIdsRewriteIff | core/src/coordinator_storage.rs:2188-2275 | with distinct ids both leave the same table, times and all, iff every skipped task is stored with the time a rewrite would give it |
| TaskTables.OldTimeIsKept | core/src/coordinator_storage.rs:2254-2273 | a task without a time of its own, saved again as it is, keeps the time of its first save |
| TaskTables.HolderIsFirstClaimant | core/src/coordinator_storage.rs:1787-1880 | a nonempty resource is held by the least id among the active tasks with a worktree that list it, and by nobody else |
| TaskTables.RecomputedLocksAgree | core/src/coordinator_storage.rs:1787-1880 | after a recomputation the lock rows are the holders' and every holder has its row |
| TaskTables.AgreeingLocksAreExclusive | core/src/coordinator_storage.rs:1787-1880 | agreeing locks have one row per held resource and none for others |
| TaskTables.MutationKeepsLocks | core/src/coordinator_storage.rs:1371-1486 | a mutation that leaves state, worktree, resources, claim and lease alone leaves the locks in agreement |
| TaskTables.ReleasedResourcePasses | core/src/coordinator_storage.rs:1787-1880 | when the holder stops being active the next claimant in id order gets the resource |
| CoordinatorStore.TransitionTask | core/src/coordinator_storage.rs:1302-1342 | the field by field update of `apply_transition` is the specification function the lemmas are about |
| CoordinatorStore.ReportTask | core/src/coordinator_storage.rs:1389-1465 | the same for `set_runtime` |
| CoordinatorStore.RecomputedLocks | core/src/coordinator_storage.rs:1787-1880 | going through the tasks in id order and locking what is not yet taken gives each resource its first claimant |
| CoordinatorStore.LockResources | core/src/coordinator_storage.rs:1787-1880 | the inner loop locks exactly the task's nonempty resources that no earlier task took |
| CoordinatorStore.LastTaskGetsTheRest | core/src/coordinator_storage.rs:1787-1880 | a task that comes after all others in id order gets the resources it lists and none of them holds, and takes none away |
| CoordinatorStore.LockTableIsUnique | core/src/coordinator_storage.rs:1787-1880 | agreement with the holders fixes the whole table, so recomputing is idempotent |
| CoordinatorStore.LoadedLocksHavePaths | core/src/coordinator_storage.rs:1882-1926 | after a recomputation the tables' registry shows the lock of a holder iff the holder's worktree has a path |
| CoordinatorStore.MergeMeta | core/src/coordinator_storage.rs:1953-2002 | how saved metadata completes and overrides what the tables say |
| CoordinatorStore.NewestRecords | core/src/coordinator_storage.rs:2039-2054 | collecting until there are enough and reversing gives the first rows of the scan, reversed |
| CoordinatorStore.NewestAreLast | core/src/coordinator_storage.rs:2039-2054 | these are the last events in the order of `load_snapshot` |
| CoordinatorStore.WithoutGone | core/src/coordinator_storage.rs:2200-2210 | the delete loop removes exactly the tasks the snapshot does not keep |
| CoordinatorStore.WriteTasks | core/src/coordinator_storage.rs:2245-2319 | the loop over the snapshot's tasks writes what the specification of the save loop says, and fails iff a job row is asked for twice |
| CoordinatorStore.WriteSnapshot | core/src/coordinator_storage.rs:2183-2418 | the transaction's statements leave the saved database, or fail for a repeated job |
| CoordinatorStore.JobsOfIff | core/src/coordinator_storage.rs:2277-2318 | a save fails iff two of its tasks have one id and a process of the same kind; otherwise the job table has exactly one row for each task with an id and each kind of process it has |
| CoordinatorStore.InsertedLocks | core/src/coordinator_storage.rs:2321-2351 | every saved lock gets its row |
| CoordinatorStore.InsertedEvents | core/src/coordinator_storage.rs:2353-2396 | events whose id is new are added in order, and no event is deleted |
| CoordinatorStore.SqliteStorage.constructor | core/src/coordinator_storage.rs:459-466 | a new database file has no tables |
| CoordinatorStore.SqliteStorage.InitSchema | core/src/coordinator_storage.rs:750-958 | the schema is set up once, with the migration of the event log |
| CoordinatorStore.SqliteStorage.InsertEvent | core/src/coordinator_storage.rs:589-684 | insert unless the id is there, then prune; the result says whether it was new |
| CoordinatorStore.SqliteStorage.AppendEventRecord | core/src/coordinator_storage.rs:493-588 | the whole new state of an append, and whether the event was new |
| CoordinatorStore.SqliteStorage.SetCursor | core/src/coordinator_storage.rs:1259-1280 | the whole new state of a cursor move |
| CoordinatorStore.SqliteStorage.UpsertTaskRuntimeRow | core/src/coordinator_storage.rs:1647-1785 | the task's old row goes, the row under its claim is replaced |
| CoordinatorStore.SqliteStorage.RecomputeResourceLocks | core/src/coordinator_storage.rs:1787-1880 | the lock table becomes the function of the tasks that the lemmas are about |
| CoordinatorStore.SqliteStorage.ApplyTransitionWithEvent | core/src/coordinator_storage.rs:1286-1365 | task, runtime row, locks and event of a transition; an unknown task changes nothing but the schema |
| CoordinatorStore.SqliteStorage.SetRuntimeWithEvent | core/src/coordinator_storage.rs:1371-1486 | task, runtime row and event of a runtime report; an unknown task changes nothing but the schema |
| CoordinatorStore.SqliteStorage.SetMergePending | core/src/coordinator_storage.rs:1488-1524 | the whole new state of a pending merge result |
| CoordinatorStore.SqliteStorage.SetMergeProcessed | core/src/coordinator_storage.rs:1526-1571 | the whole new state of a processed merge result |
| CoordinatorStore.SqliteStorage.IncrementRetries | core/src/coordinator_storage.rs:1573-1605 | the whole new state of a counted retry |
| CoordinatorStore.SqliteStorage.UpsertSloWarning | core/src/coordinator_storage.rs:1607-1645 | the whole new state of a warning |
| CoordinatorStore.SqliteStorage.SaveSnapshot | core/src/coordinator_storage.rs:2183-2418 | all of the save or nothing |
| CoordinatorStore.SqliteStorage.LoadRegistry | core/src/coordinator_storage.rs:1947-2002 | the registry from the tables, completed by the metadata |
| CoordinatorStore.SqliteStorage.LoadSnapshot | core/src/coordinator_storage.rs:2155-2181 | the registry, every event in order, and the cursor |
| CoordinatorStore.SqliteStorage.LoadSnapshotWithoutEvents | core/src/coordinator_storage.rs:2009-2017 | the same without events |
| CoordinatorStore.SqliteStorage.LoadRecentEvents | core/src/coordinator_storage.rs:2039-2054 | the last `limit` events of the snapshot, in its order, although it stops early and reverses; a limit of zero does not touch the database |
| CoordinatorStore.SqliteStorage.ScanEventsNewestFirst | core/src/coordinator_storage.rs:2106-2151 | the visitor sees the matching events newest first, up to and including the one at which it breaks |
| CoordinatorStore.SqliteStorage.TaskHasTerminalResultForClaim | core/src/coordinator_storage.rs:686-711 | true iff a `phase_result` event of the task names the claim, both given |
| CoordinatorStore.SqliteStorage.HasSavedData | core/src/coordinator_storage.rs:468-482 | true iff there is metadata or a task |
| StoreRuns.RunKeepsConsistent | core/src/coordinator_storage.rs:2791-2794 | in every reachable state tasks are filed under their ids, a resource has at most one lock and an event id at most one row |
| StoreRuns.RunKeepsRuntime | core/src/coordinator_storage.rs:1647-1785 | over every run whose saves have distinct ids and claims, `task_runtime` mirrors the tasks |
| StoreRuns.RuntimeFromEmpty | core/src/coordinator_storage.rs:2188-2319 | in particular from an empty store |
| StoreRuns.OneRowPerTask | core/src/coordinator_storage.rs:1647-1785 | the mirror from a task's side: exactly one row, under its claim, showing its current payload |
| StoreRuns.RunCarriesTimes | core/src/coordinator_storage.rs:2254-2273 | over every run the row of a task that has a time carries that time |
| StoreRuns.TimedSaveIsRewrite | core/src/coordinator_storage.rs:2188-2275 | so in every reachable state a save of tasks with distinct ids and times of their own is a full rewrite |
| StoreRuns.LocksAfterTransition | core/src/coordinator_storage.rs:1358-1364 | after any transition, and through everything but a save, the lock table agrees with the tasks |
| StoreRuns.RunKeepsLocks | core/src/coordinator_storage.rs:1787-1880 | runs without saves keep that agreement |
| StoreRuns.HeldByHolderOnly | core/src/coordinator_storage.rs:1787-1880 | agreement from a resource's side: locked iff it has a claimant, and then by the first under its claim |
| StoreRuns.RunKeepsTruth | core/src/coordinator_storage.rs:1787-1880 | over every run, saves included: a lock row and the lock in its payload say the same, only a lock without a worktree path has none, and the metadata keeps no tasks |
| StoreRuns.SaveWithoutEventsKeepsLog | core/src/coordinator_storage.rs:2004-2017 | a save without events, as after a load without events, leaves the event table unchanged, however stale the load |
| StoreRuns.ApplyKeepsEvents | core/src/coordinator_storage.rs:284-302 | no operation deletes a row that is not a heartbeat or is a cursor target |
| StoreRuns.RunKeepsEvents | core/src/coordinator_storage.rs:2353-2396 | no run loses an event that is not a heartbeat, also when saves are built from stale loads |
| StoreRuns.RunKeepsCursorTargets | core/src/coordinator_storage.rs:284-302 | an event stays for as long as a cursor points at it |
| StoreRuns.MovedCursorLoadsStale | core/src/coordinator_storage.rs:1259-1280 | a moved cursor pins its event; loads return the new cursor only if there was no row before |
| StoreRuns.TerminalResultIsPermanent | core/src/coordinator_storage.rs:686-711 | a reported terminal result stays reported over every run |
| StoreRuns.MutationReportsNothing | core/src/coordinator_storage.rs:589-676 | a mutation, with or without an event, neither adds nor removes a terminal result |
| StoreRuns.RunKeepsGroups | core/src/coordinator_storage.rs:284-302 | a task and type that ever had an event always keep one |
| StoreRuns.PruningIsInvisibleIff | core/src/coordinator_storage.rs:2106-2151 | after any run, and for any task and type filter, a heartbeat-skipping scan of the log equals the scan of everything ever offered iff no event it looks for came under the id of a pruned heartbeat |
| StoreRuns.PruningIsInvisible | core/src/coordinator_storage.rs:2106-2151 | in particular when ids are either heartbeats' or not: then, after any run, pruning shows in no heartbeat-skipping scan |
| StoreRuns.ReusedIdShows | core/src/coordinator_storage.rs:284-302 | a run of three appends after which the two scans differ |
| StoreRuns.RedeliveryChangesNothing | core/src/coordinator_storage.rs:1286-1486 | the same transition or report with the same explicit event id leaves the whole store as the first delivery did |
| StoreRuns.RunKeepsSound | core/src/coordinator_storage.rs:1302-1364 | the three rules of a stored task hold in every reachable state |
| StoreRuns.DataStays | core/src/coordinator_storage.rs:468-482 | once the store has data it has data in every later state |
| StoreLaws.PointedAtStays | core/src/coordinator_storage.rs:264-302 | no operation deletes an event that a stream of `event_cursor` or a row of `cursors` names, or one that is not of the two heartbeat types |
| StoreLaws.StreamPinsEvent | core/src/coordinator_storage.rs:264-302 | over every run, the event a stream names stays until that stream moves |
| StoreLaws.CursorPinsEvent | core/src/coordinator_storage.rs:264-302 | and the event a cursor names until that cursor moves, a save that succeeds moving all of them |
| StoreLaws.MovedStreamPins | core/src/coordinator/control_plane/base.rs:1984-1993 | from the move of a stream to an event on, the event stays until the next such move |
| StoreLaws.MovedCursorPins | core/src/coordinator_storage.rs:1259-1280 | the same after `set_cursor` |
| StoreLaws.SavedCursorPins | core/src/coordinator_storage.rs:2398-2414 | the same after a save whose cursor names the event |
| StoreLaws.AcceptedEventDeletes | core/src/coordinator_storage.rs:284-302 | an appended event whose id is new deletes exactly the stored rows of its own heartbeat type and task that neither table names |
| StoreLaws.CarriedEventDeletes | core/src/coordinator_storage.rs:589-684 | so does an event that a transition or report carries |
| StoreLaws.MigrationDeletes | core/src/coordinator_storage.rs:935-951 | the schema set-up deletes exactly the heartbeats with a later row of their type and task that neither table names |
| StoreLaws.ResourcesAreLocked | core/src/coordinator_storage.rs:1787-1880 | a recomputation locks a resource iff a task in one of the five working states, with a worktree, lists it; the row is that of the first such task: its claim, path, lease, and the time of its claim if it has one |
| StoreLaws.StateHoldsResource | core/src/coordinator_storage.rs:2752-2757 | after a transition a task with a worktree holds the nonempty resources it alone lists iff its new state is claimed, in_progress, pr_open, changes_requested or queued |
| StoreLaws.LocksKeepTime | core/src/coordinator_storage.rs:1817-1822 | two recomputations lock the same under the same keys, with the same time of acquiring iff the holder's claim has a time or the clocks agree |
| StoreLaws.ReportSays | core/src/coordinator_storage.rs:1389-1465 | a report leaves the process it gives, or none for exactly idle, phase_done, failed and stale, or the old one; the phase start the same way; each other field as given or as it was; and the runtime row shows it |
| StoreLaws.ReportDecidesJob | core/src/coordinator_storage.rs:2277-2296 | so saving what is stored after a report writes a performer job for the task iff it then has a process |
| StoreLaws.MirrorShowsTasks | core/src/coordinator_storage.rs:1647-1785 | in every mirror each task is shown by one row under its claim, column by column, with the defaults for what it lacks |
| StoreLaws.TransitionSays | core/src/coordinator_storage.rs:1302-1365 | a transition records state and times, the pull request only in pr_open, the review only in changes_requested, frees the task in merged, abandoned and todo only, and leaves the rest; both rows show it |
| StoreLaws.PendingSays | core/src/coordinator_storage.rs:1488-1524 | what a pending merge result leaves of the task, and nothing else |
| StoreLaws.ProcessedSays | core/src/coordinator_storage.rs:1526-1571 | what a processed merge result leaves, texts only when given |
| StoreLaws.RetrySays | core/src/coordinator_storage.rs:1573-1605 | the counter and its copy among the metrics go up by one from whichever was there |
| StoreLaws.WarningSays | core/src/coordinator_storage.rs:1607-1645 | a warning is stored under its metric with all it says, beside the others |
| StoreLaws.ResultIsFoundIff | core/src/coordinator_storage.rs:686-711 | after an append a terminal result is found iff it was before, or the event is new, a phase_result, and names the task and the claim |
| StoreLaws.SavedTaskSays | core/src/coordinator_storage.rs:2188-2275 | a saved task with a distinct id is stored with its columns and its own time, if it has one; an unchanged row stays |
| StoreLaws.SavedJobSays | core/src/coordinator_storage.rs:2277-2318 | a job row exists for each kind of process the task has, with its process, status and time |
| StoreLaws.SavedLockSays | core/src/coordinator_storage.rs:2321-2351 | the lock rows are exactly those of the registry's locks, an empty claim being named after the task |
| StoreLaws.SavedCursorSays | core/src/coordinator_storage.rs:2398-2414 | the cursor table keeps the coordinator's cursor only, its event column never null; the metadata is the registry without tasks |
| StoreLaws.SavedEventSays | core/src/coordinator_storage.rs:2353-2396 | a saved event keeps its JSON and is filed under its id and number, or its position for what it lacks |
| StoreLaws.CursorMoveSays | core/src/coordinator_storage.rs:1259-1280 | a cursor move sets the column; the payload of a new row says the same, with no event for an empty id, and that of an old row stays |
| StoreLaws.RecentRecordsSay | core/src/coordinator_storage.rs:2039-2054 | the recent events are the last of the sorted log, as many as asked for or all |
| StoreLaws.LoadedRegistrySays | core/src/coordinator_storage.rs:1953-2002 | a load returns the stored tasks in the order of their ids, the locks whose payloads parse or else those of the metadata, and the metadata's merged ids, time and extra members; metadata with tasks is all there is when the tables have none |
| StorageSync.TasksByIdAreTheTasks | core/src/coordinator_storage.rs:1882-1926 | the normal form's tasks are the tasks that have an id, sorted by it |
| StorageSync.DistinctIdsSave | core/src/coordinator_storage.rs:2277-2318 | saving tasks with distinct ids cannot fail |
| StorageSync.LoadAfterSaveIff | core/src/coordinator_storage.rs:1953-2002 | after a `save_snapshot` that succeeds `load_registry` returns the normal form of what was saved iff the save did not skip the last task of an id after writing an earlier one, which it never does when ids are distinct; the cursor comes back exactly in any case |
| StorageSync.LoadedIsStored | core/src/coordinator_storage.rs:1882-2002 | whatever is saved, it loads as the normal form of itself with the tasks that were stored |
| StorageSync.NormalFormTwice | core/src/coordinator_storage.rs:1882-2002 | the normal form is idempotent, whatever the clock says in between and whatever ids repeat |
| StorageSync.JsonRoundTrip | core/src/coordinator_storage.rs:316-389 | what the JSON side stores it loads |
| StorageSync.ProjectStorage.ImportJsonToSqlite | core/src/coordinator_storage.rs:2551-2557 | both sides after an import, and its failures |
| StorageSync.ProjectStorage.ExportSqliteToJson | core/src/coordinator_storage.rs:2559-2565 | both sides after an export |
| StorageSync.ProjectStorage.BootstrapSqliteFromJson | core/src/coordinator_storage.rs:2537-2549 | imports iff the store has no data, and says so |
| StorageSync.ProjectStorage.SyncCoordinatorStorage | core/src/coordinator_storage.rs:2513-2535 | what each mode and phase does to both sides |
| StorageSync.SqliteIsAuthoritative | core/src/coordinator_storage.rs:2513-2565 | in sqlite mode a store with data keeps its registry and the files come to equal it, whatever they held |
| StorageSync.ExportShowsStore | core/src/coordinator_storage.rs:2559-2565 | exported files read back as the store and do not depend on the files before |
| StorageSync.DualWriteShowsFiles | core/src/coordinator_storage.rs:2521-2523 | with dual writing the store comes to show the files: their registry in normal form iff no repeated id was skipped, their cursor, every event of theirs; it fails iff they do not parse or ask for a job twice, and then loses nothing |
| StorageSync.BootstrapIsImport | core/src/coordinator_storage.rs:2537-2549 | a first start imports iff the store has neither metadata nor a task, and then does and fails as an import does |
| StorageSync.SyncSays | core/src/coordinator_storage.rs:2513-2535 | which transfer each mode and phase makes, and what a failed first start leaves |
| StorageSync.BadLineIsLeftOut | core/src/coordinator_storage.rs:316-389 | an event line that does not parse is left out, and no other |
| StorageSync.BootstrapsAtMostOnce | core/src/coordinator_storage.rs:2537-2549 | over every run of operations, edits and transfers the files are bootstrapped at most once |
| RepeatedTransfers.RowsNameThemselves | core/src/coordinator_storage.rs:502-684 | appended events carry their row's id in their JSON, saved ones iff they came with an id |
| RepeatedTransfers.ResavedIsStableIff | core/src/coordinator_storage.rs:2353-2396 | saving a load back adds no event iff every name the save gives, the event's own id or its position, is known to the log |
| RepeatedTransfers.LoadedEventsKnown | core/src/coordinator_storage.rs:2353-2396 | which is so when the stored events carry their ids |
| RepeatedTransfers.SavingStoredTasks | core/src/coordinator_storage.rs:2188-2275 | saving the tasks that are stored changes neither them nor their runtime rows |
| RepeatedTransfers.SameJobsIff | core/src/coordinator_storage.rs:2277-2318 | the job rows of the stored tasks are those of the snapshot, but for times, iff every job the snapshot asked for is asked for by what was stored under its id |
| RepeatedTransfers.DistinctIdsKeepJobs | core/src/coordinator_storage.rs:2188-2318 | which is so for every snapshot with distinct ids |
| RepeatedTransfers.RepeatedIdLosesJob | core/src/coordinator_storage.rs:2188-2318 | and not when a task with a process is overwritten by one of the same id without |
| RepeatedTransfers.TransferIsStable | core/src/coordinator_storage.rs:2551-2565 | after any import that succeeds and an export, importing and exporting again succeeds and leaves tasks, runtime rows, cursors and the registry and cursor files as they were, locks but for their times of writing, and the metadata in normal form; the jobs stay but for times iff no repeated id has lost one; the log becomes its own load saved again, and it and the event file stay iff every name that gives is known |
| RepeatedTransfers.UnnamedEventGrows | core/src/coordinator_storage.rs:2353-2396 | an event without an id, in order behind a named one, gets one more row at every save of a load: after n of them the log has n more rows and the next adds another |
| RepeatedTransfers.UnnamedEventSettles | core/src/coordinator_storage.rs:2353-2396 | one without a sequence number as well, behind a late named one, gets one more row, once |
| RepeatedTransfers.FreshSaveKeepsLocksIff | core/src/coordinator_storage.rs:2321-2351 | saving a registry just loaded keeps the lock table in agreement with the tasks iff every lock's payload parses and every claim has a name; when the table shows no lock and the metadata has some, iff those agree |
| RepeatedTransfers.LocksAgreeThroughoutIff | core/src/coordinator_storage.rs:1787-1880 | over every run that saves only what it has just loaded, tasks and lock table agree in every state iff every save finds locks of that kind |
| RepeatedTransfers.RecomputedIsSaveableIff | core/src/coordinator_storage.rs:1787-1880 | after a recomputation every lock is of that kind iff every holder has a worktree path and a claim with a name |
| RepeatedTransfers.ReleasedLocksComeBack | core/src/coordinator_storage.rs:1988-1990 | with all locks released, saving a registry just loaded stores the metadata's locks again, and no task holds them |
| ConnectionPool.Connections.constructor | core/src/coordinator_storage.rs:398-401 | the pool starts empty |
| ConnectionPool.Connections.Retain | core/src/coordinator_storage.rs:718-727 | the loop keeps, in order, the idle connections with the file's identity and closes the others |
| ConnectionPool.Connections.Reuse | core/src/coordinator_storage.rs:718-734 | hands out the last idle connection with the file's identity iff there is one |
| ConnectionPool.Connections.Connect | core/src/coordinator_storage.rs:735-747 | opens a new connection, creating a missing file, and reads its identity afterwards |
| ConnectionPool.Connections.Open | core/src/coordinator_storage.rs:715-748 | the whole new state of an open; the connection is to the file now at the path if the records are right |
| ConnectionPool.Connections.Drop | core/src/coordinator_storage.rs:438-456 | the whole new state of a drop: pooled iff it has an identity, is in no transaction and the list is not full, else closed |
| ConnectionPool.RunKeepsInv | core/src/coordinator_storage.rs:391-456 | over every run: no connection is both in use and idle or idle twice, none is left behind, none in a transaction is idle, no list is longer than four, and existing files differ in their inode numbers |
| ConnectionPool.FreeInodeOpens | core/src/coordinator_storage.rs:735-747 | an open goes through whatever is at the path |
| ConnectionPool.FileStepSays | core/src/coordinator_storage.rs:735-747 | what others may do to a file while it is opened: replace, link, remove |
| ConnectionPool.TransactionIsNotPooled | core/src/coordinator_storage.rs:438-456 | a connection dropped inside a transaction is closed and leaves the pool as it was |
| ConnectionPool.DropIsPooled | core/src/coordinator_storage.rs:438-456 | one dropped outside a transaction, with an identity and fewer than four in its list, is kept last in that list and no other list changes |
| ConnectionPool.StepRecordsIff | core/src/coordinator_storage.rs:735-747 | a step keeps every recorded identity right iff it is not an open during which the file was replaced |
| ConnectionPool.RunKeepsRecorded | core/src/coordinator_storage.rs:715-748 | so does a run without such an open |
| ConnectionPool.OpenIsCurrent | core/src/coordinator_storage.rs:715-748 | with right records an open hands out a connection to the very file at the path, or to the one it made |
| ConnectionPool.RunHandsOutCurrent | core/src/coordinator_storage.rs:715-748 | over every run without such an open, no open hands out a connection to a replaced file, although inode numbers of forgotten files come back |
| ConnectionPool.ReopenIsCurrentIff | core/src/coordinator_storage.rs:715-748 | open, drop, open: the second hands out the file that is there iff the first did not race, or the list was full |
| ConnectionPool.RaceHappens | core/src/coordinator_storage.rs:735-747 | such a race is possible |
| CommitMessage.Parse | core/src/commit_message.rs:299-349 | the loop over the trailers fills the map and the list as the specification says |
| CommitMessage.TagPrefixReads | core/src/commit_message.rs:276-282 | what the trailer matcher finds is a match of the expression |
| CommitMessage.TagPrefixIsGreedy | core/src/commit_message.rs:276-282 | it finds a match if there is one, the one with the longest white space |
| CommitMessage.MatchSubjectReads | core/src/commit_message.rs:267-273 | what the subject matcher finds is a match of the whole subject |
| CommitMessage.MatchSubjectIsGreedy | core/src/commit_message.rs:267-273 | every match is found, with its type and id, and of the titles the one after the longest white space |
| CommitMessage.TagRoundTripIff | core/src/commit_message.rs:104-116 | a printed trailer reads back as itself iff its key and value are legal |
| CommitMessage.FormattedTagsReadBack | core/src/commit_message.rs:184-197 | a printed list of legal trailers reads back in order |
| CommitMessage.SubjectReadBack | core/src/commit_message.rs:199-206 | a printed subject is matched into its type, id and title |
| CommitMessage.FormatThenParse | core/src/commit_message.rs:267-349 | parsing a printed message gives back type, id, title and trailers (the task trailer added when missing), the last-wins map and the task id |
| CommitMessage.TaskMessagesComeBack | core/src/commit_message.rs:143-206 | a message with a task trailer comes back unchanged |
| CommitMessage.FactoriesAreLegal | core/src/commit_message.rs:233-258 | `task_commit` and `merge_commit` build messages that round-trip |
| CommitMessage.FactoriesPrint | core/src/commit_message.rs:233-258 | the text of a task commit and of a merge commit |
| CommitMessage.ParsedWhatever | core/src/commit_message.rs:299-349 | any text: it is a message iff its first line has a reading that begins with a type; the task is that of the last task trailer, else of the subject, else what the heuristic finds |
| CommitMessage.TypesByName | core/src/commit_message.rs:60-77 | a type is read from its name in any case, and from nothing else |
| CommitMessage.TagMapIsLast | core/src/commit_message.rs:306-311 | the map holds the last value of each key |
| CommitMessage.CharactersOfTheConvention | core/src/commit_message.rs:267-282 | keys and ids by code point |
| Text.WhitespaceCodePoints | core/src/commit_message.rs:267-282 | white space of the expressions by code point |
| CommitCompletion.UnfinishedTaskIds | core/src/commit_completion.rs:61-76 | the result is sorted and holds exactly the ids whose newest verdict is "unfinished" |
| CommitCompletion.NewerHistoryOverlays | core/src/commit_completion.rs:61-76 | newer messages decide where they have a verdict, older ones elsewhere |
| CommitCompletion.TypedSubjectIsNoCheckpoint | core/src/commit_completion.rs:26-59 | no subject in the convention reads as a checkpoint |
| CommitCompletion.TaskCommitCompletesIff | core/src/commit_message.rs:233-247 | a printed task commit completes its own task iff its title is no checkpoint and its phase no draft phase |
| CommitCompletion.PrintedVerdict | core/src/commit_completion.rs:9-58 | a printed commit with any legal trailers: it leaves its task unfinished iff its title is a checkpoint, its last result is none of the three successes, its last validation is not true, its last wip is true or its last phase one of the four, in any case; it completes the task otherwise and says nothing of others |
| CommitCompletion.CheckpointIffReads | core/src/commit_completion.rs:26-30 | the checkpoint matcher is the expression: bracket, word, bracket, scope and end in every way they may be read |
| CommitCompletion.FoldsToLetter | core/src/commit_completion.rs:28-30 | case-insensitive letters of the expression: both cases, and the Kelvin sign and the long s |
| CommitCompletion.MarkedTextIsUnfinished | core/src/commit_completion.rs:26-34 | a text that begins with a marker is unfinished whatever comes after |
| CommitCompletion.MentionProvesNothing | core/src/commit_completion.rs:14-22 | a text without task trailer and outside the convention completes a task only if it begins as a merge subject, and otherwise puts none on the list |
| CommitCompletion.TrailerProves | core/src/commit_completion.rs:9-23 | an unmarked text with a task trailer completes the task of the last one |
| ManagedPaths.ProjectTree.Clear | core/src/lib.rs:1385-1428 | two passes leave exactly the nodes with an unmanaged leaf; `removed` counts the first pass, and `removed + skipped` the managed paths that existed |
| ManagedPaths.ProjectTree.ClearDryRun | core/src/lib.rs:1430-1459 | counts the managed paths that exist, the same sum |
| ManagedPaths.ProjectTree.CleanupEmptyParents | core/src/lib.rs:1461-1493 | one sweep over the parents of what was removed reaches the end |
| ManagedPaths.SortedByDepth | core/src/lib.rs:1398-1403 | all paths, once each, none before a deeper one |
| ManagedPaths.LeavesGoIffManaged | core/src/lib.rs:1385-1428 | a file or empty directory goes iff it is managed |
| ManagedPaths.ClearedIsWellFormed | core/src/lib.rs:1461-1493 | what is left is a tree, and a node is left iff an unmanaged leaf is left in it |
| ManagedPaths.ClearedTwice | core/src/lib.rs:1385-1428 | clearing again removes nothing |
| ManagedPaths.EmptyIffPurged | core/src/lib.rs:1404-1423 | in the first pass, deepest first, a managed node is empty when reached iff all of it is managed |
| ManagedPaths.EmptyIffGone | core/src/lib.rs:1480-1492 | in the second pass a parent is empty when reached iff all its leaves were managed |
| ManagedPaths.GoneIsAbovePurged | core/src/lib.rs:1461-1472 | what the second pass has to remove is a parent of what the first removed |
| ManagedPaths.NormalizeRelativePath | core/src/lib.rs:428-452 | the segment loop returns the named parts of a relative path without parent references |
| ManagedPaths.NormalizedReadsBack | core/src/lib.rs:428-452 | a normalized path reads back unchanged and stays below the root |
| ManagedPaths.PathReadsBack | core/src/lib.rs:428-446 | every legal path is read back whole from how it is written |
| ManagedPaths.PartsAreKept | core/src/lib.rs:428-446 | a written path is refused iff it is empty or absolute, goes up or names nothing; otherwise all its parts but the empty ones and the dots are kept, in order |
| ManagedPaths.RecordedFileIsCleared | core/src/lib.rs:498-507 | a file recorded by its path is removed by the next clearing, and a directory above it is left iff it holds another leaf that is not managed |
| ManagedPaths.OtherFilesStay | core/src/lib.rs:498-507 | recording one path removes no other file |
| ManagedPaths.RecordIsCleared | core/src/lib.rs:1388-1396 | clearing removes the record itself, and its directory if nothing else is left in it |
| ManagedPaths.NestedFileIsCleared | core/src/lib.rs:2507-2530 | a recorded file in two directories of its own: nothing of it is left |
| FsLock.AtMostOneGuard | core/src/fs_lock.rs:22-28 | over every run of open, lock, unlock, close, kill and unlinks of files nobody has open, a path has at most one guard |
| FsLock.AtMostOneGuardWithoutUnlink | core/src/fs_lock.rs:98-120 | in particular over the steps the module takes |
| FsLock.InodeIsStable | core/src/fs_lock.rs:164-175 | a path keeps its first inode until it is unlinked |
| FsLock.UnlinkBreaksExclusion | core/src/fs_lock.rs:22-28 | with an unlink of a held file two guards of one path |
| FsLock.AttemptSucceedsIff | core/src/fs_lock.rs:98-120 | an attempt succeeds iff no live descriptor guards the path and no signal interrupts |
| FsLock.FreePathIsTaken | core/src/fs_lock.rs:98-120 | over every run: when nobody guards a path, the next uninterrupted attempt gets it |
| FsLock.KillReleases | core/src/fs_lock.rs:184-195 | killing the process that guards a path frees it |
| FsLock.NextAttemptAfterKill | core/src/fs_lock.rs:3-21 | after a kill the next attempt of anyone succeeds |
| FsLock.LockIsLostIff | core/src/fs_lock.rs:184-195 | a held lock is lost iff its own descriptor is unlocked or closed or its own process killed, and its file is free then |
| FsLock.LockIsKept | core/src/fs_lock.rs:22-28 | so a guard is kept over every run of others, whatever they open, try, close or have killed |
| FsLock.Kernel.TryAcquire | core/src/fs_lock.rs:98-120 | one attempt: its whole new state, and success iff the path was free and not interrupted |
| FsLock.Kernel.Release | core/src/fs_lock.rs:184-195 | dropping the guard frees the path and leaves the file |
| FsLock.Kernel.AcquireWithRetry | core/src/fs_lock.rs:58-95 | returns a guard or times out, whatever others do meanwhile; every failed attempt was contended or interrupted, and a timeout means the clock had passed it |
| Workflow.PathsMeetNoGate | core/src/coordinator.rs:336-402 | valid steps never enter a gate state, never leave one and never leave `merged` |
| Workflow.PathsAreLong | core/src/coordinator.rs:336-402 | no run to `merged` is shorter than the distance of its start |
| Workflow.Way | core/src/coordinator.rs:336-402 | a run to `merged` of every length from the distance on |
| Workflow.MergedInIff | core/src/coordinator.rs:336-402 | there is a run of length n to `merged` iff n is at least 4 from `abandoned`, 3 from `todo`, 2 from `claimed` or `blocked`, 1 from other work, and none from a gate |
| Workflow.MergedWasClaimed | core/src/coordinator.rs:336-402 | work that starts in `todo` or `abandoned` is claimed before it is merged |
| Workflow.InterleavingIff | core/src/coordinator.rs:336-402 | an interleaving is valid iff what each task does is |
| Workflow.AfterIsOwn | core/src/coordinator.rs:336-402 | a task ends where its own moves take it |
| Workflow.SatisfiedIff | core/src/coordinator.rs:149-153 | met dependencies stay met, and the new ones are exactly the tasks merged on the way |
| Workflow.ReadyStaysReady | core/src/coordinator/task_selector.rs:598-606 | a task whose dependencies are ready keeps them ready |
| Workflow.ReadyIff | core/src/coordinator/task_selector.rs:598-606 | after any run dependencies are ready iff each is merged outside, was merged or approved before, or has been merged on the way |
| Workflow.TodoBecomesReadyByWork | core/src/coordinator.rs:149-153 | a task in `todo` comes to satisfy dependants only after being claimed and merged, in three moves at least |
| Workflow.ReachedFrom | core/src/coordinator.rs:336-402 | the transition table read from the states that are entered |
| GitLog.RecordReadBackIff | core/src/git.rs:446-470 | a printed record reads back as its commit iff its texts are trimmed and without separators, its parents are words and its time fits |
| GitLog.ParsedIsPlain | core/src/git.rs:446-470 | whatever record is read, the commit is of that kind |
| GitLog.ParseIntIff | core/src/git.rs:457 | a time is read from a sign or none and digits, within 64 bits, and from nothing else |
| GitLog.LogReadBack | core/src/git.rs:427-433 | a whole printed log reads back, commit by commit |
| GitGraph.ClearPages | core/src/git.rs:427-444 | with clear cursors the pages are a prefix of the log, and enough of them are all of it |
| GitGraph.UnclearPages | core/src/git.rs:434-444 | otherwise they repeat commits |
| GitGraph.PagingIsCompleteIff | core/src/git.rs:427-444 | paging yields every commit exactly once, in order, iff the last commit of no page names an earlier one |
| GitGraph.ClearPagesStop | core/src/git.rs:427-444 | there are no more pages than commits |
| GitGraph.DistinctShasAreClear | core/src/git.rs:434-444 | distinct shas of one length make clear cursors at every positive limit |
| GitGraph.PagedLogIsComplete | core/src/git.rs:395-444 | printed, read and paged, such a log gives every commit once |
| GitGraph.PagesWalk | core/src/git.rs:427-444 | whatever the shas, the pages are the stretches of the log at the starts the cursors lead to, and there is a next one iff the end is not reached |
| GitGraph.PagingEndsIff | core/src/git.rs:427-444 | paging ends, with no more pages than commits, iff no page starts where an earlier one did; otherwise there is always a next page |
| GitGraph.PrefixShaMayEnd | core/src/git.rs:434-444 | five commits in pages of three, the third sha beginning the first: two commits come again, and paging ends |
| GitGraph.PrefixShaRepeats | core/src/git.rs:434-444 | two commits in pages of one, the second sha beginning the first: the second is served for ever |

## Left out

Of the store:

- SQL text, serialization, WAL, busy timeouts, `VACUUM` and clocks: a payload is the value it encodes, `rowid` order is arrival order, and times are arguments. A stored payload that does not parse has no counterpart but that of a lock without a worktree path, so the other branches that skip or reject one are not modelled.
- Columns nothing modelled reads: time, source, phase and status of events, path, inode and offset of cursors, the time of `event_cursor`.
- `load_events_after`, `event_seq`, `get_cursor`, `get_running_task_pids`, the control, run, gate decision and throttle tables, and parity checks: tables and readers with no part in the properties above.
- Structs of the registry are modelled as far as the store reads them; the other members of a task, runtime, review, worktree and lock are one `rest` field each.
- The lock table's emptiness is not visible through `load_registry`, which falls back to the locks in the metadata; the lemmas about locks speak of the table.
- One `sync` call reads the clock once here and at each step there.
- `events` brought back by a save: a save may store pruned heartbeats again, so nothing is claimed about which heartbeats are absent.
- Tasks.MutationKeepsSound: stated for tasks that satisfy the rules before; a snapshot may bring in tasks that do not, which `StoreRuns.RunKeepsSound` excludes by its condition on saves.
- StoreRuns.RedeliveryChangesNothing: transitions and runtime reports only, the mutations that carry an event.

Of the pool:

- `is_autocommit` is a flag set by whoever uses the connection; pragmas and failing opens are not modelled, nor are platforms without inode numbers, where nothing is pooled.
- That a pool is local to its thread is modelled by the key of its list; a connection may be dropped on another thread than it was opened on.

Of commit messages:

- The legacy heuristic that finds an id in a subject is a parameter of the parser.
- `shell_commit_args`, `is_merge` and the other builders, which add trailers like the one modelled.
- CommitMessage.FormatThenParse: for messages with a legal id, title and trailers, as the printer's callers build them; `CommitMessage.TagRoundTripIff` has the exact condition for trailers.

Of managed paths:

- Symbolic links, permission failures and backslashes in paths; the order among paths of equal depth, which changes nothing.
- The file the recorded paths are kept in: the recorded set is an argument.

Of the lock:

- Descriptors inherited by child processes, file system errors, creating parent directories, and platforms that lock in other ways.
- FsLock.Kernel.AcquireWithRetry: the clock and the steps of others between attempts are arguments, and the clock is asked to pass the timeout at some attempt.

Of workflow states:

- Which component takes which step: only the transition table and what follows from it. The runtime status table is left out; it would add only finite checks.

Of git:

- Running git; `refs` of a commit are kept as the text git prints; splitting that text is left out.
- `worktrees_for_branch` and the other helpers.

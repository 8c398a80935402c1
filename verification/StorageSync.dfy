/**
 The JSON files beside the SQLite store and the transfers between the two:
 what a registry becomes on its way through the database, and which side wins.
 */
module StorageSync {
  import opened Wrappers
  import opened Text
  import opened Tasks
  import opened EventLog
  import opened TaskTables
  import opened CoordinatorStore
  import opened StoreRuns

  // ---- a registry through the database ------------------------------------

  /** The tasks with an id, in id order. */
  function TasksById(ts: seq<Task>): seq<Task>
  {
    var ids := Ordered(KeptIds(ts));
    seq(|ids|, i requires 0 <= i < |ids| => LastWithId(ts, ids[i]).GetOr(ts[0]))
  }

  /** What `load_registry` makes of a registry that `save_snapshot` stored. */
  function NormalForm(reg: TaskRegistry, now: string): TaskRegistry
  {
    reg.(tasks := TasksById(reg.tasks), updatedAt := Some(reg.updatedAt.GetOr(now)), extra := DEFAULT_EXTRA + reg.extra)
  }

  lemma TasksByIdAt(ts: seq<Task>, i: nat)
    requires i < |Ordered(KeptIds(ts))|
    ensures ts != [] && LastWithId(ts, Ordered(KeptIds(ts))[i]) == Some(TasksById(ts)[i])
    ensures TasksById(ts)[i].id == Ordered(KeptIds(ts))[i]
  {
    var id := Ordered(KeptIds(ts))[i];
    assert id in Ordered(KeptIds(ts));
    LastWithIdExists(ts, id);
  }

  lemma {:induction false} OnlyTaskWithId(ts: seq<Task>, i: nat)
    requires i < |ts| && ts[i].id != "" && DistinctTaskIds(ts)
    ensures LastWithId(ts, ts[i].id) == Some(ts[i])
  {
    if i < |ts| - 1 { OnlyTaskWithId(ts[..|ts| - 1], i); }
  }

  /** Sorted by id: of each id the last task that has it, and so all tasks with an id when no two share one. */
  lemma TasksByIdAreTheTasks(ts: seq<Task>)
    ensures forall i, j | 0 <= i < j < |TasksById(ts)| ::
              TasksById(ts)[i].id != TasksById(ts)[j].id && StringLe(TasksById(ts)[i].id, TasksById(ts)[j].id)
    ensures forall t :: t in TasksById(ts) <==> t.id != "" && LastWithId(ts, t.id) == Some(t)
    ensures DistinctTaskIds(ts) ==> forall t :: t in TasksById(ts) <==> t in ts && t.id != ""
  {
    var ids := Ordered(KeptIds(ts));
    forall i | 0 <= i < |ids|
      ensures TasksById(ts)[i].id == ids[i] != "" && LastWithId(ts, ids[i]) == Some(TasksById(ts)[i])
    {
      TasksByIdAt(ts, i);
      assert ids[i] in ids;
    }
    forall t: Task | t.id != "" && LastWithId(ts, t.id) == Some(t) ensures t in TasksById(ts) {
      LastWithIdExists(ts, t.id);
      var i :| 0 <= i < |ids| && ids[i] == t.id;
      TasksByIdAt(ts, i);
    }
    if DistinctTaskIds(ts) {
      forall t: Task | t.id != "" ensures t in ts <==> LastWithId(ts, t.id) == Some(t) { MemberIsLast(ts, t); }
    }
  }

  lemma {:induction false} LastIsMember(ts: seq<Task>, id: string)
    ensures LastWithId(ts, id).Some? ==> LastWithId(ts, id).value in ts && LastWithId(ts, id).value.id == id
  {
    if ts != [] && ts[|ts| - 1].id != id { LastIsMember(ts[..|ts| - 1], id); }
  }

  lemma MemberIsLast(ts: seq<Task>, t: Task)
    requires DistinctTaskIds(ts) && t.id != ""
    ensures t in ts <==> LastWithId(ts, t.id) == Some(t)
  {
    LastIsMember(ts, t.id);
    if t in ts {
      var i :| 0 <= i < |ts| && ts[i] == t;
      OnlyTaskWithId(ts, i);
    }
  }

  /** Tasks whose ids are a set of ids in order. */
  predicate InIdOrder(ts: seq<Task>, ids: set<string>)
  {
    |ts| == |Ordered(ids)| && forall i | 0 <= i < |ts| :: ts[i].id == Ordered(ids)[i] != ""
  }

  lemma InIdOrderIds(ts: seq<Task>, ids: set<string>)
    requires InIdOrder(ts, ids)
    ensures DistinctTaskIds(ts)
    ensures KeptIds(ts) == ids
  {
    hide StringLe, Ordered;
    var keys := Ordered(ids);
    forall id | id in ids ensures id in KeptIds(ts) {
      var i :| 0 <= i < |keys| && keys[i] == id;
      assert ts[i].id == id;
    }
    forall id | id in KeptIds(ts) ensures id in ids {
      var i := KeptIdPosition(ts, id);
      assert keys[i] in keys;
    }
  }

  /** Such tasks are in normal form. */
  lemma InIdOrderIsNormal(ts: seq<Task>, ids: set<string>)
    requires InIdOrder(ts, ids)
    ensures TasksById(ts) == ts
  {
    InIdOrderIds(ts, ids);
    hide KeptIds, LastWithId, DistinctTaskIds;
    forall i | 0 <= i < |ts| ensures TasksById(ts)[i] == ts[i] {
      TasksByIdAt(ts, i);
      OnlyTaskWithId(ts, i);
    }
  }

  lemma NormalTasksAreDistinct(ts: seq<Task>)
    ensures DistinctTaskIds(TasksById(ts)) && TasksById(TasksById(ts)) == TasksById(ts)
  {
    var sorted, ids := TasksById(ts), Ordered(KeptIds(ts));
    forall i | 0 <= i < |ids| ensures sorted[i].id == ids[i] != "" {
      TasksByIdAt(ts, i);
      assert ids[i] in ids;
    }
    assert |sorted| == |ids|;
    hide TasksById, DistinctTaskIds, KeptIds, Ordered;
    InIdOrderIds(sorted, KeptIds(ts));
    InIdOrderIsNormal(sorted, KeptIds(ts));
  }

  /** Normalizing twice is normalizing once, whatever the clock says in between. */
  lemma NormalFormTwice(reg: TaskRegistry, first: string, second: string)
    ensures NormalForm(NormalForm(reg, first), second) == NormalForm(reg, first)
  {
    NormalTasksAreDistinct(reg.tasks);
    hide TasksById;
    assert DEFAULT_EXTRA + (DEFAULT_EXTRA + reg.extra) == DEFAULT_EXTRA + reg.extra;
  }

  // ---- stored tasks ---------------------------------------------------------

  lemma InOrderAt(stored: TaskTable, i: nat)
    requires WellKeyed(stored) && i < |TasksInOrder(stored)|
    ensures var t := TasksInOrder(stored)[i]; t.id == Ordered(stored.Keys)[i] != "" && Unchanged(stored, t)
  {
    assert Ordered(stored.Keys)[i] in Ordered(stored.Keys);
  }

  /** What is stored is in normal form. */
  lemma StoredIsNormal(stored: TaskTable)
    requires WellKeyed(stored)
    ensures KeptIds(TasksInOrder(stored)) == stored.Keys && DistinctTaskIds(TasksInOrder(stored))
    ensures TasksById(TasksInOrder(stored)) == TasksInOrder(stored)
  {
    var ts := TasksInOrder(stored);
    forall i | 0 <= i < |ts| ensures ts[i].id == Ordered(stored.Keys)[i] != "" { InOrderAt(stored, i); }
    hide TasksInOrder, TasksById, DistinctTaskIds, KeptIds, WellKeyed, Ordered;
    InIdOrderIds(ts, stored.Keys);
    InIdOrderIsNormal(ts, stored.Keys);
  }

  lemma StoredInOrderIff(stored: TaskTable, ts: seq<Task>)
    requires WellKeyed(stored) && stored.Keys == KeptIds(ts)
    ensures TasksInOrder(stored) == TasksById(ts)
       <==> forall id | id in stored :: LastWithId(ts, id) == Some(stored[id].payload)
  {
    hide LastWithId, WellKeyed, KeptIds, Ordered;
    var ids := Ordered(stored.Keys);
    forall i | 0 <= i < |ids|
      ensures ids[i] in stored && TasksInOrder(stored)[i] == stored[ids[i]].payload
      ensures LastWithId(ts, ids[i]) == Some(TasksById(ts)[i])
    {
      TasksByIdAt(ts, i);
      assert ids[i] in ids;
    }
    if TasksInOrder(stored) == TasksById(ts) {
      forall id | id in stored ensures LastWithId(ts, id) == Some(stored[id].payload) {
        var i :| 0 <= i < |ids| && ids[i] == id;
      }
    }
  }

  lemma SavedLocksPayloads(locks: map<string, ResourceLock>, now: string)
    ensures forall key | key in SavedLocks(locks, now) ::
              key.resource in locks && SavedLocks(locks, now)[key].payload == Some(locks[key.resource])
    ensures forall r | r in locks :: SavedLockKey(r, locks[r]) in SavedLocks(locks, now)
  {
  }

  lemma SavedLocksRoundTrip(locks: map<string, ResourceLock>, now: string)
    ensures LockPayloads(SavedLocks(locks, now)) == locks
  {
    var table := SavedLocks(locks, now);
    SavedLocksExclusive(locks, now);
    SavedLocksPayloads(locks, now);
    hide SavedLocks, SavedLockRow;
    forall r | r in locks ensures r in LockPayloads(table) {
      assert table[SavedLockKey(r, locks[r])].payload == Some(locks[r]);
    }
  }

  /** Tasks with distinct ids never ask for one job row twice, so saving them cannot fail. */
  lemma DistinctIdsSave(ts: seq<Task>, now: string)
    requires DistinctTaskIds(ts)
    ensures JobsOf(ts, now).Some?
  {
    JobsOfIff(ts, now);
  }

  // ---- a load after a save ----------------------------------------------------

  lemma RegistryOfNormal(tasks: TaskTable, locks: LockTable, reg: TaskRegistry, now: string)
    requires Exclusive(locks) && TasksInOrder(tasks) == TasksById(reg.tasks) && LockPayloads(locks) == reg.resourceLocks
    ensures RegistryOf(tasks, locks, Some(reg.(tasks := [])), now) == NormalForm(reg, now)
  {
    MetaCompletes(TablesRegistry(tasks, locks, now), reg, now);
  }

  lemma MetaCompletes(tables: TaskRegistry, reg: TaskRegistry, now: string)
    requires tables == TaskRegistry(TasksById(reg.tasks), reg.resourceLocks, {}, Some(now), DEFAULT_EXTRA)
    ensures WithMeta(tables, reg.(tasks := [])) == NormalForm(reg, now)
  {
    assert {} + reg.externalMergedTaskIds == reg.externalMergedTaskIds;
  }

  lemma SavedParts(db: Db, snapshot: Snapshot, now: string)
    requires Consistent(db) && JobsOf(snapshot.registry.tasks, now).Some?
    ensures var after := SavedDb(db, snapshot, now);
            && Consistent(after) && WellKeyed(after.tasks) && Exclusive(after.locks) && after.version == db.version
            && after.locks == SavedLocks(snapshot.registry.resourceLocks, now)
            && after.registryMeta == Some(snapshot.registry.(tasks := [])) && LoadedCursor(after) == snapshot.cursor
  {
    hide JobsOf, Saved, SavedLocks, InsertAll, WellKeyed, Exclusive, DistinctIds;
    SaveKeepsConsistent(db, snapshot, now);
    assert SavedDb(db, snapshot, now) == ApplySave(db, snapshot, now);
  }

  /** Whatever is saved, a load returns the normal form of it with the tasks that were stored. */
  lemma LoadedIsStored(db: Db, snapshot: Snapshot, savedAt: string, loadedAt: string)
    requires Consistent(db) && JobsOf(snapshot.registry.tasks, savedAt).Some?
    ensures var after := SavedDb(db, snapshot, savedAt);
            && Consistent(after)
            && LoadedRegistry(after, loadedAt)
               == NormalForm(snapshot.registry.(tasks := TasksInOrder(after.tasks)), loadedAt)
            && LoadedCursor(after) == snapshot.cursor
  {
    hide JobsOf, SavedDb, SavedLocks, LockPayloads, TasksInOrder, RegistryOf, NormalForm, WellKeyed, Exclusive,
         Consistent, LoadedCursor, TasksById, KeptIds, DistinctTaskIds;
    SavedParts(db, snapshot, savedAt);
    var after := SavedDb(db, snapshot, savedAt);
    SavedLocksRoundTrip(snapshot.registry.resourceLocks, savedAt);
    StoredIsNormal(after.tasks);
    RegistryOfNormal(after.tasks, after.locks, snapshot.registry.(tasks := TasksInOrder(after.tasks)), loadedAt);
  }

  lemma SavedIsLastIff(stored: TaskTable, runtime: RuntimeTable, ts: seq<Task>, now: string, id: string)
    requires WellKeyed(stored) && id in KeptIds(ts)
    ensures var tasks := Saved(stored, runtime, ts, now).tasks;
            id in tasks && (LastWithId(ts, id) == Some(tasks[id].payload) <==> !SkipsLast(stored, ts, id))
  {
    IncrementalRowIsRewrittenIff(stored, runtime, ts, now, id);
    RewrittenHoldsLast(ts, now, id);
  }

  lemma SavedKeys(stored: TaskTable, runtime: RuntimeTable, ts: seq<Task>, now: string)
    requires WellKeyed(stored)
    ensures Saved(stored, runtime, ts, now).tasks.Keys == KeptIds(ts)
  {
    var tasks := Saved(stored, runtime, ts, now).tasks;
    SaveHoldsLastWritten(stored, SaveStart(stored, runtime, ts), ts, now, "x");
    forall id | id != "" ensures id in tasks <==> id in KeptIds(ts) {
      IncrementalRowIsRewrittenIff(stored, runtime, ts, now, id);
    }
    hide Saved, WellKeyed;
  }

  lemma StoredIsNormalIff(stored: TaskTable, runtime: RuntimeTable, ts: seq<Task>, now: string)
    requires WellKeyed(stored) && WellKeyed(Saved(stored, runtime, ts, now).tasks)
    ensures TasksInOrder(Saved(stored, runtime, ts, now).tasks) == TasksById(ts)
       <==> !(exists id | id in KeptIds(ts) :: SkipsLast(stored, ts, id))
  {
    hide Saved, WellKeyed, TasksInOrder, TasksById, LastWithId, SkipsLast, KeptIds;
    SavedKeys(stored, runtime, ts, now);
    StoredInOrderIff(Saved(stored, runtime, ts, now).tasks, ts);
    forall id | id in KeptIds(ts)
      ensures var tasks := Saved(stored, runtime, ts, now).tasks;
              id in tasks && (LastWithId(ts, id) == Some(tasks[id].payload) <==> !SkipsLast(stored, ts, id))
    {
      SavedIsLastIff(stored, runtime, ts, now, id);
    }
  }

  lemma NoneSkipped(stored: TaskTable, ts: seq<Task>)
    requires DistinctTaskIds(ts)
    ensures forall id | id in KeptIds(ts) :: !SkipsLast(stored, ts, id)
  {
    forall i | 0 <= i < |ts| && ts[i].id != "" ensures LastWithId(ts, ts[i].id) == Some(ts[i]) {
      OnlyTaskWithId(ts, i);
    }
  }

  /**
   A saved registry loads as its normal form if and only if there is no id whose
   last task the save skips after writing an earlier one, as there is none when
   ids are distinct; the cursor comes back exactly in any case.
   */
  lemma LoadAfterSaveIff(db: Db, snapshot: Snapshot, savedAt: string, loadedAt: string)
    requires Consistent(db) && JobsOf(snapshot.registry.tasks, savedAt).Some?
    ensures var after, ts := ApplySave(db, snapshot, savedAt), snapshot.registry.tasks;
            && Consistent(after) && LoadedCursor(after) == snapshot.cursor
            && (LoadedRegistry(after, loadedAt) == NormalForm(snapshot.registry, loadedAt) <==>
                !(exists id | id in KeptIds(ts) :: SkipsLast(db.tasks, ts, id)))
            && (DistinctTaskIds(ts) ==> !(exists id | id in KeptIds(ts) :: SkipsLast(db.tasks, ts, id)))
  {
    hide JobsOf, Saved, SavedLocks, TasksInOrder, TasksById, InsertAll, LoadedRegistry, KeptIds, SkipsLast, WellKeyed,
         DistinctTaskIds;
    if DistinctTaskIds(snapshot.registry.tasks) { NoneSkipped(db.tasks, snapshot.registry.tasks); }
    LoadedIsStored(db, snapshot, savedAt, loadedAt);
    StoredIsNormalIff(db.tasks, db.runtime, snapshot.registry.tasks, savedAt);
    StoredIsNormal(SavedDb(db, snapshot, savedAt).tasks);
  }

  // ---- the JSON side -------------------------------------------------------

  datatype JsonFile<T> = Missing | Malformed | Holds(value: T)

  /** The registry file, the lines of the event file (one that does not parse is `None`), and the cursor file. */
  datatype JsonSide = JsonSide(
    registry: JsonFile<TaskRegistry>, events: seq<Option<EventRecord>>, cursor: JsonFile<CoordinatorCursor>)

  datatype SyncError = JsonUnreadable | Storage(cause: StorageError)

  function DefaultRegistry(now: string): TaskRegistry { TaskRegistry([], map[], {}, Some(now), DEFAULT_EXTRA) }

  function ParsedLines(lines: seq<Option<EventRecord>>): seq<EventRecord>
  {
    if lines == [] then [] else (if lines[0].Some? then [lines[0].value] else []) + ParsedLines(lines[1..])
  }

  /** One line per event. */
  function PrintedLines(events: seq<EventRecord>): seq<Option<EventRecord>>
  {
    seq(|events|, i requires 0 <= i < |events| => Some(events[i]))
  }

  /** `JsonStorage::load_snapshot` */
  function JsonLoaded(json: JsonSide, now: string): Result<Snapshot, SyncError>
  {
    if json.registry.Malformed? || json.cursor.Malformed? then Err(JsonUnreadable)
    else Ok(Snapshot(if json.registry.Holds? then json.registry.value else DefaultRegistry(now),
                     ParsedLines(json.events),
                     if json.cursor.Holds? then Some(json.cursor.value) else None))
  }

  /** `JsonStorage::save_snapshot` */
  function JsonSaved(snapshot: Snapshot): JsonSide
  {
    JsonSide(Holds(snapshot.registry),
             PrintedLines(snapshot.events),
             if snapshot.cursor.Some? then Holds(snapshot.cursor.value) else Missing)
  }

  lemma {:induction false} ParsedLinesRoundTrip(events: seq<EventRecord>)
    ensures ParsedLines(PrintedLines(events)) == events
  {
    if events != [] {
      ParsedLinesRoundTrip(events[1..]);
      assert PrintedLines(events)[1..] == PrintedLines(events[1..]);
    }
  }

  /** Reading back the files a save wrote. */
  lemma JsonRoundTrip(snapshot: Snapshot, now: string)
    ensures JsonLoaded(JsonSaved(snapshot), now) == Ok(snapshot)
  {
    ParsedLinesRoundTrip(snapshot.events);
  }

  // ---- transfers -----------------------------------------------------------

  datatype Project = Project(json: JsonSide, db: Db)
  datatype Mode = JsonMode | DualWrite | Sqlite
  datatype Phase = Pre | Post

  function SavedInto(db: Db, snapshot: Result<Snapshot, SyncError>, now: string): (Db, Result<Done, SyncError>)
  {
    if snapshot.Err? then (db, Err(snapshot.error))
    else if JobsOf(snapshot.value.registry.tasks, now).None? then (SchemaReady(db), Err(Storage(JobExists)))
    else (ApplySave(SchemaReady(db), snapshot.value, now), Ok(Done))
  }

  function Imported(p: Project, now: string): (Project, Result<Done, SyncError>)
  {
    var r := SavedInto(p.db, JsonLoaded(p.json, now), now);
    (p.(db := r.0), r.1)
  }

  function Exported(p: Project, now: string): Project
    requires Consistent(p.db)
  {
    SchemaKeepsConsistent(p.db);
    Project(JsonSaved(LoadedSnapshot(SchemaReady(p.db), now)), SchemaReady(p.db))
  }

  /** The import of a first start: only into a store without data. The result says whether it took place. */
  function Bootstrapped(p: Project, now: string): (Project, Result<bool, SyncError>)
  {
    var db := SchemaReady(p.db);
    if HasSnapshotData(db) then (p.(db := db), Ok(false))
    else
      var r := SavedInto(db, JsonLoaded(p.json, now), now);
      (p.(db := r.0), if r.1.Ok? then Ok(true) else Err(r.1.error))
  }

  function Synced(p: Project, mode: Mode, phase: Phase, now: string): (r: (Project, Result<Done, SyncError>))
    requires Consistent(p.db)
  {
    if mode.JsonMode? then (p, Ok(Done))
    else if mode.DualWrite? then Imported(p, now)
    else if phase.Post? then (Exported(p, now), Ok(Done))
    else
      var b := Bootstrapped(p, now);
      if b.1.Err? then (b.0, Err(b.1.error))
      else if b.1.value then (b.0, Ok(Done))
      else
        SchemaKeepsConsistent(p.db);
        (Exported(b.0, now), Ok(Done))
  }

  /** Both sides of a project. */
  class ProjectStorage {
    var json: JsonSide
    const sqlite: SqliteStorage

    constructor (files: JsonSide, store: SqliteStorage)
      ensures json == files && sqlite == store
    {
      json, sqlite := files, store;
    }

    function State(): Project
      reads this, sqlite
    {
      Project(json, sqlite.State())
    }

    method ImportJsonToSqlite(now: string) returns (r: Result<Done, SyncError>)
      modifies this, sqlite
      ensures (State(), r) == Imported(old(State()), now)
    {
      var loaded := JsonLoaded(json, now);
      if loaded.Err? { return Err(loaded.error); }
      var saved := sqlite.SaveSnapshot(loaded.value, now);
      r := if saved.Ok? then Ok(Done) else Err(Storage(saved.error));
    }

    method ExportSqliteToJson(now: string)
      requires Consistent(sqlite.State())
      modifies this, sqlite
      ensures State() == Exported(old(State()), now)
    {
      SchemaKeepsConsistent(sqlite.State());
      var snapshot := sqlite.LoadSnapshot(now);
      json := JsonSaved(snapshot);
    }

    method BootstrapSqliteFromJson(now: string) returns (r: Result<bool, SyncError>)
      modifies this, sqlite
      ensures (State(), r) == Bootstrapped(old(State()), now)
    {
      var has := sqlite.HasSavedData();
      if has { return Ok(false); }
      var loaded := JsonLoaded(json, now);
      if loaded.Err? { return Err(loaded.error); }
      var saved := sqlite.SaveSnapshot(loaded.value, now);
      r := if saved.Ok? then Ok(true) else Err(Storage(saved.error));
    }

    method SyncCoordinatorStorage(mode: Mode, phase: Phase, now: string) returns (r: Result<Done, SyncError>)
      requires Consistent(sqlite.State())
      modifies this, sqlite
      ensures (State(), r) == Synced(old(State()), mode, phase, now)
    {
      match mode
      case JsonMode => return Ok(Done);
      case DualWrite => r := ImportJsonToSqlite(now);
      case Sqlite =>
        if phase == Post {
          ExportSqliteToJson(now);
          return Ok(Done);
        }
        SchemaKeepsConsistent(sqlite.State());
        var imported := BootstrapSqliteFromJson(now);
        if imported.Err? { return Err(imported.error); }
        if !imported.value { ExportSqliteToJson(now); }
        r := Ok(Done);
    }
  }

  // ---- which side wins -----------------------------------------------------

  /** Setting up the schema changes no answer about the registry or the cursor. */
  lemma SchemaKeepsRegistry(db: Db, now: string)
    requires Consistent(db)
    ensures Consistent(SchemaReady(db))
    ensures LoadedRegistry(SchemaReady(db), now) == LoadedRegistry(db, now)
        && LoadedCursor(SchemaReady(db)) == LoadedCursor(db)
  {
    hide RegistryOf;
    SchemaKeepsConsistent(db);
  }

  /**
   In sqlite mode a store with data is left alone by both phases, and the files
   come to show exactly what it holds, whatever they held before.
   */
  lemma SqliteIsAuthoritative(p: Project, phase: Phase, now: string)
    requires Consistent(p.db) && (phase.Pre? ==> HasSnapshotData(p.db))
    ensures var (after, r) := Synced(p, Sqlite, phase, now);
            && r == Ok(Done) && after == Exported(p, now) && after.db == SchemaReady(p.db) && Consistent(after.db)
            && LoadedRegistry(after.db, now) == LoadedRegistry(p.db, now)
            && LoadedCursor(after.db) == LoadedCursor(p.db)
            && JsonLoaded(after.json, now) == Ok(LoadedSnapshot(after.db, now))
  {
    hide RegistryOf, JsonLoaded, JsonSaved, LoadedSnapshot, Consistent, Migrated;
    SchemaKeepsRegistry(p.db, now);
    ExportShowsStore(p, now);
    if phase.Pre? {
      assert HasSnapshotData(SchemaReady(p.db));
      assert Bootstrapped(p, now) == (p.(db := SchemaReady(p.db)), Ok(false));
    }
  }

  /** The files an export writes read back as the store, and do not depend on the files before it. */
  lemma ExportShowsStore(p: Project, now: string)
    requires Consistent(p.db)
    ensures var after := Exported(p, now);
            && after.db == SchemaReady(p.db) && Consistent(after.db)
            && JsonLoaded(after.json, now) == Ok(LoadedSnapshot(after.db, now))
            && forall other: JsonSide :: Exported(p.(json := other), now) == after
  {
    SchemaKeepsConsistent(p.db);
    JsonRoundTrip(LoadedSnapshot(SchemaReady(p.db), now), now);
  }

  /**
   A first start imports the files exactly if the store has no metadata and no
   task; it does then what an import does.
   */
  lemma BootstrapIsImport(p: Project, now: string)
    ensures var (after, r) := Bootstrapped(p, now);
            if p.db.registryMeta.Some? || exists id :: id in p.db.tasks then
              r == Ok(false) && after == p.(db := SchemaReady(p.db))
            else
              var (imported, done) := Imported(p, now);
              && (r.Ok? <==> done.Ok?) && (r.Ok? ==> r.value && after == imported)
              && (r.Err? ==> done == Err(r.error) && after == p.(db := SchemaReady(p.db)))
  {
    hide ApplySave, JobsOf, JsonLoaded, Migrated;
    assert SchemaReady(SchemaReady(p.db)) == SchemaReady(p.db);
  }

  /** What a sync does: nothing, an import, an export, or a first start and, if that had nothing to do, an export. */
  lemma SyncSays(p: Project, phase: Phase, now: string)
    requires Consistent(p.db)
    ensures Synced(p, JsonMode, phase, now) == (p, Ok(Done))
    ensures Synced(p, DualWrite, phase, now) == Imported(p, now)
    ensures Synced(p, Sqlite, Post, now) == (Exported(p, now), Ok(Done))
    ensures var (started, r) := Bootstrapped(p, now);
            && (r == Ok(true) ==> Synced(p, Sqlite, Pre, now) == (started, Ok(Done)))
            && (r == Ok(false) ==> Synced(p, Sqlite, Pre, now) == (Exported(p, now), Ok(Done)))
            && (r.Err? ==> Synced(p, Sqlite, Pre, now) == (started, Err(r.error)))
  {
    hide JsonLoaded, JsonSaved, LoadedSnapshot, ApplySave, JobsOf, Migrated, Consistent;
    assert SchemaReady(SchemaReady(p.db)) == SchemaReady(p.db);
  }

  /** A line that does not parse is left out, and no other. */
  lemma {:induction false} BadLineIsLeftOut(before: seq<Option<EventRecord>>, after: seq<Option<EventRecord>>)
    ensures ParsedLines(before + [None] + after) == ParsedLines(before + after)
  {
    if before == [] {
      assert [] + [None] + after == [None] + after && [] + after == after;
      assert ([None] + after)[1..] == after;
    } else {
      BadLineIsLeftOut(before[1..], after);
      assert (before + [None] + after)[1..] == before[1..] + [None] + after;
      assert (before + after)[1..] == before[1..] + after;
    }
  }

  /**
   Writing both sides, the store comes to show what the files hold: their registry
   in normal form unless a repeated id was skipped, their cursor, and every event of
   theirs under its id. It fails, and the files are left alone, if they do not
   parse or ask for a job row twice.
   */
  lemma DualWriteShowsFiles(p: Project, phase: Phase, now: string, loadedAt: string)
    requires Consistent(p.db)
    ensures var (after, r) := Synced(p, DualWrite, phase, now);
            && after.json == p.json && Consistent(after.db)
            && (r.Err? <==> p.json.registry.Malformed? || p.json.cursor.Malformed?
                            || (p.json.registry.Holds? && AskedTwice(p.json.registry.value.tasks)))
            && (r.Err? ==> after.db in {p.db, SchemaReady(p.db)})
            && (r.Ok? ==>
                  && (var reg := if p.json.registry.Holds? then p.json.registry.value else DefaultRegistry(now);
                      LoadedRegistry(after.db, loadedAt) == NormalForm(reg, loadedAt) <==>
                      !(exists id | id in KeptIds(reg.tasks) :: SkipsLast(p.db.tasks, reg.tasks, id)))
                  && LoadedCursor(after.db) == (if p.json.cursor.Holds? then Some(p.json.cursor.value) else None)
                  && forall e | Some(e) in p.json.events && e.eventId != "" :: HasId(after.db.events, e.eventId))
  {
    hide ApplySave, LoadedRegistry, LoadedCursor, NormalForm, Consistent, HasId, JobsOf, SkipsLast, KeptIds, Migrated,
         AskedTwice, ParsedLines, SchemaReady;
    SchemaKeepsConsistent(p.db);
    var ready := SchemaReady(p.db);
    var loaded := JsonLoaded(p.json, now);
    if loaded.Ok? {
      JobsOfIff(loaded.value.registry.tasks, now);
      SavedIntoConsistent(p.db, loaded, now);
      assert p.json.registry.Missing? ==> !AskedTwice(loaded.value.registry.tasks) by { NoneAskedTwice(); }
      if JobsOf(loaded.value.registry.tasks, now).Some? {
        LoadAfterSaveIff(ready, loaded.value, now, loadedAt);
        ReadyTasks(p.db);
        forall e | Some(e) in p.json.events && e.eventId != ""
          ensures HasId(ApplySave(ready, loaded.value, now).events, e.eventId)
        {
          LinesAreParsed(p.json.events, e);
          SavedEventHasId(ready, loaded.value, now, e);
        }
      }
    }
  }

  lemma NoneAskedTwice()
    ensures !AskedTwice([])
  {
  }

  lemma ReadyTasks(db: Db)
    ensures SchemaReady(db).tasks == db.tasks
  {
  }

  lemma {:induction false} LinesAreParsed(lines: seq<Option<EventRecord>>, e: EventRecord)
    requires Some(e) in lines
    ensures e in ParsedLines(lines)
  {
    if lines[0] != Some(e) { LinesAreParsed(lines[1..], e); }
  }

  lemma {:induction false} InsertAllHasIds(log: seq<EventRow>, rows: seq<EventRow>)
    ensures forall i | 0 <= i < |rows| :: HasId(InsertAll(log, rows), rows[i].eventId)
  {
    if rows != [] {
      var front, last := rows[..|rows| - 1], rows[|rows| - 1];
      var before := InsertAll(log, front);
      InsertAllHasIds(log, front);
      hide HasId;
      forall i | 0 <= i < |rows| ensures HasId(Insert(before, last), rows[i].eventId) {
        InsertHasId(before, last, rows[i].eventId);
        if i < |front| { assert rows[i] == front[i]; }
      }
    }
  }

  lemma SavedEventHasId(db: Db, snapshot: Snapshot, now: string, e: EventRecord)
    requires JobsOf(snapshot.registry.tasks, now).Some? && e in snapshot.events && e.eventId != ""
    ensures HasId(ApplySave(db, snapshot, now).events, e.eventId)
  {
    hide JobsOf, Saved, SavedLocks, HasId, InsertAll;
    var i :| 0 <= i < |snapshot.events| && snapshot.events[i] == e;
    InsertAllHasIds(db.events, SnapshotRows(snapshot.events));
  }

  /** What can happen to a project: storage operations, edits of the files, and transfers. */
  datatype Step =
    | Store(op: Op)
    | EditJson(json: JsonSide)
    | Import(now: string)
    | Sync(mode: Mode, phase: Phase, now: string)

  function Stepped(p: Project, step: Step): (r: Project)
    requires Consistent(p.db)
    ensures Consistent(r.db)
  {
    SchemaKeepsConsistent(p.db);
    match step
    case Store(op) => ApplyKeepsConsistent(p.db, op); p.(db := Apply(p.db, op))
    case EditJson(json) => p.(json := json)
    case Import(now) => SavedIntoConsistent(p.db, JsonLoaded(p.json, now), now); Imported(p, now).0
    case Sync(mode, phase, now) =>
      SavedIntoConsistent(p.db, JsonLoaded(p.json, now), now);
      SavedIntoConsistent(SchemaReady(p.db), JsonLoaded(p.json, now), now);
      Synced(p, mode, phase, now).0
  }

  lemma SavedIntoConsistent(db: Db, snapshot: Result<Snapshot, SyncError>, now: string)
    requires Consistent(db)
    ensures Consistent(SavedInto(db, snapshot, now).0)
    ensures HasSnapshotData(db) || SavedInto(db, snapshot, now).1.Ok? ==>
        HasSnapshotData(SavedInto(db, snapshot, now).0)
  {
    SchemaKeepsConsistent(db);
    if snapshot.Ok? {
      SaveKeepsConsistent(SchemaReady(db), snapshot.value, now);
      if HasSnapshotData(db) || JobsOf(snapshot.value.registry.tasks, now).Some? {
        SaveKeepsData(SchemaReady(db), snapshot.value, now);
      }
    }
  }

  function Steps(p: Project, steps: seq<Step>): (r: Project)
    requires Consistent(p.db)
    ensures Consistent(r.db)
    decreases |steps|
  {
    if steps == [] then p else Steps(Stepped(p, steps[0]), steps[1..])
  }

  /** Whether a step is a sqlite-mode start that imports the files. */
  predicate Bootstraps(p: Project, step: Step)
  {
    step.Sync? && step.mode.Sqlite? && step.phase.Pre? && Bootstrapped(p, step.now).1 == Ok(true)
  }

  lemma SyncKeepsData(p: Project, mode: Mode, phase: Phase, now: string)
    requires Consistent(p.db) && (HasSnapshotData(p.db) || Bootstraps(p, Sync(mode, phase, now)))
    ensures HasSnapshotData(Synced(p, mode, phase, now).0.db)
  {
    var loaded := JsonLoaded(p.json, now);
    SchemaKeepsConsistent(p.db);
    SavedIntoConsistent(p.db, loaded, now);
    SavedIntoConsistent(SchemaReady(p.db), loaded, now);
    assert HasSnapshotData(SchemaReady(p.db)) <==> HasSnapshotData(p.db);
  }

  lemma StepKeepsData(p: Project, step: Step)
    requires Consistent(p.db) && (HasSnapshotData(p.db) || Bootstraps(p, step))
    ensures HasSnapshotData(Stepped(p, step).db)
  {
    match step
    case Store(op) => ApplyKeepsData(p.db, op);
    case EditJson(_) =>
    case Import(now) => SavedIntoConsistent(p.db, JsonLoaded(p.json, now), now);
    case Sync(mode, phase, now) => SyncKeepsData(p, mode, phase, now);
  }

  lemma DataForbidsBootstrap(p: Project, step: Step)
    requires HasSnapshotData(p.db)
    ensures !Bootstraps(p, step)
  {
    assert HasSnapshotData(SchemaReady(p.db));
  }

  lemma {:induction false} StepsKeepData(p: Project, steps: seq<Step>)
    requires Consistent(p.db) && HasSnapshotData(p.db)
    ensures HasSnapshotData(Steps(p, steps).db)
    decreases |steps|
  {
    if steps != [] {
      StepKeepsData(p, steps[0]);
      StepsKeepData(Stepped(p, steps[0]), steps[1..]);
    }
  }

  lemma {:induction false} StepsSplit(p: Project, steps: seq<Step>, n: nat)
    requires Consistent(p.db) && n <= |steps|
    ensures Steps(p, steps) == Steps(Steps(p, steps[..n]), steps[n..])
    decreases |steps|
  {
    if n > 0 {
      StepsSplit(Stepped(p, steps[0]), steps[1..], n - 1);
      assert steps[..n][1..] == steps[1..][..n - 1] && steps[n..] == steps[1..][n - 1..];
    } else {
      assert steps[..n] == [] && steps[n..] == steps;
    }
  }

  lemma StepsFrom(p: Project, steps: seq<Step>, i: nat, j: nat)
    requires Consistent(p.db) && i < j <= |steps|
    ensures Steps(p, steps[..j]) == Steps(Stepped(Steps(p, steps[..i]), steps[i]), steps[i + 1..j])
  {
    hide Stepped, Consistent;
    StepsSplit(p, steps[..j], i);
    assert steps[..j][..i] == steps[..i] && steps[..j][i..] == steps[i..j];
    assert steps[i..j][0] == steps[i] && steps[i..j][1..] == steps[i + 1..j];
  }

  /** In any run the files are imported by a sqlite-mode start at most once. */
  lemma BootstrapsAtMostOnce(p: Project, steps: seq<Step>, i: nat, j: nat)
    requires Consistent(p.db) && i < j < |steps|
    requires Bootstraps(Steps(p, steps[..i]), steps[i])
    ensures !Bootstraps(Steps(p, steps[..j]), steps[j])
  {
    StepsFrom(p, steps, i, j);
    StepKeepsData(Steps(p, steps[..i]), steps[i]);
    StepsKeepData(Stepped(Steps(p, steps[..i]), steps[i]), steps[i + 1..j]);
    DataForbidsBootstrap(Steps(p, steps[..j]), steps[j]);
  }
}

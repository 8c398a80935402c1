/**
 The pool of idle database connections, one list per thread and path. The file
 system is part of the state: other programs may replace, move and remove the
 database file between, and even inside, the calls. The kernel gives a new file
 an inode number that no existing file has, and a file exists for as long as it
 has a name or a connection has it open, so numbers of forgotten files come back.
 */
module ConnectionPool {
  import opened Wrappers

  type Identity = nat
  type ConnectionId = nat
  type Thread = nat

  /** A file: the serial number says which file it really is, the identity is its inode number. */
  datatype File = File(serial: nat, identity: Identity)

  datatype Connection = Connection(file: File, autocommit: bool)

  /** `PooledConnection`: a connection somebody is using, and the identity read when it was opened. */
  datatype Handle = Handle(path: string, identity: Option<Identity>)

  datatype Idle = Idle(identity: Identity, connection: ConnectionId)

  datatype Key = Key(thread: Thread, path: string)

  datatype World = World(
    files: map<string, File>, nextSerial: nat,
    connections: map<ConnectionId, Connection>, nextConnection: ConnectionId,
    handles: map<ConnectionId, Handle>, pool: map<Key, seq<Idle>>)

  const MAX_IDLE_CONNECTIONS := 4

  const START := World(map[], 0, map[], 0, map[], map[])

  // ---- the file system -----------------------------------------------------

  /** What others do to files: put a new one at a path, name an old one once more, remove a name. */
  datatype FileStep = Put(path: string, identity: Identity) | Link(from: string, to: string) | Remove(path: string)

  predicate Exists(w: World, f: File)
  {
    (exists p | p in w.files :: w.files[p] == f) || (exists c | c in w.connections :: w.connections[c].file == f)
  }

  predicate Taken(w: World, identity: Identity)
  {
    || (exists p | p in w.files :: w.files[p].identity == identity)
    || (exists c | c in w.connections :: w.connections[c].file.identity == identity)
  }

  /** A step that the kernel would not take, such as giving out a taken number, changes nothing. */
  function FileStepped(w: World, step: FileStep): World
  {
    match step
    case Put(path, identity) =>
      if Taken(w, identity) then w
      else w.(files := w.files[path := File(w.nextSerial, identity)], nextSerial := w.nextSerial + 1)
    case Link(from, to) => if from in w.files then w.(files := w.files[to := w.files[from]]) else w
    case Remove(path) => w.(files := w.files - {path})
  }

  function FileSteps(w: World, steps: seq<FileStep>): World
    decreases |steps|
  {
    if steps == [] then w else FileSteps(FileStepped(w, steps[0]), steps[1..])
  }

  /** `database_file_identity` */
  function Stat(w: World, path: string): Option<Identity>
  {
    if path in w.files then Some(w.files[path].identity) else None
  }

  // ---- opening and dropping --------------------------------------------------

  function Retained(idle: seq<Idle>, identity: Identity): (r: seq<Idle>)
    ensures |r| <= |idle|
    ensures forall x :: x in r <==> x in idle && x.identity == identity
  {
    if idle == [] then [] else
      var kept := Retained(idle[..|idle| - 1], identity);
      assert idle == idle[..|idle| - 1] + [idle[|idle| - 1]];
      if idle[|idle| - 1].identity == identity then kept + [idle[|idle| - 1]] else kept
  }

  function IdleAt(w: World, key: Key): seq<Idle> { if key in w.pool then w.pool[key] else [] }

  function Stale(idle: seq<Idle>, identity: Identity): set<ConnectionId>
  {
    set x | x in idle && x.identity != identity :: x.connection
  }

  /** Idle connections to another file than the one now at the path are closed. */
  function Looked(w: World, key: Key): World
  {
    if key.path in w.files && key in w.pool then
      var identity := w.files[key.path].identity;
      w.(connections := w.connections - Stale(w.pool[key], identity),
         pool := w.pool[key := Retained(w.pool[key], identity)])
    else w
  }

  predicate Hit(w: World, key: Key)
  {
    key.path in w.files && Retained(IdleAt(w, key), w.files[key.path].identity) != []
  }

  /** Takes the idle connection that came last. */
  function Popped(w: World, key: Key): World
    requires IdleAt(w, key) != []
  {
    var idle := w.pool[key];
    var last := idle[|idle| - 1];
    w.(pool := w.pool[key := idle[..|idle| - 1]],
       handles := w.handles[last.connection := Handle(key.path, Some(last.identity))])
  }

  /** Connecting to a missing file creates it, with the inode number the kernel picks. */
  function Created(w: World, path: string, inode: Identity): World
  {
    if path in w.files then w else FileStepped(w, Put(path, inode))
  }

  predicate Creatable(w: World, path: string, inode: Identity) { path in w.files || !Taken(w, inode) }

  function Connected(w: World, path: string, inode: Identity): (r: World)
    requires Creatable(w, path, inode)
    ensures path in r.files
  {
    var made := Created(w, path, inode);
    made.(connections := made.connections[made.nextConnection := Connection(made.files[path], true)],
          nextConnection := made.nextConnection + 1)
  }

  /** What others do to files while the identity of a new connection is not yet read. */
  function Named(w: World, path: string, c: ConnectionId, race: seq<FileStep>): World
  {
    var after := FileSteps(w, race);
    after.(handles := after.handles[c := Handle(path, Stat(after, path))])
  }

  function Opened(w: World, key: Key, inode: Identity, race: seq<FileStep>): World
    requires Hit(w, key) || Creatable(Looked(w, key), key.path, inode)
  {
    var looked := Looked(w, key);
    if Hit(w, key) then Popped(looked, key)
    else Named(Connected(looked, key.path, inode), key.path, w.nextConnection, race)
  }

  /** The connection that an open hands out. */
  function Given(w: World, key: Key): ConnectionId
  {
    if Hit(w, key) then
      var idle := Retained(IdleAt(w, key), w.files[key.path].identity);
      idle[|idle| - 1].connection
    else w.nextConnection
  }

  predicate Poolable(w: World, thread: Thread, c: ConnectionId)
  {
    && c in w.handles && c in w.connections && w.handles[c].identity.Some?
    && w.connections[c].autocommit
    && |IdleAt(w, Key(thread, w.handles[c].path))| < MAX_IDLE_CONNECTIONS
  }

  function Dropped(w: World, thread: Thread, c: ConnectionId): World
  {
    var rest := w.(handles := w.handles - {c});
    if c !in w.handles then w
    else if Poolable(w, thread, c) then
      var key := Key(thread, w.handles[c].path);
      rest.(pool := w.pool[key := IdleAt(w, key) + [Idle(w.handles[c].identity.value, c)]])
    else rest.(connections := w.connections - {c})
  }

  /** The user of a connection begins or ends a transaction on it. */
  function Transacted(w: World, c: ConnectionId, begin: bool): World
  {
    if c in w.handles && c in w.connections then
      w.(connections := w.connections[c := w.connections[c].(autocommit := !begin)])
    else w
  }

  // ---- runs ------------------------------------------------------------------

  datatype Action =
    | Open(key: Key, inode: Identity, race: seq<FileStep>)
    | Drop(thread: Thread, connection: ConnectionId)
    | Transaction(connection: ConnectionId, begin: bool)
    | Files(step: FileStep)

  predicate Possible(w: World, a: Action)
  {
    a.Open? ==> Hit(w, a.key) || Creatable(Looked(w, a.key), a.key.path, a.inode)
  }

  function Step(w: World, a: Action): World
    requires Possible(w, a)
  {
    match a
    case Open(key, inode, race) => Opened(w, key, inode, race)
    case Drop(thread, c) => Dropped(w, thread, c)
    case Transaction(c, begin) => Transacted(w, c, begin)
    case Files(step) => FileStepped(w, step)
  }

  predicate PossibleRun(w: World, actions: seq<Action>)
    decreases |actions|
  {
    actions == [] || (Possible(w, actions[0]) && PossibleRun(Step(w, actions[0]), actions[1..]))
  }

  function Run(w: World, actions: seq<Action>): World
    requires PossibleRun(w, actions)
    decreases |actions|
  {
    if actions == [] then w else Run(Step(w, actions[0]), actions[1..])
  }

  /** A run goes on with the next action, if that is possible where the run has led. */
  lemma {:induction false} RunGoesOn(w: World, actions: seq<Action>, a: Action)
    ensures PossibleRun(w, actions + [a]) <==> PossibleRun(w, actions) && Possible(Run(w, actions), a)
    ensures PossibleRun(w, actions + [a]) ==> Run(w, actions + [a]) == Step(Run(w, actions), a)
    decreases |actions|
  {
    hide Possible, Step;
    var all := actions + [a];
    if actions == [] {
      assert all[1..] == [];
    } else {
      assert all[1..] == actions[1..] + [a];
      if Possible(w, actions[0]) { RunGoesOn(Step(w, actions[0]), actions[1..], a); }
    }
  }

  /** An open is possible whatever is at the path, if the kernel has a free inode number. */
  lemma FreeInodeOpens(w: World, key: Key, inode: Identity, race: seq<FileStep>)
    requires !Taken(w, inode)
    ensures Possible(w, Open(key, inode, race))
  {
  }

  /** What others do to a file: a new one at the path, unless its number is taken; another name; one name less. */
  lemma FileStepSays(w: World, path: string, other: string, identity: Identity)
    ensures var after := FileStepped(w, Put(path, identity));
            if Taken(w, identity) then after == w
            else after == w.(files := w.files[path := File(w.nextSerial, identity)], nextSerial := after.nextSerial)
                 && after.nextSerial > w.nextSerial
    ensures FileStepped(w, Link(path, other))
         == if path in w.files then w.(files := w.files[other := w.files[path]]) else w
    ensures FileStepped(w, Remove(path)) == w.(files := w.files - {path})
  {
  }

  /** A connection dropped inside a transaction is closed; no later open can be handed it. */
  lemma TransactionIsNotPooled(w: World, thread: Thread, c: ConnectionId)
    requires c in w.handles && c in w.connections
    ensures var after := Dropped(Transacted(w, c, true), thread, c);
            && c !in after.handles && c !in after.connections && after.pool == w.pool
            && after.handles == w.handles - {c} && after.connections == w.connections - {c}
  {
  }

  /**
   One dropped outside a transaction is kept, last in its list, if it has an
   identity and the list has fewer than four.
   */
  lemma DropIsPooled(w: World, thread: Thread, c: ConnectionId)
    requires c in w.handles && c in w.connections && w.handles[c].identity.Some?
    requires |IdleAt(w, Key(thread, w.handles[c].path))| < 4
    ensures var key := Key(thread, w.handles[c].path);
            var after := Dropped(Transacted(w, c, false), thread, c);
            && c !in after.handles && c in after.connections
            && IdleAt(after, key) == IdleAt(w, key) + [Idle(w.handles[c].identity.value, c)]
            && forall k | k != key :: IdleAt(after, k) == IdleAt(w, k)
  {
  }

  // ---- what every run keeps ----------------------------------------------------

  predicate NoTwice(idle: seq<Idle>) { forall i, j | 0 <= i < j < |idle| :: idle[i].connection != idle[j].connection }

  /** No connection is idle twice, in one list or in two. */
  predicate IdleOnce(pool: map<Key, seq<Idle>>)
  {
    && (forall k | k in pool :: NoTwice(pool[k]))
    && (forall k, l, x, y | k in pool && l in pool && x in pool[k] && y in pool[l] && x.connection == y.connection ::
          k == l && x == y)
  }

  predicate IsIdle(w: World, c: ConnectionId) { exists k, x | k in w.pool && x in w.pool[k] :: x.connection == c }

  /** Every open connection is in use or idle. */
  predicate Accounted(w: World)
  {
    forall c | c in w.connections :: c < w.nextConnection && (c in w.handles || IsIdle(w, c))
  }

  /** A connection in use is open and not idle. */
  predicate UsedOnce(w: World) { forall c | c in w.handles :: c in w.connections && !IsIdle(w, c) }

  /** An idle connection is open and in no transaction. */
  predicate Settled(w: World)
  {
    forall k, x | k in w.pool && x in w.pool[k] ::
      x.connection in w.connections && w.connections[x.connection].autocommit
  }

  predicate Owned(w: World) { Accounted(w) && UsedOnce(w) && Settled(w) }

  predicate Bounded(pool: map<Key, seq<Idle>>) { forall k | k in pool :: |pool[k]| <= MAX_IDLE_CONNECTIONS }

  /** Files that exist at the same time differ in their inode numbers. */
  ghost predicate Distinguished(w: World)
  {
    && (forall f | Exists(w, f) :: f.serial < w.nextSerial)
    && (forall f, g | Exists(w, f) && Exists(w, g) && f.identity == g.identity :: f == g)
  }

  ghost predicate Inv(w: World) { IdleOnce(w.pool) && Owned(w) && Bounded(w.pool) && Distinguished(w) }

  /** Every identity on record is that of the file the connection has open. */
  predicate Recorded(w: World)
  {
    && (forall c | c in w.handles && c in w.connections && w.handles[c].identity.Some? ::
          w.handles[c].identity.value == w.connections[c].file.identity)
    && (forall k, x | k in w.pool && x in w.pool[k] && x.connection in w.connections ::
          x.identity == w.connections[x.connection].file.identity)
  }

  lemma FileStepKeeps(w: World, step: FileStep)
    requires Distinguished(w)
    ensures Distinguished(FileStepped(w, step))
    ensures FileStepped(w, step).(files := w.files, nextSerial := w.nextSerial) == w
  {
    var after := FileStepped(w, step);
    forall f | Exists(after, f)
      ensures Exists(w, f) || (step.Put? && !Taken(w, step.identity) && f == File(w.nextSerial, step.identity))
    {
      if p :| p in after.files && after.files[p] == f {
        assert (p in w.files && w.files[p] == f) || step.Put? || (step.Link? && w.files[step.from] == f);
      }
    }
    if step.Put? && !Taken(w, step.identity) {
      forall f | Exists(w, f) ensures f.identity != step.identity {}
    }
  }

  lemma {:induction false} OnlyFilesChange(w: World, steps: seq<FileStep>)
    ensures FileSteps(w, steps).(files := w.files, nextSerial := w.nextSerial) == w
    decreases |steps|
  {
    if steps != [] { OnlyFilesChange(FileStepped(w, steps[0]), steps[1..]); }
  }

  lemma {:induction false} FileStepsKeep(w: World, steps: seq<FileStep>)
    requires Distinguished(w)
    ensures Distinguished(FileSteps(w, steps))
    decreases |steps|
  {
    hide Distinguished;
    if steps != [] {
      FileStepKeeps(w, steps[0]);
      FileStepsKeep(FileStepped(w, steps[0]), steps[1..]);
    }
  }

  lemma {:induction false} RetainedOnce(idle: seq<Idle>, identity: Identity)
    requires NoTwice(idle)
    ensures NoTwice(Retained(idle, identity))
  {
    if idle != [] {
      RetainedOnce(idle[..|idle| - 1], identity);
      forall x | x in idle[..|idle| - 1] ensures x.connection != idle[|idle| - 1].connection {
        var i :| 0 <= i < |idle| - 1 && idle[i] == x;
      }
    }
  }

  lemma LookedKeepsPool(w: World, key: Key)
    requires IdleOnce(w.pool) && Bounded(w.pool)
    ensures IdleOnce(Looked(w, key).pool) && Bounded(Looked(w, key).pool)
  {
    if key.path in w.files && key in w.pool {
      RetainedOnce(w.pool[key], w.files[key.path].identity);
    }
  }

  lemma LookedKeepsOwned(w: World, key: Key)
    requires IdleOnce(w.pool) && Owned(w)
    ensures Owned(Looked(w, key))
  {
    if key.path in w.files && key in w.pool {
      LookedKeepsSettled(w, key);
      LookedIdle(w, key);
      hide IdleOnce, IsIdle, Settled, Stale;
    }
  }

  lemma LookedKeepsSettled(w: World, key: Key)
    requires IdleOnce(w.pool) && Settled(w) && key.path in w.files && key in w.pool
    ensures Settled(Looked(w, key))
  {
    var after := Looked(w, key);
    forall k, x | k in after.pool && x in after.pool[k]
      ensures x.connection in after.connections && after.connections[x.connection].autocommit
    {
      NotStale(w, key, k, x);
      hide Stale, IdleOnce;
    }
  }

  /** What is closed is not what stays idle. */
  lemma NotStale(w: World, key: Key, k: Key, x: Idle)
    requires IdleOnce(w.pool) && key.path in w.files && key in w.pool && k in w.pool && x in Looked(w, key).pool[k]
    ensures x in w.pool[k] && x.connection !in Stale(w.pool[key], w.files[key.path].identity)
  {
  }

  lemma LookedIdle(w: World, key: Key)
    requires key.path in w.files && key in w.pool
    ensures forall c | IsIdle(Looked(w, key), c) :: IsIdle(w, c)
    ensures forall c | IsIdle(w, c) && c !in Stale(w.pool[key], w.files[key.path].identity) :: IsIdle(Looked(w, key), c)
    ensures forall c | c in Stale(w.pool[key], w.files[key.path].identity) :: IsIdle(w, c)
  {
    var after := Looked(w, key);
    forall c | IsIdle(w, c) && c !in Stale(w.pool[key], w.files[key.path].identity) ensures IsIdle(after, c) {
      var k, x :| k in w.pool && x in w.pool[k] && x.connection == c;
      assert x in after.pool[k];
    }
  }

  lemma FewerConnections(w: World, after: World)
    requires Distinguished(w) && after.files == w.files && after.nextSerial == w.nextSerial
    requires forall c | c in after.connections ::
        c in w.connections && after.connections[c].file == w.connections[c].file
    ensures Distinguished(after)
  {
    forall f | Exists(after, f) ensures Exists(w, f) {
      if c :| c in after.connections && after.connections[c].file == f { assert w.connections[c].file == f; }
    }
  }

  lemma LookedKeepsInv(w: World, key: Key)
    requires Inv(w)
    ensures Inv(Looked(w, key))
    ensures Looked(w, key).handles == w.handles && Looked(w, key).nextConnection == w.nextConnection
  {
    hide IdleOnce, Owned, Bounded, Distinguished, Looked;
    LookedFrame(w, key);
    LookedKeepsPool(w, key);
    LookedKeepsOwned(w, key);
    FewerConnections(w, Looked(w, key));
  }

  lemma LookedFrame(w: World, key: Key)
    ensures var after := Looked(w, key);
            && after.files == w.files && after.nextSerial == w.nextSerial
            && after.handles == w.handles && after.nextConnection == w.nextConnection
            && forall c | c in after.connections :: c in w.connections && after.connections[c] == w.connections[c]
  {
    hide Stale, Retained;
  }

  lemma LookedKeepsRecorded(w: World, key: Key)
    requires Inv(w) && Recorded(w)
    ensures Recorded(Looked(w, key))
  {
  }

  /** The connection that an idle list gives next. */
  function LastIdle(w: World, key: Key): Idle
    requires IdleAt(w, key) != []
  {
    w.pool[key][|w.pool[key]| - 1]
  }

  lemma LastIsOnce(idle: seq<Idle>, x: Idle)
    requires idle != [] && NoTwice(idle)
    ensures x in idle[..|idle| - 1] <==> x in idle && x.connection != idle[|idle| - 1].connection
  {
    assert idle == idle[..|idle| - 1] + [idle[|idle| - 1]];
    if x in idle[..|idle| - 1] {
      var i :| 0 <= i < |idle| - 1 && idle[i] == x;
    }
  }

  /** Exactly the connection taken is idle no more. */
  lemma PoppedIdle(w: World, key: Key, k: Key, x: Idle)
    requires IdleOnce(w.pool) && IdleAt(w, key) != [] && k in w.pool
    ensures x in Popped(w, key).pool[k] <==> x in w.pool[k] && x.connection != LastIdle(w, key).connection
  {
    assert LastIdle(w, key) in w.pool[key];
    LastIsOnce(w.pool[key], x);
  }

  lemma ShorterListsStayOnce(pool: map<Key, seq<Idle>>, after: map<Key, seq<Idle>>)
    requires IdleOnce(pool) && after.Keys == pool.Keys
    requires forall k | k in pool :: NoTwice(after[k])
    requires forall k, x | k in pool && x in after[k] :: x in pool[k]
    ensures IdleOnce(after)
  {
    hide NoTwice;
  }

  lemma PoppedKeepsPool(w: World, key: Key)
    requires IdleOnce(w.pool) && Bounded(w.pool) && IdleAt(w, key) != []
    ensures IdleOnce(Popped(w, key).pool) && Bounded(Popped(w, key).pool)
  {
    forall k, x | k in w.pool && x in Popped(w, key).pool[k] ensures x in w.pool[k] { PoppedIdle(w, key, k, x); }
    ShorterListsStayOnce(w.pool, Popped(w, key).pool);
    hide IdleOnce, NoTwice;
  }

  lemma PoppedIdleConnections(w: World, key: Key, c: ConnectionId)
    requires IdleOnce(w.pool) && IdleAt(w, key) != []
    ensures IsIdle(Popped(w, key), c) <==> IsIdle(w, c) && c != LastIdle(w, key).connection
  {
    var after := Popped(w, key);
    if k, x :| k in w.pool && x in w.pool[k] && x.connection == c {
      PoppedIdle(w, key, k, x);
      hide Popped, IdleOnce, LastIdle;
    }
    if k, x :| k in after.pool && x in after.pool[k] && x.connection == c {
      PoppedIdle(w, key, k, x);
    }
  }

  lemma PoppedFrame(w: World, key: Key)
    requires Settled(w) && IdleAt(w, key) != []
    ensures var after, last := Popped(w, key), LastIdle(w, key);
            && last.connection in w.connections && after.connections == w.connections
            && after.nextConnection == w.nextConnection && after.handles.Keys == w.handles.Keys + {last.connection}
  {
    assert LastIdle(w, key) in w.pool[key];
  }

  lemma PoppedKeepsUse(w: World, key: Key)
    requires IdleOnce(w.pool) && Owned(w) && IdleAt(w, key) != []
    ensures Accounted(Popped(w, key)) && UsedOnce(Popped(w, key))
  {
    hide IdleOnce, IsIdle, Settled, LastIdle, Popped;
    PoppedFrame(w, key);
    forall c ensures IsIdle(Popped(w, key), c) <==> IsIdle(w, c) && c != LastIdle(w, key).connection {
      PoppedIdleConnections(w, key, c);
    }
  }

  lemma PoppedKeepsRecords(w: World, key: Key)
    requires IdleOnce(w.pool) && Settled(w) && IdleAt(w, key) != []
    ensures Settled(Popped(w, key)) && (Recorded(w) ==> Recorded(Popped(w, key)))
  {
    assert LastIdle(w, key) in w.pool[key];
    forall k, x | k in w.pool && x in Popped(w, key).pool[k] ensures x in w.pool[k] { PoppedIdle(w, key, k, x); }
    hide IdleOnce;
  }

  lemma PoppedKeepsInv(w: World, key: Key)
    requires Inv(w) && IdleAt(w, key) != []
    ensures Inv(Popped(w, key))
    ensures Recorded(w) ==> Recorded(Popped(w, key))
  {
    PoppedKeepsPool(w, key);
    PoppedKeepsUse(w, key);
    PoppedKeepsRecords(w, key);
    FewerConnections(w, Popped(w, key));
    hide IdleOnce, Bounded, Distinguished, Accounted, UsedOnce, Settled, Recorded, Popped;
  }

  lemma CreatedKeeps(w: World, path: string, inode: Identity)
    requires Distinguished(w) && Creatable(w, path, inode)
    ensures var made := Created(w, path, inode); Distinguished(made) && path in made.files
    ensures Created(w, path, inode).(files := w.files, nextSerial := w.nextSerial) == w
  {
    hide Distinguished;
    FileStepKeeps(w, Put(path, inode));
  }

  lemma ConnectedKeeps(w: World, path: string, inode: Identity)
    requires Distinguished(w) && Creatable(w, path, inode)
    ensures var after := Connected(w, path, inode);
            && Distinguished(after)
            && after.pool == w.pool && after.handles == w.handles && after.nextConnection == w.nextConnection + 1
            && after.connections == w.connections[w.nextConnection := Connection(after.files[path], true)]
  {
    var made, after := Created(w, path, inode), Connected(w, path, inode);
    CreatedKeeps(w, path, inode);
    forall f | Exists(after, f) ensures Exists(made, f) {
      assert Exists(made, made.files[path]);
      if c :| c in after.connections && after.connections[c].file == f && c != w.nextConnection {
        assert made.connections[c].file == f;
      }
    }
  }

  lemma NamedKeeps(w: World, path: string, c: ConnectionId, race: seq<FileStep>)
    requires Distinguished(w)
    ensures var after := Named(w, path, c, race);
            && Distinguished(after)
            && after.pool == w.pool && after.nextConnection == w.nextConnection && after.connections == w.connections
            && after.handles == w.handles[c := Handle(path, Stat(after, path))]
            && after.files == FileSteps(w, race).files
  {
    FileStepsKeep(w, race);
    OnlyFilesChange(w, race);
    FewerConnections(FileSteps(w, race), Named(w, path, c, race));
    hide Distinguished;
  }

  /** A connection opened anew: the file it has open, and the names files have once its identity is read. */
  lemma OpenedAnew(w: World, key: Key, inode: Identity, race: seq<FileStep>)
    requires Distinguished(w) && !Hit(w, key) && Creatable(Looked(w, key), key.path, inode)
    ensures var looked, after := Looked(w, key), Opened(w, key, inode, race);
            var file := Connected(looked, key.path, inode).files[key.path];
            && Distinguished(after)
            && after.pool == looked.pool && after.nextConnection == w.nextConnection + 1
            && after.connections == looked.connections[w.nextConnection := Connection(file, true)]
            && after.handles == w.handles[w.nextConnection := Handle(key.path, Stat(after, key.path))]
            && after.files == FileSteps(Connected(looked, key.path, inode), race).files
  {
    FewerConnections(w, Looked(w, key));
    ConnectedKeeps(Looked(w, key), key.path, inode);
    NamedKeeps(Connected(Looked(w, key), key.path, inode), key.path, w.nextConnection, race);
    hide Distinguished, Creatable, Connected, Named, Hit;
  }

  lemma OpenedAnewKeepsInv(w: World, key: Key, inode: Identity, race: seq<FileStep>)
    requires Inv(w) && !Hit(w, key) && Creatable(Looked(w, key), key.path, inode)
    ensures Inv(Opened(w, key, inode, race))
  {
    hide Inv, Owned, Distinguished, IdleOnce, Bounded, Creatable, Opened, Connected, Hit, Looked, Stat;
    var looked, after := Looked(w, key), Opened(w, key, inode, race);
    InvParts(w);
    LookedKeepsInv(w, key);
    InvParts(looked);
    OpenedAnew(w, key, inode, race);
    NextIsNew(looked);
    AddedKeepsOwned(looked, after);
    InvParts(after);
  }

  lemma InvParts(w: World)
    ensures Inv(w) <==> IdleOnce(w.pool) && Owned(w) && Bounded(w.pool) && Distinguished(w)
  {
  }

  lemma NextIsNew(w: World)
    requires Owned(w)
    ensures w.nextConnection !in w.connections && w.nextConnection !in w.handles && !IsIdle(w, w.nextConnection)
  {
  }

  /** A new connection in use disturbs no other. */
  lemma AddedKeepsOwned(w: World, after: World)
    requires Owned(w) && after.pool == w.pool && after.nextConnection == w.nextConnection + 1
    requires after.connections.Keys == w.connections.Keys + {w.nextConnection}
    requires forall c | c in w.connections :: after.connections[c] == w.connections[c]
    requires after.handles.Keys == w.handles.Keys + {w.nextConnection}
    ensures Owned(after)
  {
    SameIdle(w, after);
    assert !IsIdle(w, w.nextConnection);
  }

  lemma OpenedKeepsInv(w: World, key: Key, inode: Identity, race: seq<FileStep>)
    requires Inv(w) && (Hit(w, key) || Creatable(Looked(w, key), key.path, inode))
    ensures Inv(Opened(w, key, inode, race))
  {
    if Hit(w, key) {
      LookedKeepsInv(w, key);
      hide Inv;
      PoppedKeepsInv(Looked(w, key), key);
    } else {
      OpenedAnewKeepsInv(w, key, inode, race);
    }
  }

  lemma AddedOnce(pool: map<Key, seq<Idle>>, key: Key, idle: seq<Idle>, x: Idle)
    requires IdleOnce(pool) && idle == (if key in pool then pool[key] else [])
    requires forall k, y | k in pool && y in pool[k] :: y.connection != x.connection
    ensures IdleOnce(pool[key := idle + [x]])
  {
    var after := pool[key := idle + [x]];
    forall i | 0 <= i < |idle| ensures idle[i].connection != x.connection { assert idle[i] in idle; }
    forall k, y | k in after && y in after[k] ensures (k == key && y == x) || (k in pool && y in pool[k]) {}
    NewcomerIsApart(pool, after, key, x);
  }

  lemma NewcomerIsApart(pool: map<Key, seq<Idle>>, after: map<Key, seq<Idle>>, key: Key, x: Idle)
    requires IdleOnce(pool)
    requires forall k, y | k in pool && y in pool[k] :: y.connection != x.connection
    requires forall k | k in after :: NoTwice(after[k])
    requires forall k, y | k in after && y in after[k] :: (k == key && y == x) || (k in pool && y in pool[k])
    ensures IdleOnce(after)
  {
    hide NoTwice;
  }

  lemma DroppedKeepsPool(w: World, thread: Thread, c: ConnectionId)
    requires IdleOnce(w.pool) && Bounded(w.pool) && UsedOnce(w) && Poolable(w, thread, c)
    ensures IdleOnce(Dropped(w, thread, c).pool) && Bounded(Dropped(w, thread, c).pool)
  {
    var key := Key(thread, w.handles[c].path);
    forall k, x: Idle | k in w.pool && x in w.pool[k] ensures x.connection != c { assert IsIdle(w, x.connection); }
    AddedOnce(w.pool, key, IdleAt(w, key), Idle(w.handles[c].identity.value, c));
    hide IdleOnce;
  }

  lemma SameIdle(w: World, after: World)
    requires after.pool == w.pool
    ensures forall d :: IsIdle(after, d) <==> IsIdle(w, d)
  {
  }

  lemma PooledKeepsOwned(w: World, thread: Thread, c: ConnectionId)
    requires Owned(w) && Poolable(w, thread, c)
    ensures Owned(Dropped(w, thread, c))
  {
    var key, after := Key(thread, w.handles[c].path), Dropped(w, thread, c);
    assert Idle(w.handles[c].identity.value, c) in after.pool[key];
    assert IsIdle(after, c);
    forall d | IsIdle(w, d) ensures IsIdle(after, d) {
      var k, x :| k in w.pool && x in w.pool[k] && x.connection == d;
      assert x in after.pool[k];
    }
    forall d | IsIdle(after, d) ensures d == c || IsIdle(w, d) {}
    hide IsIdle;
  }

  lemma ClosedKeepsOwned(w: World, thread: Thread, c: ConnectionId)
    requires Owned(w) && c in w.handles && !Poolable(w, thread, c)
    ensures Owned(Dropped(w, thread, c))
  {
    var after := Dropped(w, thread, c);
    SameIdle(w, after);
    assert Settled(after) by {
      forall k, x | k in w.pool && x in w.pool[k] ensures x.connection != c { assert IsIdle(w, x.connection); }
    }
    hide IsIdle, Settled;
  }

  lemma DroppedKeepsInv(w: World, thread: Thread, c: ConnectionId)
    requires Inv(w)
    ensures Inv(Dropped(w, thread, c))
  {
    if c in w.handles {
      FewerConnections(w, Dropped(w, thread, c));
      if Poolable(w, thread, c) {
        DroppedKeepsPool(w, thread, c);
        PooledKeepsOwned(w, thread, c);
      } else {
        ClosedKeepsOwned(w, thread, c);
      }
      hide IdleOnce, Bounded, Accounted, UsedOnce, Settled, Distinguished, Poolable;
    }
  }

  /** What is done with connections in use does not show on the idle ones. */
  lemma UseKeepsOwned(w: World, after: World)
    requires Owned(w) && after.pool == w.pool && after.handles == w.handles && after.nextConnection == w.nextConnection
    requires after.connections.Keys == w.connections.Keys
    requires forall c | c in w.connections && c !in w.handles :: after.connections[c] == w.connections[c]
    ensures Owned(after)
  {
    SameIdle(w, after);
    forall k, x | k in w.pool && x in w.pool[k] ensures x.connection !in w.handles { assert IsIdle(w, x.connection); }
    hide IsIdle;
  }

  lemma TransactionKeepsInv(w: World, c: ConnectionId, begin: bool)
    requires Inv(w)
    ensures Inv(Transacted(w, c, begin))
  {
    var after := Transacted(w, c, begin);
    hide IdleOnce, Bounded, Distinguished, Owned;
    FewerConnections(w, after);
    UseKeepsOwned(w, after);
  }

  lemma FilesKeepInv(w: World, step: FileStep)
    requires Inv(w)
    ensures Inv(FileStepped(w, step))
  {
    FileStepKeeps(w, step);
    SameIdle(w, FileStepped(w, step));
    hide IdleOnce, Bounded, Distinguished, IsIdle, FileStepped;
  }

  lemma StepKeepsInv(w: World, a: Action)
    requires Inv(w) && Possible(w, a)
    ensures Inv(Step(w, a))
  {
    hide Inv;
    match a
    case Open(key, inode, race) => OpenedKeepsInv(w, key, inode, race);
    case Drop(thread, c) => DroppedKeepsInv(w, thread, c);
    case Transaction(c, begin) => TransactionKeepsInv(w, c, begin);
    case Files(step) => FilesKeepInv(w, step);
  }

  lemma StartIsSound()
    ensures Inv(START) && Recorded(START)
  {
  }

  /**
   Whatever happens to the files: no connection is in use and idle, or idle
   twice; none is left behind; no idle one is in a transaction; and no list is
   longer than the limit.
   */
  lemma {:induction false} RunKeepsInv(w: World, actions: seq<Action>)
    requires Inv(w) && PossibleRun(w, actions)
    ensures Inv(Run(w, actions))
    decreases |actions|
  {
    if actions != [] {
      StepKeepsInv(w, actions[0]);
      RunKeepsInv(Step(w, actions[0]), actions[1..]);
    }
  }

  // ---- open hands out the file that is there -----------------------------------

  /**
   The file was replaced after the new connection opened it and before its
   identity was read: what others did in between left another file at the path.
   */
  predicate Raced(w: World, key: Key, inode: Identity, race: seq<FileStep>)
    requires Hit(w, key) || Creatable(Looked(w, key), key.path, inode)
  {
    && !Hit(w, key)
    && var connected := Connected(Looked(w, key), key.path, inode);
       var after := FileSteps(connected, race);
       key.path in after.files && after.files[key.path] != connected.files[key.path]
  }

  /** After a raced open the path names another file than the connection has open. */
  lemma RacedShows(w: World, key: Key, inode: Identity, race: seq<FileStep>)
    requires Distinguished(w) && !Hit(w, key) && Creatable(Looked(w, key), key.path, inode)
    ensures var after := Opened(w, key, inode, race);
            && w.nextConnection in after.connections
            && (Raced(w, key, inode, race) <==>
                key.path in after.files && after.files[key.path] != after.connections[w.nextConnection].file)
  {
    OpenedAnew(w, key, inode, race);
    hide Distinguished, Creatable, Connected, Opened, Hit, Looked, FileSteps;
  }

  lemma OpenedAnewRecords(w: World, key: Key, inode: Identity, race: seq<FileStep>)
    requires Inv(w) && Recorded(w) && !Hit(w, key) && Creatable(Looked(w, key), key.path, inode)
    ensures Recorded(Opened(w, key, inode, race)) <==> !Raced(w, key, inode, race)
  {
    hide Inv, Opened, Looked, Connected, Creatable, Hit, Recorded, Distinguished;
    var looked, after := Looked(w, key), Opened(w, key, inode, race);
    LookedKeepsInv(w, key);
    LookedKeepsRecorded(w, key);
    InvParts(w);
    InvParts(looked);
    OpenedAnew(w, key, inode, race);
    NextIsNew(looked);
    AddedRecords(looked, after);
    RacedShows(w, key, inode, race);
    hide Raced;
    if key.path in after.files { NamedFile(after, key.path, w.nextConnection); }
  }

  lemma NamedFile(w: World, path: string, c: ConnectionId)
    requires Distinguished(w) && c in w.connections && path in w.files
    ensures w.files[path] == w.connections[c].file <==> w.files[path].identity == w.connections[c].file.identity
  {
    SameFile(w, w.files[path], w.connections[c].file);
  }

  lemma SameFile(w: World, f: File, g: File)
    requires Distinguished(w) && Exists(w, f) && Exists(w, g)
    ensures f == g <==> f.identity == g.identity
  {
  }

  lemma AddedRecords(w: World, after: World)
    requires Owned(w) && Recorded(w) && after.pool == w.pool
    requires after.connections.Keys == w.connections.Keys + {w.nextConnection}
    requires forall c | c in w.connections :: after.connections[c] == w.connections[c]
    requires after.handles.Keys == w.handles.Keys + {w.nextConnection}
    requires forall c | c in w.handles :: after.handles[c] == w.handles[c]
    ensures var c := w.nextConnection;
            Recorded(after) <==>
            after.handles[c].identity.Some? ==> after.handles[c].identity.value == after.connections[c].file.identity
  {
  }

  lemma DroppedRecords(w: World, thread: Thread, c: ConnectionId)
    requires Owned(w) && Recorded(w)
    ensures Recorded(Dropped(w, thread, c))
  {
    hide Accounted, UsedOnce;
    if c in w.handles && Poolable(w, thread, c) {
      var key := Key(thread, w.handles[c].path);
      var after := Dropped(w, thread, c);
      forall k, x | k in after.pool && x in after.pool[k]
        ensures (k in w.pool && x in w.pool[k]) || x == Idle(w.handles[c].identity.value, c) {}
      hide Dropped, IdleAt, Poolable;
    }
  }

  /** The records stay right in every step but an open that raced. */
  lemma StepRecordsIff(w: World, a: Action)
    requires Inv(w) && Recorded(w) && Possible(w, a)
    ensures Recorded(Step(w, a)) <==> !(a.Open? && Raced(w, a.key, a.inode, a.race))
  {
    match a
    case Open(key, inode, race) =>
      hide Inv, Recorded;
      if Hit(w, key) {
        LookedKeepsInv(w, key);
        LookedKeepsRecorded(w, key);
        PoppedKeepsInv(Looked(w, key), key);
      } else {
        OpenedAnewRecords(w, key, inode, race);
      }
    case Drop(thread, c) => DroppedRecords(w, thread, c);
    case Transaction(c, begin) =>
    case Files(step) => FileStepKeeps(w, step);
  }

  predicate Unraced(w: World, actions: seq<Action>)
    requires PossibleRun(w, actions)
    decreases |actions|
  {
    actions == [] ||
    (&& (actions[0].Open? ==> !Raced(w, actions[0].key, actions[0].inode, actions[0].race))
     && Unraced(Step(w, actions[0]), actions[1..]))
  }

  lemma {:induction false} RunKeepsRecorded(w: World, actions: seq<Action>)
    requires Inv(w) && Recorded(w) && PossibleRun(w, actions) && Unraced(w, actions)
    ensures Recorded(Run(w, actions))
    decreases |actions|
  {
    hide Inv, Recorded, Step, Possible, Raced;
    if actions != [] {
      StepKeepsInv(w, actions[0]);
      StepRecordsIff(w, actions[0]);
      RunKeepsRecorded(Step(w, actions[0]), actions[1..]);
    }
  }

  /** The connection handed out has the file open that the path named at the call, or a file made by it. */
  predicate Current(w: World, after: World, key: Key)
  {
    var c := Given(w, key);
    && c !in w.handles && c in after.handles && c in after.connections && after.connections[c].autocommit
    && (if key.path in w.files then after.connections[c].file == w.files[key.path]
        else after.connections[c].file.serial == w.nextSerial)
  }

  /** The idle connection found was there before and has the file open that the path names. */
  lemma FoundIsRecorded(w: World, key: Key, x: Idle)
    requires Inv(w) && Recorded(w) && key.path in w.files
    requires x in Retained(IdleAt(w, key), w.files[key.path].identity)
    ensures x.connection in w.connections && x.connection !in w.handles && w.connections[x.connection].autocommit
    ensures w.connections[x.connection].file == w.files[key.path]
    ensures x.connection in Looked(w, key).connections
  {
    assert key in w.pool && x in w.pool[key];
    assert IsIdle(w, x.connection);
    NotStale(w, key, key, x);
    SameFile(w, w.files[key.path], w.connections[x.connection].file);
    hide IdleOnce, Bounded, Distinguished, Stale;
  }

  lemma HitIsCurrent(w: World, key: Key)
    requires Inv(w) && Recorded(w) && Hit(w, key)
    ensures Current(w, Popped(Looked(w, key), key), key)
  {
    var idle := Retained(IdleAt(w, key), w.files[key.path].identity);
    FoundIsRecorded(w, key, idle[|idle| - 1]);
    hide Inv, Recorded, Retained, Stale;
  }

  lemma AnewIsCurrent(w: World, key: Key, inode: Identity, race: seq<FileStep>)
    requires Inv(w) && !Hit(w, key) && Creatable(Looked(w, key), key.path, inode)
    ensures Current(w, Opened(w, key, inode, race), key)
  {
    OpenedAnew(w, key, inode, race);
    NextIsNew(w);
    hide Opened, Inv, Distinguished, Named;
  }

  lemma OpenIsCurrent(w: World, key: Key, inode: Identity, race: seq<FileStep>)
    requires Inv(w) && Recorded(w) && Possible(w, Open(key, inode, race))
    ensures Current(w, Opened(w, key, inode, race), key)
  {
    if Hit(w, key) { HitIsCurrent(w, key); } else { AnewIsCurrent(w, key, inode, race); }
  }

  /** After every run in which no open raced, an open does not hand out a connection to a replaced file. */
  lemma RunHandsOutCurrent(actions: seq<Action>, key: Key, inode: Identity, race: seq<FileStep>)
    requires PossibleRun(START, actions) && Unraced(START, actions)
    requires Possible(Run(START, actions), Open(key, inode, race))
    ensures Current(Run(START, actions), Opened(Run(START, actions), key, inode, race), key)
  {
    StartIsSound();
    RunKeepsInv(START, actions);
    RunKeepsRecorded(START, actions);
    OpenIsCurrent(Run(START, actions), key, inode, race);
  }

  // ---- and only when no open raced ---------------------------------------------

  lemma RacedThenFull(w: World, key: Key, inode: Identity, race: seq<FileStep>)
    requires Inv(w) && Recorded(w) && !Hit(w, key) && Creatable(Looked(w, key), key.path, inode)
    requires |IdleAt(Looked(w, key), key)| >= MAX_IDLE_CONNECTIONS
    ensures Recorded(Dropped(Opened(w, key, inode, race), key.thread, w.nextConnection))
  {
    hide Opened, Looked, Connected, Creatable, Hit, Recorded, Distinguished, IdleOnce, Bounded, Accounted, UsedOnce,
         Settled;
    var looked, inUse := Looked(w, key), Opened(w, key, inode, race);
    LookedKeepsInv(w, key);
    LookedKeepsRecorded(w, key);
    OpenedAnew(w, key, inode, race);
    NextIsNew(looked);
    var after := Dropped(inUse, key.thread, w.nextConnection);
    assert after.connections == looked.connections && after.handles == looked.handles && after.pool == looked.pool;
    SameRecords(looked, after);
  }

  lemma SameRecords(w: World, after: World)
    requires after.connections == w.connections && after.handles == w.handles && after.pool == w.pool
    ensures Recorded(after) <==> Recorded(w)
  {
  }

  lemma LastIsRetained(idle: seq<Idle>, x: Idle)
    ensures var r := Retained(idle + [x], x.identity); r != [] && r[|r| - 1] == x
  {
    assert (idle + [x])[..|idle|] == idle;
  }

  /** The connection whose identity is another file's is found again under that file. */
  lemma RacedThenFound(w: World, key: Key, inode: Identity, race: seq<FileStep>, again: Identity)
    requires Inv(w) && !Hit(w, key) && Creatable(Looked(w, key), key.path, inode) && Raced(w, key, inode, race)
    requires |IdleAt(Looked(w, key), key)| < MAX_IDLE_CONNECTIONS
    ensures var dropped := Dropped(Opened(w, key, inode, race), key.thread, w.nextConnection);
            key.path in dropped.files && !Current(dropped, Opened(dropped, key, again, []), key)
  {
    hide Opened, Looked, Connected, Creatable, Hit, Distinguished, IdleOnce, Bounded, Owned;
    var c, inUse := w.nextConnection, Opened(w, key, inode, race);
    OpenedAnew(w, key, inode, race);
    RacedShows(w, key, inode, race);
    hide Raced;
    var dropped := Dropped(inUse, key.thread, c);
    assert Poolable(inUse, key.thread, c);
    var last := Idle(inUse.files[key.path].identity, c);
    LastIsRetained(IdleAt(inUse, key), last);
    assert dropped.pool[key] == IdleAt(inUse, key) + [last];
    FoundAgain(dropped, key, again);
  }

  lemma FoundAgain(w: World, key: Key, inode: Identity)
    requires key.path in w.files && key in w.pool && Retained(w.pool[key], w.files[key.path].identity) != []
    ensures Hit(w, key) && Given(w, key) == LastIdle(Looked(w, key), key).connection
    ensures var after := Opened(w, key, inode, []);
            Given(w, key) in after.connections ==>
              Given(w, key) in w.connections && after.connections[Given(w, key)] == w.connections[Given(w, key)]
  {
    hide Retained, Stale;
  }

  /**
   Open, drop, open again: the second open hands out the file that is there if
   and only if the first did not race, or the list was full and took nothing.
   */
  lemma ReopenIsCurrentIff(w: World, key: Key, inode: Identity, race: seq<FileStep>, again: Identity)
    requires Inv(w) && Recorded(w) && !Hit(w, key) && Creatable(Looked(w, key), key.path, inode)
    requires key.path in Opened(w, key, inode, race).files
    ensures var dropped := Dropped(Opened(w, key, inode, race), key.thread, w.nextConnection);
            && key.path in dropped.files
            && (Current(dropped, Opened(dropped, key, again, []), key) <==>
                !Raced(w, key, inode, race) || |IdleAt(Looked(w, key), key)| >= MAX_IDLE_CONNECTIONS)
  {
    var inUse := Opened(w, key, inode, race);
    var dropped := Dropped(inUse, key.thread, w.nextConnection);
    hide Inv, Recorded, Opened, Looked, Hit, Creatable, Current, Raced;
    assert dropped.files == inUse.files;
    if Raced(w, key, inode, race) && |IdleAt(Looked(w, key), key)| < MAX_IDLE_CONNECTIONS {
      RacedThenFound(w, key, inode, race, again);
    } else {
      OpenedKeepsInv(w, key, inode, race);
      DroppedKeepsInv(inUse, key.thread, w.nextConnection);
      if Raced(w, key, inode, race) {
        RacedThenFull(w, key, inode, race);
      } else {
        OpenedAnewRecords(w, key, inode, race);
        InvParts(inUse);
        DroppedRecords(inUse, key.thread, w.nextConnection);
      }
      assert Possible(dropped, Open(key, again, [])) by { PresentIsPossible(dropped, key, again); }
      OpenIsCurrent(dropped, key, again, []);
    }
  }

  lemma PresentIsPossible(w: World, key: Key, inode: Identity)
    requires key.path in w.files
    ensures Possible(w, Open(key, inode, []))
  {
  }

  /** Races there are: the file is replaced by another while its identity is being read. */
  lemma RaceHappens(key: Key)
    ensures var w := FileStepped(START, Put(key.path, 1));
            Inv(w) && Recorded(w) && !Hit(w, key) && Creatable(Looked(w, key), key.path, 0)
            && Raced(w, key, 0, [Put(key.path, 2)])
  {
    var w := FileStepped(START, Put(key.path, 1));
    FileStepKeeps(START, Put(key.path, 1));
    var connected := Connected(Looked(w, key), key.path, 0);
    assert FileSteps(connected, [Put(key.path, 2)]) == FileStepped(connected, Put(key.path, 2));
  }

  lemma DroppedKeeps(w: World, thread: Thread, c: ConnectionId)
    requires Inv(w)
    ensures Inv(Dropped(w, thread, c)) && (Recorded(w) ==> Recorded(Dropped(w, thread, c)))
    ensures c in w.handles ==> c in w.connections
  {
    DroppedKeepsInv(w, thread, c);
    if Recorded(w) { DroppedRecords(w, thread, c); }
  }

  // ---- the operations ------------------------------------------------------------

  class Connections {
    var files: map<string, File>
    var nextSerial: nat
    var connections: map<ConnectionId, Connection>
    var nextConnection: ConnectionId
    var handles: map<ConnectionId, Handle>
    var pool: map<Key, seq<Idle>>

    ghost function Now(): World
      reads this
    {
      World(files, nextSerial, connections, nextConnection, handles, pool)
    }

    constructor ()
      ensures Now() == START && Inv(Now()) && Recorded(Now())
    {
      files, nextSerial, connections, nextConnection, handles, pool := map[], 0, map[], 0, map[], map[];
      new;
      StartIsSound();
    }

    /** `retain`: closes the idle connections of one list whose identity is another. */
    method Retain(key: Key, identity: Identity)
      requires key.path in files && identity == files[key.path].identity && key in pool
      modifies `connections, `pool
      ensures Now() == Looked(old(Now()), key)
    {
      var idle, kept, closed, i := pool[key], [], {}, 0;
      while i < |idle|
        invariant 0 <= i <= |idle|
        invariant kept == Retained(idle[..i], identity)
        invariant closed == Stale(idle[..i], identity)
      {
        assert idle[..i + 1][..i] == idle[..i];
        assert idle[..i + 1] == idle[..i] + [idle[i]];
        if idle[i].identity == identity { kept := kept + [idle[i]]; } else { closed := closed + {idle[i].connection}; }
        i := i + 1;
      }
      assert idle[..i] == idle;
      hide Retained, Stale;
      connections, pool := connections - closed, pool[key := kept];
    }

    /** The newest idle connection to the file that the path names. */
    method Reuse(key: Key) returns (c: Option<ConnectionId>)
      modifies `connections, `pool, `handles
      ensures c.Some? <==> Hit(old(Now()), key)
      ensures c.Some? ==> Now() == Popped(Looked(old(Now()), key), key) && c.value == Given(old(Now()), key)
      ensures c.None? ==> Now() == Looked(old(Now()), key)
    {
      hide Retained, Stale;
      if key.path !in files || key !in pool { return None; }
      Retain(key, files[key.path].identity);
      if pool[key] == [] { return None; }
      var last := pool[key][|pool[key]| - 1];
      pool := pool[key := pool[key][..|pool[key]| - 1]];
      handles := handles[last.connection := Handle(key.path, Some(last.identity))];
      return Some(last.connection);
    }

    method Connect(path: string, inode: Identity, race: seq<FileStep>) returns (c: ConnectionId)
      requires Creatable(Now(), path, inode)
      modifies `files, `nextSerial, `connections, `nextConnection, `handles
      ensures c == old(nextConnection) && Now() == Named(Connected(old(Now()), path, inode), path, c, race)
    {
      ghost var before := Now();
      if path !in files { files, nextSerial := files[path := File(nextSerial, inode)], nextSerial + 1; }
      c := nextConnection;
      connections, nextConnection := connections[c := Connection(files[path], true)], nextConnection + 1;
      assert Now() == Connected(before, path, inode);
      var after := FileSteps(World(files, nextSerial, connections, nextConnection, handles, pool), race);
      OnlyFilesChange(Now(), race);
      files, nextSerial := after.files, after.nextSerial;
      handles := handles[c := Handle(path, if path in files then Some(files[path].identity) else None)];
    }

    /** `open`; `race` is what others do to files before the identity of a new connection is read. */
    method Open(key: Key, inode: Identity, race: seq<FileStep>) returns (c: ConnectionId)
      requires Inv(Now()) && Possible(Now(), Action.Open(key, inode, race))
      modifies this
      ensures Now() == Opened(old(Now()), key, inode, race) && c == Given(old(Now()), key)
      ensures Inv(Now())
      ensures old(Recorded(Now())) ==> Current(old(Now()), Now(), key)
    {
      OpenedKeepsInv(Now(), key, inode, race);
      if Recorded(Now()) { OpenIsCurrent(Now(), key, inode, race); }
      hide Inv, Recorded, Current, Creatable, Hit, Looked, Popped, Named, Connected;
      LookedKeepsInv(Now(), key);
      var reused := Reuse(key);
      if reused.Some? { return reused.value; }
      c := Connect(key.path, inode, race);
    }

    /** `Drop`, on the thread that drops: the connection goes back to the pool, or is closed. */
    method Drop(thread: Thread, c: ConnectionId)
      requires Inv(Now()) && c in handles
      modifies `connections, `handles, `pool
      ensures Now() == Dropped(old(Now()), thread, c) && Inv(Now())
      ensures old(Recorded(Now())) ==> Recorded(Now())
    {
      hide Inv, Recorded;
      DroppedKeeps(Now(), thread, c);
      var handle := handles[c];
      handles := handles - {c};
      if handle.identity.None? || !connections[c].autocommit {
        connections := connections - {c};
        return;
      }
      var key := Key(thread, handle.path);
      var idle := if key in pool then pool[key] else [];
      if |idle| < MAX_IDLE_CONNECTIONS {
        pool := pool[key := idle + [Idle(handle.identity.value, c)]];
      } else {
        connections := connections - {c};
      }
    }
  }
}

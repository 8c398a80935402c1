/**
 Advisory locking of lock files. The kernel side is a state machine over paths,
 inodes and open descriptors; the lock belongs to the inode and is held by one
 descriptor. The module's operations are methods that take its steps.
 */
module FsLock {
  import opened Wrappers

  type Process = nat
  type Inode = nat
  type Descriptor = nat

  /** An open descriptor: whose it is, the inode it has open, and the path it was opened under. */
  datatype OpenFile = OpenFile(owner: Process, inode: Inode, path: string)

  datatype State = State(
    inodes: map<string, Inode>, open: map<Descriptor, OpenFile>, holders: map<Inode, Descriptor>,
    nextInode: Inode, nextDescriptor: Descriptor)

  const START := State(map[], map[], map[], 0, 0)

  datatype Action =
    | Open(process: Process, path: string)
    | TryLock(descriptor: Descriptor, interrupted: bool)
    | Unlock(descriptor: Descriptor)
    | Close(descriptor: Descriptor)
    | Kill(process: Process)
    | Unlink(path: string)

  /** Whether the descriptor holds the lock of the inode it has open. */
  predicate Holds(s: State, d: Descriptor)
  {
    d in s.open && s.open[d].inode in s.holders && s.holders[s.open[d].inode] == d
  }

  /** Closing descriptors releases the locks they hold. */
  function Closed(s: State, gone: set<Descriptor>): State
  {
    s.(open := s.open - gone, holders := map i | i in s.holders && s.holders[i] !in gone :: s.holders[i])
  }

  function Opened(s: State, process: Process, path: string): State
  {
    var created := path !in s.inodes;
    var inodes := if created then s.inodes[path := s.nextInode] else s.inodes;
    State(inodes, s.open[s.nextDescriptor := OpenFile(process, inodes[path], path)], s.holders,
          if created then s.nextInode + 1 else s.nextInode, s.nextDescriptor + 1)
  }

  /** `LOCK_EX | LOCK_NB` succeeds when nobody else holds the lock and no signal interrupts it. */
  predicate Lockable(s: State, d: Descriptor, interrupted: bool)
  {
    d in s.open && !interrupted && (s.open[d].inode !in s.holders || s.holders[s.open[d].inode] == d)
  }

  function Step(s: State, a: Action): State
  {
    match a
    case Open(process, path) => Opened(s, process, path)
    case TryLock(d, interrupted) =>
      if Lockable(s, d, interrupted) then s.(holders := s.holders[s.open[d].inode := d]) else s
    case Unlock(d) => if Holds(s, d) then s.(holders := s.holders - {s.open[d].inode}) else s
    case Close(d) => Closed(s, {d})
    case Kill(process) => Closed(s, set d | d in s.open && s.open[d].owner == process)
    case Unlink(path) => s.(inodes := s.inodes - {path})
  }

  function Run(s: State, actions: seq<Action>): State
    decreases |actions|
  {
    if actions == [] then s else Run(Step(s, actions[0]), actions[1..])
  }

  // ---- exclusion -------------------------------------------------------------

  /**
   Every descriptor has open the inode its path still names, and every lock is
   held by an open descriptor of its inode.
   */
  ghost predicate Inv(s: State)
  {
    && (forall p | p in s.inodes :: s.inodes[p] < s.nextInode)
    && (forall p, q | p in s.inodes && q in s.inodes && s.inodes[p] == s.inodes[q] :: p == q)
    && (forall d | d in s.open ::
          && d < s.nextDescriptor
          && s.open[d].path in s.inodes && s.inodes[s.open[d].path] == s.open[d].inode)
    && (forall i | i in s.holders :: s.holders[i] in s.open && s.open[s.holders[i]].inode == i)
  }

  /** No file is unlinked while a descriptor of it is open; the module never unlinks at all. */
  predicate Safe(s: State, a: Action)
  {
    a.Unlink? ==> forall d | d in s.open :: s.open[d].path != a.path
  }

  ghost predicate SafeRun(s: State, actions: seq<Action>)
    decreases |actions|
  {
    actions == [] || (Safe(s, actions[0]) && SafeRun(Step(s, actions[0]), actions[1..]))
  }

  lemma OpenKeepsInv(s: State, process: Process, path: string)
    requires Inv(s)
    ensures Inv(Opened(s, process, path))
  {
  }

  lemma CloseKeepsInv(s: State, gone: set<Descriptor>)
    requires Inv(s)
    ensures Inv(Closed(s, gone))
  {
  }

  lemma StepKeepsInv(s: State, a: Action)
    requires Inv(s) && Safe(s, a)
    ensures Inv(Step(s, a))
  {
    match a
    case Open(process, path) => OpenKeepsInv(s, process, path);
    case Close(d) => CloseKeepsInv(s, {d});
    case Kill(process) => CloseKeepsInv(s, set d | d in s.open && s.open[d].owner == process);
    case TryLock(_, _) =>
    case Unlock(_) =>
    case Unlink(_) =>
  }

  /** A lock is lost by what its own descriptor or process does, and by nothing else. */
  lemma LockIsLostIff(s: State, a: Action, d: Descriptor)
    requires Inv(s) && Holds(s, d)
    ensures Holds(Step(s, a), d) <==>
            !(a == Unlock(d) || a == Close(d) || a == Kill(s.open[d].owner))
    ensures !Holds(Step(s, a), d) ==> s.open[d].inode !in Step(s, a).holders
  {
  }

  /** The action gives up a lock of the process, by the descriptor or as a whole. */
  predicate GivesUp(a: Action, d: Descriptor, process: Process)
  {
    a == Unlock(d) || a == Close(d) || a == Kill(process)
  }

  /** So it is kept over every run in which neither gives it up. */
  lemma {:induction false} LockIsKept(s: State, actions: seq<Action>, d: Descriptor)
    requires Inv(s) && SafeRun(s, actions) && Holds(s, d)
    requires forall i | 0 <= i < |actions| :: !GivesUp(actions[i], d, s.open[d].owner)
    ensures Holds(Run(s, actions), d)
    decreases |actions|
  {
    if actions != [] {
      LockIsLostIff(s, actions[0], d);
      StepKeepsInv(s, actions[0]);
      StepKeepsOpen(s, actions[0], d);
      LockIsKept(Step(s, actions[0]), actions[1..], d);
    }
  }

  lemma StepKeepsOpen(s: State, a: Action, d: Descriptor)
    requires Inv(s) && d in s.open && d in Step(s, a).open
    ensures Step(s, a).open[d] == s.open[d]
  {
  }

  lemma {:induction false} RunKeepsInv(s: State, actions: seq<Action>)
    requires Inv(s) && SafeRun(s, actions)
    ensures Inv(Run(s, actions))
    decreases |actions|
  {
    if actions != [] {
      StepKeepsInv(s, actions[0]);
      RunKeepsInv(Step(s, actions[0]), actions[1..]);
    }
  }

  /** A guard of a path: a descriptor opened under it that holds its lock. */
  predicate Guards(s: State, d: Descriptor, path: string) { Holds(s, d) && s.open[d].path == path }

  lemma {:induction false} NeverUnlinkedIsSafe(s: State, actions: seq<Action>)
    requires forall i | 0 <= i < |actions| :: !actions[i].Unlink?
    ensures SafeRun(s, actions)
    decreases |actions|
  {
    if actions != [] { NeverUnlinkedIsSafe(Step(s, actions[0]), actions[1..]); }
  }

  /** Whatever any processes do, as long as open lock files are not unlinked, a path has at most one guard. */
  lemma AtMostOneGuard(actions: seq<Action>, path: string, d: Descriptor, e: Descriptor)
    requires SafeRun(START, actions)
    requires Guards(Run(START, actions), d, path) && Guards(Run(START, actions), e, path)
    ensures d == e
  {
    RunKeepsInv(START, actions);
  }

  /** The module's own runs need no further condition: it has no unlink step. */
  lemma AtMostOneGuardWithoutUnlink(actions: seq<Action>, path: string, d: Descriptor, e: Descriptor)
    requires forall i | 0 <= i < |actions| :: !actions[i].Unlink?
    requires Guards(Run(START, actions), d, path) && Guards(Run(START, actions), e, path)
    ensures d == e
  {
    NeverUnlinkedIsSafe(START, actions);
    AtMostOneGuard(actions, path, d, e);
  }

  /** A path keeps its first inode for as long as it is not unlinked. */
  lemma {:induction false} InodeIsStable(s: State, actions: seq<Action>, path: string)
    requires path in s.inodes && forall i | 0 <= i < |actions| :: actions[i] != Unlink(path)
    ensures path in Run(s, actions).inodes && Run(s, actions).inodes[path] == s.inodes[path]
    decreases |actions|
  {
    if actions != [] { InodeIsStable(Step(s, actions[0]), actions[1..], path); }
  }

  /** Unlinking a held lock file lets a second process lock a new inode at the same path. */
  lemma UnlinkBreaksExclusion(path: string)
    ensures var s := Run(START, [Open(1, path), TryLock(0, false), Unlink(path), Open(2, path), TryLock(1, false)]);
            Guards(s, 0, path) && Guards(s, 1, path)
  {
    var s1 := Step(START, Open(1, path));
    var s2 := Step(s1, TryLock(0, false));
    var s3 := Step(s2, Unlink(path));
    var s4 := Step(s3, Open(2, path));
    var s5 := Step(s4, TryLock(1, false));
    assert s2.holders == map[0 := 0] && s4.open[1].inode == 1 && s5.holders == map[0 := 0, 1 := 1];
    FiveSteps(START, Open(1, path), TryLock(0, false), Unlink(path), Open(2, path), TryLock(1, false));
  }

  lemma FiveSteps(s: State, a: Action, b: Action, c: Action, d: Action, e: Action)
    ensures Run(s, [a, b, c, d, e]) == Step(Step(Step(Step(Step(s, a), b), c), d), e)
  {
    hide Step;
    assert [a, b, c, d, e][1..] == [b, c, d, e] && [b, c, d, e][1..] == [c, d, e];
    assert [c, d, e][1..] == [d, e] && [d, e][1..] == [e] && [e][1..] == [];
    assert Run(Step(Step(s, a), b), [c, d, e]) == Run(Step(Step(Step(Step(s, a), b), c), d), [e]);
  }

  // ---- recovery --------------------------------------------------------------

  predicate Free(s: State, path: string) { forall d | d in s.open :: !Guards(s, d, path) }

  /** The attempt of one process, opening and locking, with nothing in between. */
  function Attempt(s: State, process: Process, path: string, interrupted: bool): State
  {
    Step(Step(s, Open(process, path)), TryLock(s.nextDescriptor, interrupted))
  }

  /** A path is held exactly when the lock of the inode it names is. */
  lemma HeldIffInodeHeld(s: State, path: string)
    requires Inv(s)
    ensures Free(s, path) <==> path !in s.inodes || s.inodes[path] !in s.holders
  {
    if path in s.inodes && s.inodes[path] in s.holders {
      var d := s.holders[s.inodes[path]];
      assert s.open[d].inode == s.inodes[path] && s.open[d].path == path;
      assert Guards(s, d, path);
    }
  }

  /** The descriptor that an open adds is new, and its inode is held if and only if the path was. */
  lemma OpenSees(s: State, process: Process, path: string)
    requires Inv(s)
    ensures s.nextDescriptor !in s.open
    ensures forall i | i in s.holders :: s.holders[i] != s.nextDescriptor
    ensures Opened(s, process, path).open[s.nextDescriptor].inode in s.holders <==> !Free(s, path)
  {
    hide Free;
    HeldIffInodeHeld(s, path);
    assert s.nextInode !in s.holders;
  }

  /** An attempt gets the lock if and only if no live descriptor holds it and no signal interrupts. */
  lemma AttemptSucceedsIff(s: State, process: Process, path: string, interrupted: bool)
    requires Inv(s)
    ensures Guards(Attempt(s, process, path, interrupted), s.nextDescriptor, path) <==> Free(s, path) && !interrupted
  {
    OpenSees(s, process, path);
    hide Inv, Free;
  }

  /** After any run in which open lock files are not unlinked, an attempt at a path nobody guards succeeds. */
  lemma FreePathIsTaken(actions: seq<Action>, process: Process, path: string)
    requires SafeRun(START, actions) && Free(Run(START, actions), path)
    ensures var s := Run(START, actions); Guards(Attempt(s, process, path, false), s.nextDescriptor, path)
  {
    RunKeepsInv(START, actions);
    hide Free, Guards, Attempt;
    AttemptSucceedsIff(Run(START, actions), process, path, false);
  }

  /** Killing a process, however it held the lock, frees it: nothing it had open holds anything. */
  lemma KillReleases(s: State, process: Process, path: string)
    requires Inv(s) && forall d | d in s.open && Guards(s, d, path) :: s.open[d].owner == process
    ensures Free(Step(s, Kill(process)), path)
  {
  }

  /** After the holder is killed the next attempt of anyone succeeds. */
  lemma NextAttemptAfterKill(s: State, holder: Descriptor, other: Process, path: string)
    requires Inv(s) && Guards(s, holder, path)
    ensures var after := Step(s, Kill(s.open[holder].owner));
            Guards(Attempt(after, other, path, false), after.nextDescriptor, path)
  {
    var process := s.open[holder].owner;
    StepKeepsInv(s, Kill(process));
    KillReleases(s, process, path);
    AttemptSucceedsIff(Step(s, Kill(process)), other, path, false);
  }

  // ---- the operations --------------------------------------------------------

  datatype Acquired = Acquired(descriptor: Descriptor) | TimedOut

  class Kernel {
    var state: State

    constructor ()
      ensures state == START
    {
      state := START;
    }

    /** One attempt; a descriptor that does not get the lock is dropped again. */
    method TryAcquire(process: Process, path: string, interrupted: bool) returns (lock: Option<Descriptor>)
      requires Inv(state)
      modifies this
      ensures Inv(state)
      ensures lock.Some? <==> Free(old(state), path) && !interrupted
      ensures lock.Some? ==> lock.value == old(state).nextDescriptor && Guards(state, lock.value, path)
      ensures lock.Some? ==> state == Attempt(old(state), process, path, interrupted)
      ensures lock.None? ==>
                state == Step(Attempt(old(state), process, path, interrupted), Close(old(state).nextDescriptor))
    {
      ghost var before := state;
      var file := state.nextDescriptor;
      state := Step(state, Open(process, path));
      StepKeepsInv(before, Open(process, path));
      var locked := Lockable(state, file, interrupted);
      ghost var waiting := state;
      state := Step(state, TryLock(file, interrupted));
      StepKeepsInv(waiting, TryLock(file, interrupted));
      AttemptSucceedsIff(before, process, path, interrupted);
      if locked { return Some(file); }
      ghost var tried := state;
      state := Step(state, Close(file));
      StepKeepsInv(tried, Close(file));
      lock := None;
    }

    /** `Drop`: unlock, then close. */
    method Release(d: Descriptor)
      requires Inv(state) && Holds(state, d)
      modifies this
      ensures Inv(state) && Free(state, old(state).open[d].path)
      ensures d !in state.open && state.inodes == old(state).inodes
    {
      ghost var before := state;
      state := Step(state, Unlock(d));
      StepKeepsInv(before, Unlock(d));
      ghost var unlocked := state;
      state := Step(state, Close(d));
      StepKeepsInv(unlocked, Close(d));
    }

    /**
     Tries until it gets the lock or the clock, read after each failure, has
     passed the timeout. Between attempts any processes take any steps but
     unlinking.
     */
    method AcquireWithRetry(process: Process, path: string, timeout: nat, clock: seq<nat>, signals: seq<bool>,
                            meanwhile: seq<seq<Action>>) returns (r: Acquired, ghost seen: seq<State>)
      requires Inv(state) && |signals| == |clock| == |meanwhile|
      requires exists k | 0 <= k < |clock| :: clock[k] >= timeout
      requires forall k, j | 0 <= k < |meanwhile| && 0 <= j < |meanwhile[k]| :: !meanwhile[k][j].Unlink?
      modifies this
      ensures Inv(state) && 0 < |seen| <= |clock|
      ensures r.Acquired? ==> Guards(state, r.descriptor, path) && Free(seen[|seen| - 1], path)
      ensures r.TimedOut? ==> clock[|seen| - 1] >= timeout
      ensures forall k | 0 <= k < |seen| && (r.TimedOut? || k < |seen| - 1) :: !Free(seen[k], path) || signals[k]
      ensures forall k | 0 <= k < |seen| - 1 :: clock[k] < timeout
    {
      hide Inv, Free, Guards, Run, Attempt, Step;
      seen := [];
      var k := 0;
      while true
        invariant Inv(state) && k == |seen| < |clock|
        invariant forall j | 0 <= j < k :: (!Free(seen[j], path) || signals[j]) && clock[j] < timeout
        decreases |clock| - k
      {
        seen := seen + [state];
        var lock := TryAcquire(process, path, signals[k]);
        if lock.Some? { return Acquired(lock.value), seen; }
        if clock[k] >= timeout { return TimedOut, seen; }
        NeverUnlinkedIsSafe(state, meanwhile[k]);
        RunKeepsInv(state, meanwhile[k]);
        state := Run(state, meanwhile[k]);
        k := k + 1;
      }
    }
  }
}

/**
 The workflow states of a task, the transitions the coordinator accepts, and
 what follows for runs in which many tasks take steps in any order.
 */
module Workflow {

  datatype WorkflowState =
    | Todo | Claimed | InProgress | Testing | ChangesRequested | Reviewing | PrOpen | Queued
    | Merged | Blocked | Abandoned | WaitingApproval | Approved | Rejected | Expired
  {
    /** States that satisfy a dependency: delivered work or an approved gate. */
    predicate SatisfiesDependants() { this in {Merged, Approved} }

    /** The states of a `human_approval` gate. */
    predicate IsGate() { this in {WaitingApproval, Approved, Rejected, Expired} }
  }

  predicate IsValidWorkflowTransition(from: WorkflowState, to: WorkflowState)
  {
    match from
    case Todo => to == Claimed
    case Claimed => to in {InProgress, Blocked, Abandoned}
    case InProgress => to in {Testing, Reviewing, PrOpen, ChangesRequested, Merged, Blocked, Abandoned}
    case Testing => to in {Reviewing, Merged, InProgress, PrOpen, ChangesRequested, Blocked, Abandoned}
    case Reviewing => to in {Merged, InProgress, ChangesRequested, PrOpen, Blocked, Abandoned}
    case PrOpen => to in {ChangesRequested, Queued, Merged, Blocked, Abandoned}
    case ChangesRequested => to in {PrOpen, InProgress, Testing, Reviewing, Merged, Blocked, Abandoned}
    case Queued => to in {Merged, PrOpen, Blocked, Abandoned}
    case Blocked => to in {Todo, Claimed, InProgress, Testing, Reviewing, PrOpen, ChangesRequested, Queued, Abandoned}
    case Abandoned => to == Todo
    case _ => false
  }

  /** The table read from the other side: the states a state is reached from. */
  lemma ReachedFrom(from: WorkflowState, to: WorkflowState)
    ensures IsValidWorkflowTransition(from, to) <==>
            match to
            case Todo => from in {Blocked, Abandoned}
            case Claimed => from in {Todo, Blocked}
            case InProgress => from in {Claimed, Testing, Reviewing, ChangesRequested, Blocked}
            case Testing => from in {InProgress, ChangesRequested, Blocked}
            case Reviewing => from in {InProgress, Testing, ChangesRequested, Blocked}
            case PrOpen => from in {InProgress, Testing, Reviewing, ChangesRequested, Queued, Blocked}
            case ChangesRequested => from in {InProgress, Testing, Reviewing, PrOpen, Blocked}
            case Queued => from in {PrOpen, Blocked}
            case Merged => from in {InProgress, Testing, Reviewing, PrOpen, ChangesRequested, Queued}
            case Blocked => from in {Claimed, InProgress, Testing, Reviewing, PrOpen, ChangesRequested, Queued}
            case Abandoned =>
              from in {Claimed, InProgress, Testing, Reviewing, PrOpen, ChangesRequested, Queued, Blocked}
            case _ => false
  {
  }

  // ---- one task --------------------------------------------------------------

  /** The states a task goes through after `from`, each by a valid transition. */
  predicate IsPath(from: WorkflowState, path: seq<WorkflowState>)
    decreases |path|
  {
    path == [] || (IsValidWorkflowTransition(from, path[0]) && IsPath(path[0], path[1..]))
  }

  function End(from: WorkflowState, path: seq<WorkflowState>): WorkflowState
  {
    if path == [] then from else path[|path| - 1]
  }

  /** Work never becomes a gate, a gate never moves, and merged work stays merged. */
  lemma {:induction false} PathsMeetNoGate(from: WorkflowState, path: seq<WorkflowState>)
    requires IsPath(from, path)
    ensures forall i | 0 <= i < |path| :: !path[i].IsGate()
    ensures from.IsGate() || from == Merged ==> path == []
    ensures forall i | 0 <= i < |path| - 1 :: path[i] != Merged
    decreases |path|
  {
    if path != [] { PathsMeetNoGate(path[0], path[1..]); }
  }

  /** How many steps `from` is away from merged work; none of the gate states leads there. */
  function Distance(from: WorkflowState): nat
    requires !from.IsGate()
  {
    if from == Merged then 0
    else if from == Abandoned then 4
    else if from == Todo then 3
    else if from in {Claimed, Blocked} then 2
    else 1
  }

  /** No transition shortens the distance by more than one. */
  lemma {:induction false} PathsAreLong(from: WorkflowState, path: seq<WorkflowState>)
    requires IsPath(from, path) && End(from, path) == Merged
    ensures !from.IsGate() && |path| >= Distance(from)
    ensures from == Merged ==> path == []
    decreases |path|
  {
    if path != [] {
      assert End(path[0], path[1..]) == Merged;
      PathsAreLong(path[0], path[1..]);
    }
  }

  /** The next state of a way that has `n` steps left. */
  function Next(from: WorkflowState, n: nat): (next: WorkflowState)
    requires !from.IsGate() && from != Merged && n >= Distance(from)
    ensures IsValidWorkflowTransition(from, next) && !next.IsGate()
    ensures if n == 1 then next == Merged else next != Merged && n - 1 >= Distance(next)
  {
    if from == Abandoned then Todo
    else if from == Todo then Claimed
    else if from in {Claimed, Blocked} then InProgress
    else if n == 1 then Merged
    else if from == InProgress then Testing
    else if from == PrOpen then ChangesRequested
    else if from == Queued then PrOpen
    else InProgress
  }

  /** A way from `from` to merged work in exactly `n` steps. */
  function Way(from: WorkflowState, n: nat): (path: seq<WorkflowState>)
    requires !from.IsGate() && from != Merged && n >= Distance(from)
    ensures |path| == n && IsPath(from, path) && End(from, path) == Merged
    decreases n
  {
    hide Distance, Next, IsValidWorkflowTransition;
    DistanceIsPositive(from);
    var next := Next(from, n);
    if n == 1 then [Merged] else
      var rest := Way(next, n - 1);
      assert ([next] + rest)[1..] == rest;
      [next] + rest
  }

  lemma DistanceIsPositive(from: WorkflowState)
    requires !from.IsGate() && from != Merged
    ensures Distance(from) > 0
  {
  }

  predicate MergesIn(from: WorkflowState, path: seq<WorkflowState>, n: nat)
  {
    |path| == n && IsPath(from, path) && End(from, path) == Merged
  }

  /** The lengths of the runs from a state to merged work: every length from the distance on. */
  lemma MergedInIff(from: WorkflowState, n: nat)
    ensures (exists path :: MergesIn(from, path, n)) <==>
            if from == Merged then n == 0 else !from.IsGate() && n >= Distance(from)
  {
    forall path | MergesIn(from, path, n) ensures !from.IsGate() && n >= Distance(from) && (from == Merged ==> n == 0) {
      PathsAreLong(from, path);
    }
    if from == Merged {
      assert MergesIn(Merged, [], 0);
    } else if !from.IsGate() && n >= Distance(from) {
      assert MergesIn(from, Way(from, n), n);
    }
  }

  /** Work that starts in `todo` is claimed before it is merged. */
  lemma MergedWasClaimed(from: WorkflowState, path: seq<WorkflowState>)
    requires IsPath(from, path) && from in {Todo, Abandoned} && Merged in path
    ensures exists i, j | 0 <= i < j < |path| :: path[i] == Claimed && path[j] == Merged
  {
    var j :| 0 <= j < |path| && path[j] == Merged;
    if from == Todo {
      assert path[0] == Claimed;
    } else {
      assert path[0] == Todo && path[1..][0] == Claimed;
      assert path[1] == Claimed;
    }
  }

  // ---- many tasks ------------------------------------------------------------

  datatype Move = Move(task: string, to: WorkflowState)

  predicate ValidRun(states: map<string, WorkflowState>, moves: seq<Move>)
    decreases |moves|
  {
    moves == [] ||
    (&& moves[0].task in states && IsValidWorkflowTransition(states[moves[0].task], moves[0].to)
     && ValidRun(states[moves[0].task := moves[0].to], moves[1..]))
  }

  function After(states: map<string, WorkflowState>, moves: seq<Move>): map<string, WorkflowState>
    decreases |moves|
  {
    if moves == [] then states else After(states[moves[0].task := moves[0].to], moves[1..])
  }

  /** The states that one task enters. */
  function MovesOf(moves: seq<Move>, task: string): seq<WorkflowState>
  {
    if moves == [] then []
    else if moves[0].task == task then [moves[0].to] + MovesOf(moves[1..], task)
    else MovesOf(moves[1..], task)
  }

  /** An interleaving is valid exactly when what each task does is, whatever the others do. */
  lemma {:induction false} InterleavingIff(states: map<string, WorkflowState>, moves: seq<Move>)
    ensures ValidRun(states, moves) <==>
            && (forall i | 0 <= i < |moves| :: moves[i].task in states)
            && (forall t | t in states :: IsPath(states[t], MovesOf(moves, t)))
    decreases |moves|
  {
    if moves != [] {
      var task, to, rest := moves[0].task, moves[0].to, moves[1..];
      assert MovesOf(moves, task) == [to] + MovesOf(rest, task);
      assert ([to] + MovesOf(rest, task))[1..] == MovesOf(rest, task);
      if task in states {
        InterleavingIff(states[task := to], rest);
        assert states[task := to].Keys == states.Keys;
        forall i | 1 <= i < |moves| ensures moves[i] == rest[i - 1] {}
        if forall t | t in states :: IsPath(states[t], MovesOf(moves, t)) {
          forall t | t in states ensures IsPath(states[task := to][t], MovesOf(rest, t)) {
            assert IsPath(states[t], MovesOf(moves, t));
          }
        }
        if ValidRun(states, moves) {
          forall t | t in states ensures IsPath(states[t], MovesOf(moves, t)) {
            assert IsPath(states[task := to][t], MovesOf(rest, t));
          }
        }
      }
    }
  }

  /** A task ends where its own moves take it. */
  lemma {:induction false} AfterIsOwn(states: map<string, WorkflowState>, moves: seq<Move>, task: string)
    requires task in states
    ensures task in After(states, moves) && After(states, moves)[task] == End(states[task], MovesOf(moves, task))
    decreases |moves|
  {
    if moves != [] { AfterIsOwn(states[moves[0].task := moves[0].to], moves[1..], task); }
  }

  /** The dependencies that are met. */
  function Satisfied(states: map<string, WorkflowState>): set<string>
  {
    set t | t in states && states[t].SatisfiesDependants()
  }

  lemma {:induction false} MovesOfHas(moves: seq<Move>, task: string, to: WorkflowState)
    ensures to in MovesOf(moves, task) <==> Move(task, to) in moves
    decreases |moves|
  {
    if moves != [] {
      MovesOfHas(moves[1..], task, to);
      assert moves == [moves[0]] + moves[1..];
    }
  }

  /** Met dependencies stay met; those met anew are those of the tasks that were merged. */
  lemma SatisfiedIff(states: map<string, WorkflowState>, moves: seq<Move>, task: string)
    requires ValidRun(states, moves) && task in states
    ensures task in Satisfied(After(states, moves)) <==> task in Satisfied(states) || Move(task, Merged) in moves
  {
    var path := MovesOf(moves, task);
    InterleavingIff(states, moves);
    assert IsPath(states[task], path);
    AfterIsOwn(states, moves, task);
    PathsMeetNoGate(states[task], path);
    MovesOfHas(moves, task, Merged);
    if Merged in path {
      var i :| 0 <= i < |path| && path[i] == Merged;
      assert i == |path| - 1;
    }
  }

  /** `dependencies_ready`: every dependency is met here or merged outside. */
  predicate DependenciesReady(states: map<string, WorkflowState>, dependencies: seq<string>, external: set<string>)
  {
    forall i | 0 <= i < |dependencies| :: dependencies[i] in Satisfied(states) || dependencies[i] in external
  }

  /** A task whose dependencies are ready keeps them ready, whatever else happens. */
  lemma ReadyStaysReady(states: map<string, WorkflowState>, moves: seq<Move>, dependencies: seq<string>,
      external: set<string>)
    requires ValidRun(states, moves) && DependenciesReady(states, dependencies, external)
    ensures DependenciesReady(After(states, moves), dependencies, external)
  {
    forall i | 0 <= i < |dependencies| && dependencies[i] in Satisfied(states)
      ensures dependencies[i] in Satisfied(After(states, moves))
    {
      SatisfiedIff(states, moves, dependencies[i]);
    }
  }

  lemma {:induction false} NoNewTasks(states: map<string, WorkflowState>, moves: seq<Move>)
    requires ValidRun(states, moves)
    ensures After(states, moves).Keys == states.Keys
    decreases |moves|
  {
    if moves != [] { NoNewTasks(states[moves[0].task := moves[0].to], moves[1..]); }
  }

  /**
   After a run the dependencies are ready exactly if each of them is merged outside,
   was merged or approved before, or has been merged on the way.
   */
  lemma ReadyIff(states: map<string, WorkflowState>, moves: seq<Move>, dependencies: seq<string>, external: set<string>)
    requires ValidRun(states, moves)
    ensures DependenciesReady(After(states, moves), dependencies, external) <==>
            forall d | d in dependencies ::
              || d in external
              || (d in states && (states[d] == Merged || states[d] == Approved || Move(d, Merged) in moves))
  {
    NoNewTasks(states, moves);
    forall d | d in states
      ensures d in Satisfied(After(states, moves)) <==>
              states[d] == Merged || states[d] == Approved || Move(d, Merged) in moves
    {
      SatisfiedIff(states, moves, d);
    }
  }

  /**
   A task in `todo` comes to satisfy its dependants only by being claimed and
   then merged, in three steps at least.
   */
  lemma TodoBecomesReadyByWork(states: map<string, WorkflowState>, moves: seq<Move>, task: string)
    requires ValidRun(states, moves) && task in states && states[task] == Todo
    requires task in Satisfied(After(states, moves))
    ensures exists i, j | 0 <= i < j < |MovesOf(moves, task)| ::
        MovesOf(moves, task)[i] == Claimed && MovesOf(moves, task)[j] == Merged
    ensures |MovesOf(moves, task)| >= 3
  {
    InterleavingIff(states, moves);
    assert IsPath(states[task], MovesOf(moves, task));
    SatisfiedIff(states, moves, task);
    MovesOfHas(moves, task, Merged);
    AfterIsOwn(states, moves, task);
    MergedWasClaimed(Todo, MovesOf(moves, task));
    PathsMeetNoGate(Todo, MovesOf(moves, task));
    PathsAreLong(Todo, MovesOf(moves, task));
  }
}

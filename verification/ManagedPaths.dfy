/**
 Removing what the tool has put into a project: the recorded paths, then the
 directories that are left empty above them. A file tree maps each path below
 the root to what is there; a path is its list of names.
 */
module ManagedPaths {
  import opened Wrappers
  import opened Text

  type Path = seq<string>

  datatype Kind = File | Dir

  type Tree = map<Path, Kind>

  /** Every node lies in a directory, up to the root, which is not a node. */
  predicate WellFormed(tree: Tree)
  {
    forall p | p in tree :: p != [] && forall n | 0 < n < |p| :: p[..n] in tree && tree[p[..n]].Dir?
  }

  predicate IsChild(p: Path, q: Path) { |q| == |p| + 1 && p <= q }

  predicate HasChild(tree: Tree, p: Path) { exists q | q in tree :: IsChild(p, q) }

  /** A file, or an empty directory. */
  predicate Leaf(tree: Tree, p: Path) { p in tree && !HasChild(tree, p) }

  /** The node above `q` that lies directly below `p`. */
  lemma ChildTowards(tree: Tree, p: Path, q: Path) returns (c: Path)
    requires WellFormed(tree) && q in tree && p < q
    ensures c in tree && IsChild(p, c) && c <= q
  {
    c := q[..|p| + 1];
    assert c == q || c in tree;
  }

  lemma {:induction false} LeafBelow(tree: Tree, p: Path) returns (l: Path)
    requires WellFormed(tree) && p in tree
    ensures p <= l && Leaf(tree, l)
    decreases set q | q in tree && p <= q
  {
    if HasChild(tree, p) {
      var c :| c in tree && IsChild(p, c);
      var below, above := set q | q in tree && c <= q, set q | q in tree && p <= q;
      forall q | q in below ensures q in above { assert q[..|c|][..|p|] == q[..|p|]; }
      assert p in above && p !in below;
      l := LeafBelow(tree, c);
    } else {
      l := p;
    }
  }

  // ---- what is removed -------------------------------------------------------

  /** All of the node, down to the last directory, is managed: the first pass removes it. */
  predicate Purged(tree: Tree, managed: set<Path>, p: Path)
  {
    p in tree && forall q | q in tree && p <= q :: q in managed
  }

  /** All leaves of the node are managed. */
  predicate Gone(tree: Tree, managed: set<Path>, p: Path)
  {
    p in tree && forall l | l in tree && p <= l && Leaf(tree, l) :: l in managed
  }

  /** What `clear` leaves. */
  function Cleared(tree: Tree, managed: set<Path>): Tree
  {
    map p | p in tree && !Gone(tree, managed, p) :: tree[p]
  }

  /** A file goes if and only if it is managed, and so does an empty directory. */
  lemma LeavesGoIffManaged(tree: Tree, managed: set<Path>, p: Path)
    requires WellFormed(tree) && Leaf(tree, p)
    ensures p in Cleared(tree, managed) <==> p !in managed
    ensures tree[p].File? ==> Leaf(tree, p)
  {
    forall l | l in tree && p <= l ensures l == p {
      if p != l { var c := ChildTowards(tree, p, l); }
    }
  }

  lemma FilesAreLeaves(tree: Tree, p: Path)
    requires WellFormed(tree) && p in tree && tree[p].File?
    ensures Leaf(tree, p)
  {
    forall q | q in tree && |p| < |q| ensures q[..|p|] != p { assert tree[q[..|p|]].Dir?; }
  }

  /** What is left is a tree again, and a directory is left exactly when something unmanaged is left in it. */
  lemma ClearedIsWellFormed(tree: Tree, managed: set<Path>)
    requires WellFormed(tree)
    ensures WellFormed(Cleared(tree, managed))
    ensures forall p | p in tree :: p in Cleared(tree, managed) <==> exists l | Leaf(tree, l) :: p <= l && l !in managed
  {
    forall p, n | p in Cleared(tree, managed) && 0 < n < |p| ensures !Gone(tree, managed, p[..n]) {
      var l :| l in tree && p <= l && Leaf(tree, l) && l !in managed;
      assert p[..n] <= l;
    }
  }

  lemma LeafLeft(tree: Tree, managed: set<Path>, p: Path) returns (l: Path)
    requires p in Cleared(tree, managed)
    ensures Leaf(tree, l) && p <= l && l !in managed
  {
    hide Leaf;
    l :| l in tree && p <= l && Leaf(tree, l) && l !in managed;
  }

  lemma LeafKeepsAbove(tree: Tree, managed: set<Path>, p: Path, l: Path)
    requires Leaf(tree, l) && p <= l && l !in managed
    ensures !Gone(tree, managed, p)
  {
    hide HasChild;
  }

  /** Clearing again, with as many managed paths or fewer, removes nothing: one run reaches the end. */
  lemma ClearedTwice(tree: Tree, managed: set<Path>, fewer: set<Path>)
    requires WellFormed(tree) && fewer <= managed
    ensures Cleared(Cleared(tree, managed), fewer) == Cleared(tree, managed)
  {
    hide WellFormed, Gone, Leaf;
    var after := Cleared(tree, managed);
    forall p | p in after ensures !Gone(after, fewer, p) {
      var l := LeafLeft(tree, managed, p);
      UnmanagedLeafStays(tree, managed, l);
      LeafKeepsAbove(after, fewer, p, l);
    }
  }

  lemma UnmanagedLeafStays(tree: Tree, managed: set<Path>, l: Path)
    requires WellFormed(tree) && Leaf(tree, l) && l !in managed
    ensures Leaf(Cleared(tree, managed), l)
  {
    LeavesGoIffManaged(tree, managed, l);
  }

  // ---- the two passes --------------------------------------------------------

  predicate DeepestFirst(order: seq<Path>)
  {
    forall i, j | 0 <= i < j < |order| :: |order[i]| >= |order[j]| && order[i] != order[j]
  }

  /** Paths sorted by depth, deepest first; the order among equals plays no part. */
  method SortedByDepth(paths: set<Path>) returns (order: seq<Path>)
    ensures DeepestFirst(order) && forall p :: p in order <==> p in paths
  {
    order := [];
    var rest := paths;
    while rest != {}
      invariant DeepestFirst(order)
      invariant forall p :: p in order <==> p in paths && p !in rest
      invariant rest <= paths && forall p, q | p in order && q in rest :: |p| >= |q|
    {
      var p := Deepest(rest);
      rest := rest - {p};
      order := order + [p];
    }
  }

  method Deepest(paths: set<Path>) returns (p: Path)
    requires paths != {}
    ensures p in paths && forall q | q in paths :: |p| >= |q|
  {
    p :| p in paths;
    var rest := paths - {p};
    while rest != {}
      invariant p in paths && rest <= paths && forall q | q in paths && q !in rest :: |p| >= |q|
    {
      var q :| q in rest;
      if |q| > |p| { p := q; }
      rest := rest - {q};
    }
  }

  function First(order: seq<Path>, n: nat): set<Path>
    requires n <= |order|
  {
    set p | p in order[..n]
  }

  function PurgedPaths(tree: Tree, managed: set<Path>): set<Path> { set p | p in tree && Purged(tree, managed, p) }

  /** The tree after the first pass has handled the paths in `done`. */
  predicate PurgedSoFar(tree: Tree, managed: set<Path>, done: set<Path>, now: Tree)
  {
    && now.Keys == (set p | p in tree && !(Purged(tree, managed, p) && p in done))
    && forall p | p in now :: now[p] == tree[p]
  }

  /** When its turn comes, a managed node is empty exactly if everything below it was managed. */
  lemma EmptyIffPurged(tree: Tree, managed: set<Path>, order: seq<Path>, n: nat, now: Tree)
    requires WellFormed(tree) && DeepestFirst(order) && n < |order| && order[n] in tree && order[n] in managed
    requires forall p :: p in order <==> p in managed
    requires PurgedSoFar(tree, managed, First(order, n), now)
    ensures order[n] in now && (!HasChild(now, order[n]) <==> Purged(tree, managed, order[n]))
    ensures tree[order[n]].File? ==> Purged(tree, managed, order[n])
  {
    var p := order[n];
    if Purged(tree, managed, p) {
      forall c | c in tree && IsChild(p, c) ensures c !in now {
        assert forall q | q in tree && c <= q :: p <= q;
        assert Purged(tree, managed, c);
        var j :| 0 <= j < |order| && order[j] == c;
        assert c in order[..n];
      }
    } else {
      var d :| d in tree && p <= d && d !in managed;
      assert d != p;
      var c := ChildTowards(tree, p, d);
      assert c in now;
    }
    if tree[p].File? { FilesAreLeaves(tree, p); }
  }

  /** One turn of the first pass. */
  lemma PurgeTurn(tree: Tree, managed: set<Path>, order: seq<Path>, n: nat, now: Tree)
    requires WellFormed(tree) && DeepestFirst(order) && n < |order|
    requires forall p :: p in order <==> p in managed
    requires PurgedSoFar(tree, managed, First(order, n), now)
    ensures var p := order[n];
            && (p in now <==> p in tree) && (p in now ==> now[p] == tree[p])
            && (p in now ==> (now[p].File? || !HasChild(now, p) <==> Purged(tree, managed, p)))
            && PurgedSoFar(tree, managed, First(order, n + 1), if Purged(tree, managed, p) then now - {p} else now)
  {
    var p := order[n];
    assert p in order && p !in order[..n];
    assert order[..n + 1] == order[..n] + [p];
    if p in tree { EmptyIffPurged(tree, managed, order, n, now); }
  }

  lemma FirstNext(order: seq<Path>, n: nat)
    requires n < |order|
    ensures First(order, n + 1) == First(order, n) + {order[n]}
  {
    assert order[..n + 1] == order[..n] + [order[n]];
  }

  lemma SweptOneMore(tree: Tree, managed: set<Path>, done: set<Path>, p: Path, now: Tree)
    requires SweptSoFar(tree, managed, done, now)
    requires p in now ==> (!HasChild(now, p) <==> Gone(tree, managed, p))
    ensures SweptSoFar(tree, managed, done + {p}, if p in now && !HasChild(now, p) then now - {p} else now)
  {
    hide Purged, Gone, HasChild;
  }

  /** One turn of the second pass. */
  lemma SweepTurn(tree: Tree, managed: set<Path>, order: seq<Path>, n: nat, now: Tree)
    requires WellFormed(tree) && DeepestFirst(order) && n < |order|
    requires forall p :: p in order <==> p in Above(PurgedPaths(tree, managed))
    requires SweptSoFar(tree, managed, First(order, n), now)
    ensures var p := order[n];
            SweptSoFar(tree, managed, First(order, n + 1), if p in now && !HasChild(now, p) then now - {p} else now)
  {
    hide SweptSoFar, Gone, WellFormed, DeepestFirst, PurgedPaths, Above, HasChild, First;
    EmptyIffGone(tree, managed, order, n, now);
    FirstNext(order, n);
    SweptOneMore(tree, managed, First(order, n), order[n], now);
  }

  /** What has to go is removed by the first pass or is a candidate of the second. */
  lemma GoneIsReached(tree: Tree, managed: set<Path>, p: Path)
    requires WellFormed(tree) && p in tree
    ensures Gone(tree, managed, p) <==>
            Purged(tree, managed, p) || (Gone(tree, managed, p) && p in Above(PurgedPaths(tree, managed)))
  {
    if Purged(tree, managed, p) {
      PurgedIsGone(tree, managed, p);
    } else if Gone(tree, managed, p) {
      GoneIsAbovePurged(tree, managed, p);
    }
  }

  /** When both passes are over, what is left is what `clear` is meant to leave. */
  lemma SweptIsCleared(tree: Tree, managed: set<Path>, order: seq<Path>, now: Tree)
    requires WellFormed(tree) && SweptSoFar(tree, managed, First(order, |order|), now)
    requires forall p :: p in order <==> p in Above(PurgedPaths(tree, managed))
    ensures now == Cleared(tree, managed)
  {
    hide WellFormed, Purged, Gone, Above, PurgedPaths;
    assert order[..|order|] == order;
    forall p | p in tree ensures p in now <==> !Gone(tree, managed, p) { GoneIsReached(tree, managed, p); }
  }

  /** Managed paths seen so far, and those of them purged so far. */
  function Seen(tree: Tree, order: seq<Path>, n: nat): set<Path>
    requires n <= |order|
  {
    set p | p in order[..n] && p in tree
  }

  lemma SeenTurn(tree: Tree, managed: set<Path>, order: seq<Path>, n: nat)
    requires DeepestFirst(order) && n < |order|
    ensures var p := order[n];
            && p !in Seen(tree, order, n)
            && Seen(tree, order, n + 1) == (if p in tree then Seen(tree, order, n) + {p} else Seen(tree, order, n))
            && Seen(tree, order, n + 1) * PurgedPaths(tree, managed)
               == (Seen(tree, order, n) * PurgedPaths(tree, managed)) + (if Purged(tree, managed, p) then {p} else {})
  {
    assert order[..n + 1] == order[..n] + [order[n]];
  }

  lemma AllSeen(tree: Tree, managed: set<Path>, order: seq<Path>)
    requires forall p :: p in order <==> p in managed
    ensures Seen(tree, order, |order|) == set p | p in managed && p in tree
    ensures Seen(tree, order, |order|) * PurgedPaths(tree, managed) == PurgedPaths(tree, managed)
    ensures First(order, |order|) == managed
  {
    assert order[..|order|] == order;
  }

  /** The directories above removed paths, below the root. */
  function Above(removed: set<Path>): set<Path> { set p, n | p in removed && 0 < n < |p| :: p[..n] }

  /** The tree after the second pass has handled the directories in `done`. */
  predicate SweptSoFar(tree: Tree, managed: set<Path>, done: set<Path>, now: Tree)
  {
    && now.Keys == (set p | p in tree && !Purged(tree, managed, p) && !(Gone(tree, managed, p) && p in done))
    && forall p | p in now :: now[p] == tree[p]
  }

  lemma PurgedIsGone(tree: Tree, managed: set<Path>, p: Path)
    requires Purged(tree, managed, p)
    ensures Gone(tree, managed, p)
  {
  }

  /** A directory that has to go but survived the first pass lies above a path the first pass removed. */
  lemma GoneIsAbovePurged(tree: Tree, managed: set<Path>, p: Path)
    requires WellFormed(tree) && Gone(tree, managed, p) && !Purged(tree, managed, p)
    ensures p in Above(PurgedPaths(tree, managed))
  {
    var l := LeafBelow(tree, p);
    forall q | q in tree && l <= q ensures q == l {
      if q != l { var c := ChildTowards(tree, l, q); }
    }
    assert Purged(tree, managed, l);
    assert l != p && p == l[..|p|];
  }

  /** When its turn comes, a directory above removed paths is empty exactly if all its leaves were managed. */
  lemma EmptyIffGone(tree: Tree, managed: set<Path>, order: seq<Path>, n: nat, now: Tree)
    requires WellFormed(tree) && DeepestFirst(order) && n < |order|
    requires forall p :: p in order <==> p in Above(PurgedPaths(tree, managed))
    requires SweptSoFar(tree, managed, First(order, n), now)
    ensures order[n] in tree && tree[order[n]].Dir?
    ensures order[n] in now ==> (!HasChild(now, order[n]) <==> Gone(tree, managed, order[n]))
  {
    var p := order[n];
    assert p in order;
    var q, k :| Purged(tree, managed, q) && q in tree && 0 < k < |q| && p == q[..k];
    if p in now {
      if Gone(tree, managed, p) {
        forall c | c in tree && IsChild(p, c) ensures c !in now {
          assert forall l | l in tree && c <= l :: p <= l;
          assert Gone(tree, managed, c);
          if !Purged(tree, managed, c) {
            GoneIsAbovePurged(tree, managed, c);
            assert c in order;
            var j :| 0 <= j < |order| && order[j] == c;
            assert c in order[..n];
          }
        }
      } else {
        var l :| l in tree && p <= l && Leaf(tree, l) && l !in managed;
        var c0 := ChildTowards(tree, p, q);
        assert l != p;
        var c := ChildTowards(tree, p, l);
        assert !Gone(tree, managed, c);
        assert c in now;
      }
    }
  }

  const STATE_DIR: Path := [".macc", "state"]
  const STATE_FILE: Path := [".macc", "state", "managed_paths.json"]

  /** What `clear` goes through: the recorded paths, and where they are recorded. */
  function ClearTargets(recorded: set<Path>): set<Path> { recorded + {STATE_FILE, STATE_DIR} }

  /** Below the root of one project. */
  class ProjectTree {
    var tree: Tree

    constructor (nodes: Tree)
      ensures tree == nodes
    {
      tree := nodes;
    }

    /** `cleanup_empty_parents` */
    method CleanupEmptyParents(removed: set<Path>, ghost before: Tree, ghost managed: set<Path>)
      requires WellFormed(before) && SweptSoFar(before, managed, {}, tree)
      requires removed == PurgedPaths(before, managed)
      modifies this
      ensures tree == Cleared(before, managed)
    {
      hide SweptSoFar, WellFormed, DeepestFirst;
      var candidates := SortedByDepth(Above(removed));
      assert First(candidates, 0) == {};
      for n := 0 to |candidates|
        invariant SweptSoFar(before, managed, First(candidates, n), tree)
      {
        var dir := candidates[n];
        SweepTurn(before, managed, candidates, n, tree);
        if dir in tree && !HasChild(tree, dir) {
          tree := tree - {dir};
        }
      }
      SweptIsCleared(before, managed, candidates, tree);
    }

    /** `clear`; `removed` counts the first pass only, as the report does. */
    method Clear(recorded: set<Path>) returns (removed: nat, skipped: nat)
      requires WellFormed(tree)
      modifies this
      ensures tree == Cleared(old(tree), ClearTargets(recorded)) && WellFormed(tree)
      ensures removed == |PurgedPaths(old(tree), ClearTargets(recorded))|
      ensures removed + skipped == |set p | p in ClearTargets(recorded) && p in old(tree)|
    {
      var managed := ClearTargets(recorded);
      hide PurgedSoFar, SweptSoFar, WellFormed, DeepestFirst, Purged, PurgedPaths, Seen, ClearTargets;
      ghost var before := tree;
      var entries := SortedByDepth(managed);
      removed, skipped := 0, 0;
      var removedPaths: set<Path> := {};
      NothingPurged(before, managed, entries);
      for n := 0 to |entries|
        invariant PurgedSoFar(before, managed, First(entries, n), tree)
        invariant removedPaths == Seen(before, entries, n) * PurgedPaths(before, managed)
        invariant removed == |removedPaths| && removed + skipped == |Seen(before, entries, n)|
      {
        var full := entries[n];
        PurgeTurn(before, managed, entries, n, tree);
        SeenTurn(before, managed, entries, n);
        PurgedIsThere(before, managed, full);
        if full !in tree { continue; }
        if tree[full].File? || !HasChild(tree, full) {
          tree := tree - {full};
          removed := removed + 1;
          removedPaths := removedPaths + {full};
        } else {
          skipped := skipped + 1;
        }
      }
      AllSeen(before, managed, entries);
      PassOneEnds(before, managed, tree);
      CleanupEmptyParents(removedPaths, before, managed);
      ClearedIsWellFormed(before, managed);
    }

    /** `clear_dry_run` counts the managed paths that exist: what `clear` removes or skips. */
    method ClearDryRun(recorded: set<Path>) returns (removed: nat)
      ensures removed == |set p | p in ClearTargets(recorded) && p in tree|
    {
      hide ClearTargets, Seen, DeepestFirst, PurgedPaths;
      var managed := ClearTargets(recorded);
      var entries := SortedByDepth(managed);
      removed := 0;
      NothingPurged(tree, managed, entries);
      for n := 0 to |entries|
        invariant removed == |Seen(tree, entries, n)|
      {
        SeenTurn(tree, managed, entries, n);
        if entries[n] !in tree { continue; }
        removed := removed + 1;
      }
      AllSeen(tree, managed, entries);
    }
  }

  lemma NothingPurged(tree: Tree, managed: set<Path>, order: seq<Path>)
    ensures PurgedSoFar(tree, managed, First(order, 0), tree) && Seen(tree, order, 0) == {}
  {
  }

  lemma PurgedIsThere(tree: Tree, managed: set<Path>, p: Path)
    ensures Purged(tree, managed, p) ==> p in tree
  {
  }

  lemma PassOneEnds(tree: Tree, managed: set<Path>, now: Tree)
    requires PurgedSoFar(tree, managed, managed, now)
    ensures SweptSoFar(tree, managed, {}, now)
  {
  }

  // ---- recorded paths --------------------------------------------------------

  function NotSlash(): char -> bool { c => c != '/' }

  /** The names between slashes. */
  function Split(s: string): seq<string>
    decreases |s|
  {
    var n := Span(s, NotSlash());
    if n == |s| then [s] else [s[..n]] + Split(s[n + 1..])
  }

  function Join(p: Path): string
  {
    if p == [] then "" else if |p| == 1 then p[0] else p[0] + "/" + Join(p[1..])
  }

  /** The parts of a path that name something: empty parts and dots do not. */
  function Named(parts: seq<string>): seq<string>
  {
    if parts == [] then [] else (if parts[0] in {"", "."} then [] else [parts[0]]) + Named(parts[1..])
  }

  /** A relative path without parent references that names something. */
  function Normalized(path: string): Option<Path>
  {
    if path == "" || path[0] == '/' || ".." in Split(path) || Named(Split(path)) == [] then None
    else Some(Named(Split(path)))
  }

  predicate LegalName(name: string) { name !in {"", ".", ".."} && '/' !in name }

  predicate LegalPath(p: Path) { p != [] && forall i | 0 <= i < |p| :: LegalName(p[i]) }

  lemma NamedNext(parts: seq<string>, i: nat)
    requires i < |parts|
    ensures Named(parts[i..]) == (if parts[i] in {"", "."} then [] else [parts[i]]) + Named(parts[i + 1..])
  {
    assert parts[i..][1..] == parts[i + 1..];
  }

  /** `normalize_relative_path`: segments are pushed one by one, and a parent reference ends it. */
  method NormalizeRelativePath(path: string) returns (r: Option<Path>)
    ensures r == Normalized(path)
  {
    if path == "" || path[0] == '/' { return None; }
    var parts, normalized := Split(path), [];
    hide Split;
    for i := 0 to |parts|
      invariant normalized + Named(parts[i..]) == Named(parts)
      invariant ".." !in parts[..i]
    {
      NamedNext(parts, i);
      assert parts[..i + 1] == parts[..i] + [parts[i]];
      if parts[i] == ".." { return None; }
      if parts[i] !in {"", "."} { normalized := normalized + [parts[i]]; }
    }
    assert parts[..|parts|] == parts && parts[|parts|..] == [];
    assert Named(parts) == normalized;
    r := if normalized == [] then None else Some(normalized);
  }

  lemma {:induction false} SplitNames(s: string)
    ensures forall i | 0 <= i < |Split(s)| :: '/' !in Split(s)[i]
    decreases |s|
  {
    var n := Span(s, NotSlash());
    if n < |s| { SplitNames(s[n + 1..]); }
  }

  lemma {:induction false} NamedParts(parts: seq<string>)
    ensures forall i | 0 <= i < |Named(parts)| :: Named(parts)[i] in parts && Named(parts)[i] !in {"", "."}
  {
    if parts != [] { NamedParts(parts[1..]); }
  }

  lemma SplitOne(head: string)
    requires '/' !in head
    ensures Split(head) == [head]
  {
    SpanIs(head, "", NotSlash());
    assert head + "" == head;
  }

  lemma SplitCons(head: string, rest: string)
    requires '/' !in head
    ensures Split(head + ("/" + rest)) == [head] + Split(rest)
  {
    var s := head + ("/" + rest);
    SpanIs(head, "/" + rest, NotSlash());
    SplitAt(s, |head|);
    assert s[..|head|] == head && s[|head| + 1..] == rest;
    hide Split;
  }

  lemma SplitAt(s: string, n: nat)
    requires n == Span(s, NotSlash()) < |s|
    ensures Split(s) == [s[..n]] + Split(s[n + 1..])
  {
  }

  lemma {:induction false} SplitJoined(parts: seq<string>)
    requires parts != [] && forall i | 0 <= i < |parts| :: '/' !in parts[i]
    ensures Split(Join(parts)) == parts
  {
    hide Split;
    var rest := parts[1..];
    if |parts| == 1 {
      SplitOne(parts[0]);
    } else {
      SplitCons(parts[0], Join(rest));
      SplitJoined(rest);
      assert Join(parts) == parts[0] + ("/" + Join(rest));
    }
    assert parts == [parts[0]] + rest;
  }

  lemma {:induction false} AllNamed(p: Path)
    requires forall i | 0 <= i < |p| :: p[i] !in {"", "."}
    ensures Named(p) == p
  {
    if p != [] {
      AllNamed(p[1..]);
      assert p == [p[0]] + p[1..];
    }
  }

  /** A legal path is read back from how it is written. */
  lemma PathReadsBack(p: Path)
    requires LegalPath(p)
    ensures Normalized(Join(p)) == Some(p)
  {
    SplitJoined(p);
    AllNamed(p);
    JoinStarts(p);
    assert ".." !in p;
    hide Split, Join, Named;
  }

  lemma JoinStarts(parts: seq<string>)
    requires parts != []
    ensures parts[0] != "" ==> Join(parts) != "" && Join(parts)[0] == parts[0][0]
    ensures parts[0] == "" ==> Join(parts) == "" || Join(parts)[0] == '/'
  {
  }

  /** A normalized path is written out and read back unchanged, and names only what lies below the root. */
  lemma NormalizedReadsBack(path: string)
    requires Normalized(path).Some?
    ensures LegalPath(Normalized(path).value)
    ensures Normalized(Join(Normalized(path).value)) == Normalized(path)
  {
    var p := Normalized(path).value;
    SplitNames(path);
    NamedParts(Split(path));
    forall i | 0 <= i < |p| ensures LegalName(p[i]) {
      var k :| 0 <= k < |Split(path)| && Split(path)[k] == p[i];
    }
    PathReadsBack(p);
  }

  /** `kept` is what stands at the places of `parts`, in order. */
  predicate StandsAt(places: seq<nat>, parts: seq<string>, kept: seq<string>)
  {
    && |places| == |kept|
    && (forall k | 0 <= k < |places| :: places[k] < |parts| && kept[k] == parts[places[k]])
    && (forall k, l | 0 <= k < l < |places| :: places[k] < places[l])
  }

  /** These are all the places whose part is neither empty nor a dot. */
  predicate AllNamedPlaces(places: seq<nat>, parts: seq<string>)
  {
    forall i | 0 <= i < |parts| :: i in places <==> parts[i] != "" && parts[i] != "."
  }

  predicate AreThePlaces(places: seq<nat>, parts: seq<string>, kept: seq<string>)
  {
    StandsAt(places, parts, kept) && AllNamedPlaces(places, parts)
  }

  function Shifted(places: seq<nat>): (r: seq<nat>)
    ensures |r| == |places| && forall k | 0 <= k < |r| :: r[k] == places[k] + 1
  {
    seq(|places|, k requires 0 <= k < |places| => places[k] + 1)
  }

  lemma ShiftedPlaces(places: seq<nat>, i: nat)
    ensures i in Shifted(places) <==> i > 0 && i - 1 in places
  {
    if i > 0 && i - 1 in places {
      var k :| 0 <= k < |places| && places[k] == i - 1;
      assert Shifted(places)[k] == i;
    }
  }

  predicate LeftOut(part: string) { part == "" || part == "." }

  function PlacesBefore(parts: seq<string>, later: seq<nat>): seq<nat>
    requires parts != []
  {
    if LeftOut(parts[0]) then Shifted(later) else [0] + Shifted(later)
  }

  lemma PlacesAfter(parts: seq<string>, kept: seq<string>, later: seq<nat>)
    requires parts != [] && AreThePlaces(later, parts[1..], kept)
    ensures AreThePlaces(PlacesBefore(parts, later), parts, if LeftOut(parts[0]) then kept else [parts[0]] + kept)
  {
    forall i: nat | i < |parts| ensures i in Shifted(later) <==> i > 0 && i - 1 in later { ShiftedPlaces(later, i); }
    hide Shifted, AreThePlaces;
    if LeftOut(parts[0]) {
      LaterPlaces(parts, parts[1..], kept, later);
    } else {
      FirstPlace(parts, parts[1..], kept, later);
    }
  }

  lemma LaterPlaces(all: seq<string>, parts: seq<string>, kept: seq<string>, places: seq<nat>)
    requires AreThePlaces(places, parts, kept) && |all| == |parts| + 1 && all[0] in {"", "."}
    requires forall i | 0 < i < |all| :: all[i] == parts[i - 1]
    requires forall i: nat | i < |all| :: i in Shifted(places) <==> i > 0 && i - 1 in places
    ensures AreThePlaces(Shifted(places), all, kept)
  {
    var shifted := Shifted(places);
    hide Shifted;
    forall i | 0 <= i < |all| ensures i in shifted <==> all[i] != "" && all[i] != "." {
      assert i > 0 ==> (i - 1 in places <==> parts[i - 1] != "" && parts[i - 1] != ".");
    }
  }

  lemma FirstPlace(all: seq<string>, parts: seq<string>, kept: seq<string>, places: seq<nat>)
    requires AreThePlaces(places, parts, kept) && |all| == |parts| + 1 && all[0] !in {"", "."}
    requires forall i | 0 < i < |all| :: all[i] == parts[i - 1]
    requires forall i: nat | i < |all| :: i in Shifted(places) <==> i > 0 && i - 1 in places
    ensures AreThePlaces([0] + Shifted(places), all, [all[0]] + kept)
  {
    assert StandsAt([0] + Shifted(places), all, [all[0]] + kept) by { hide AllNamedPlaces; }
    hide StandsAt, Shifted;
    forall i | 0 <= i < |all| ensures i in [0] + Shifted(places) <==> all[i] != "" && all[i] != "." {
      assert i > 0 ==> (i - 1 in places <==> parts[i - 1] != "" && parts[i - 1] != ".");
    }
  }

  lemma NamedFirst(parts: seq<string>)
    requires parts != []
    ensures Named(parts) == if LeftOut(parts[0]) then Named(parts[1..]) else [parts[0]] + Named(parts[1..])
  {
  }

  lemma {:induction false} NamedPlaces(parts: seq<string>) returns (places: seq<nat>)
    ensures AreThePlaces(places, parts, Named(parts))
  {
    if parts == [] {
      places := [];
    } else {
      var later := NamedPlaces(parts[1..]);
      hide AreThePlaces, Named, PlacesBefore, LeftOut;
      PlacesAfter(parts, Named(parts[1..]), later);
      NamedFirst(parts);
      places := PlacesBefore(parts, later);
    }
  }

  /**
   What a written path means: nothing if it is absolute or empty, goes up or names
   nothing; otherwise its parts but for the empty ones and the dots, all of them, in order.
   */
  lemma PartsAreKept(parts: seq<string>)
    requires parts != [] && forall i | 0 <= i < |parts| :: '/' !in parts[i]
    ensures Normalized(Join(parts)).None? <==>
            ".." in parts || parts[0] == "" || forall i | 0 <= i < |parts| :: parts[i] in {"", "."}
    ensures Normalized(Join(parts)).Some? ==>
              exists places :: AreThePlaces(places, parts, Normalized(Join(parts)).value)
  {
    SplitJoined(parts);
    var places := NamedPlaces(parts);
    JoinStarts(parts);
    if Named(parts) == [] {
      assert places == [];
    } else {
      assert places[0] in places;
    }
    hide Split, Join, Named;
  }

  /** `record_managed_path`: what does not name a path below the root is not recorded. */
  function Recorded(recorded: set<Path>, path: string): set<Path>
  {
    if Normalized(path).None? then recorded else recorded + {Normalized(path).value}
  }

  /**
   A file recorded by its path is removed by the next clearing, with every
   directory above it that holds nothing else.
   */
  lemma RecordedFileIsCleared(tree: Tree, recorded: set<Path>, f: Path, n: nat)
    requires WellFormed(tree) && f in tree && tree[f].File? && LegalPath(f) && 0 < n <= |f|
    ensures var after := Cleared(tree, ClearTargets(Recorded(recorded, Join(f))));
            && f !in after
            && (f[..n] in after <==> exists l | Leaf(tree, l) :: f[..n] <= l && l != f && l !in ClearTargets(recorded))
  {
    var managed := ClearTargets(Recorded(recorded, Join(f)));
    PathReadsBack(f);
    assert managed == ClearTargets(recorded) + {f};
    FilesAreLeaves(tree, f);
    LeavesGoIffManaged(tree, managed, f);
    ClearedIsWellFormed(tree, managed);
    assert f[..n] in tree by { assert n == |f| ==> f[..n] == f; }
    hide Leaf, Gone, ClearTargets, Join, Recorded;
  }

  /** Recording a path leaves every file that is not recorded where it is. */
  lemma OtherFilesStay(tree: Tree, recorded: set<Path>, path: string, g: Path)
    requires WellFormed(tree) && g in tree && tree[g].File? && g !in ClearTargets(recorded)
    requires Normalized(path) != Some(g)
    ensures g in Cleared(tree, ClearTargets(Recorded(recorded, path)))
  {
    FilesAreLeaves(tree, g);
    LeavesGoIffManaged(tree, ClearTargets(Recorded(recorded, path)), g);
  }

  /** Clearing removes the record itself and, if nothing else is left in it, the directory the record is in. */
  lemma RecordIsCleared(tree: Tree, recorded: set<Path>)
    requires WellFormed(tree)
    ensures var record, after := [".macc", "state", "managed_paths.json"], Cleared(tree, ClearTargets(recorded));
            && (record in tree && tree[record].File? ==> record !in after)
            && ([".macc", "state"] in after ==>
                  exists l | Leaf(tree, l) :: [".macc", "state"] <= l && l != record && l !in recorded)
            && (Leaf(tree, [".macc", "state"]) ==> [".macc", "state"] !in after)
  {
    var managed := ClearTargets(recorded);
    if STATE_FILE in tree && tree[STATE_FILE].File? {
      FilesAreLeaves(tree, STATE_FILE);
      LeavesGoIffManaged(tree, managed, STATE_FILE);
    }
    if Leaf(tree, STATE_DIR) { LeavesGoIffManaged(tree, managed, STATE_DIR); }
    ClearedIsWellFormed(tree, managed);
    hide Leaf, Gone;
  }

  /** A file in a directory of its own, in a directory of its own. */
  function Nested(a: string, b: string, file: string): Tree
  {
    map[[a] := Dir, [a, b] := Dir, [a, b, file] := File]
  }

  lemma NestedIsTree(a: string, b: string, file: string)
    ensures WellFormed(Nested(a, b, file))
    ensures forall p | p in Nested(a, b, file) :: p <= [a, b, file]
  {
    var f := [a, b, file];
    assert f[..1] == [a] && f[..2] == [a, b] && [a, b][..1] == [a];
  }

  lemma NestedLeaf(a: string, b: string, file: string, l: Path)
    ensures Leaf(Nested(a, b, file), l) <==> l == [a, b, file]
  {
    assert IsChild([a], [a, b]) && IsChild([a, b], [a, b, file]);
  }

  lemma NestedCleared(a: string, b: string, file: string, managed: set<Path>)
    ensures Cleared(Nested(a, b, file), managed) == if [a, b, file] in managed then map[] else Nested(a, b, file)
  {
    var tree, f := Nested(a, b, file), [a, b, file];
    NestedIsTree(a, b, file);
    forall l ensures Leaf(tree, l) <==> l == f { NestedLeaf(a, b, file, l); }
    hide WellFormed, Leaf, Gone, Nested;
    ClearedIsWellFormed(tree, managed);
  }

  /** Nothing of it is left when the file has been recorded, and all of it otherwise. */
  lemma NestedFileIsCleared(a: string, b: string, file: string)
    ensures var tree := Nested(a, b, file);
            && WellFormed(tree) && Cleared(tree, ClearTargets({[a, b, file]})) == map[]
            && Cleared(tree, ClearTargets({})) == if [a, b, file] == STATE_FILE then map[] else tree
  {
    hide WellFormed, Nested, Cleared;
    NestedIsTree(a, b, file);
    NestedCleared(a, b, file, ClearTargets({[a, b, file]}));
    NestedCleared(a, b, file, ClearTargets({}));
  }
}

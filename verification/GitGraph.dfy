/** Paging through the commit graph, with the last commit of each page as the cursor of the next. */
module GitGraph {
  import opened Wrappers
  import opened GitLog

  /** The first commit that the cursor names, by its sha or a prefix of it. */
  function Position(commits: seq<Commit>, cursor: string): (r: Option<nat>)
    ensures r.Some? ==> r.value < |commits| && cursor <= commits[r.value].sha
    ensures forall i | 0 <= i < (if r.Some? then r.value else |commits|) :: !(cursor <= commits[i].sha)
  {
    if commits == [] then None
    else if commits[0].sha == cursor || cursor <= commits[0].sha then Some(0)
    else
      var r := Position(commits[1..], cursor);
      if r.None? then None else Some(r.value + 1)
  }

  /** Where a page begins: after the cursor, or at the top when the cursor names nothing. */
  function Start(commits: seq<Commit>, since: Option<string>): (k: nat)
    ensures k <= |commits|
  {
    if since.None? || Position(commits, since.value).None? then 0 else Position(commits, since.value).value + 1
  }

  function Min(a: nat, b: nat): nat { if a < b then a else b }

  /** `parse_git_graph_records`, after the parsing. */
  function Page(commits: seq<Commit>, limit: nat, since: Option<string>): seq<Commit>
  {
    var start := Start(commits, since);
    commits[start..Min(start + limit, |commits|)]
  }

  /** At most `n` pages, each asked for with the last commit of the one before, until one is empty. */
  function Pages(commits: seq<Commit>, limit: nat, since: Option<string>, n: nat): seq<seq<Commit>>
    decreases n
  {
    var page := Page(commits, limit, since);
    if n == 0 || page == [] then []
    else [page] + Pages(commits, limit, Some(page[|page| - 1].sha), n - 1)
  }

  function Flat(pages: seq<seq<Commit>>): seq<Commit>
  {
    if pages == [] then [] else pages[0] + Flat(pages[1..])
  }

  /** The last commit of a page that starts at `k`. */
  function PageEnd(commits: seq<Commit>, limit: nat, k: nat): (e: nat)
    requires k < |commits| && limit > 0
    ensures k <= e < |commits|
  {
    Min(k + limit, |commits|) - 1
  }

  predicate FirstOfItsName(commits: seq<Commit>, e: nat)
    requires e < |commits|
  {
    forall i | 0 <= i < e :: !(commits[e].sha <= commits[i].sha)
  }

  /** No commit before the last of a page has a sha that begins with the last one's. */
  predicate CursorsAreClear(commits: seq<Commit>, limit: nat, k: nat)
    requires limit > 0
    decreases |commits| - k
  {
    k >= |commits| ||
    (FirstOfItsName(commits, PageEnd(commits, limit, k))
        && CursorsAreClear(commits, limit, PageEnd(commits, limit, k) + 1))
  }

  lemma CursorPosition(commits: seq<Commit>, e: nat)
    requires e < |commits|
    ensures Start(commits, Some(commits[e].sha)) <= e + 1
    ensures Start(commits, Some(commits[e].sha)) == e + 1 <==> FirstOfItsName(commits, e)
  {
    var r := Position(commits, commits[e].sha);
    assert commits[e].sha <= commits[e].sha;
  }

  lemma FirstPage(commits: seq<Commit>, limit: nat, since: Option<string>)
    requires limit > 0 && Start(commits, since) < |commits|
    ensures var e := PageEnd(commits, limit, Start(commits, since));
            var page := Page(commits, limit, since);
            page != [] && page == commits[Start(commits, since)..e + 1] && page[|page| - 1] == commits[e]
  {
    hide Start;
  }

  lemma FlatCons(page: seq<Commit>, rest: seq<seq<Commit>>)
    ensures Flat([page] + rest) == page + Flat(rest)
  {
    assert ([page] + rest)[1..] == rest;
  }

  /** The page that a cursor asks for, and the pages after it. */
  lemma PagesGoOn(commits: seq<Commit>, limit: nat, since: Option<string>, n: nat)
    requires limit > 0 && n > 0 && Start(commits, since) < |commits|
    ensures var k := Start(commits, since);
            var e := PageEnd(commits, limit, k);
            var rest := Pages(commits, limit, Some(commits[e].sha), n - 1);
            && Pages(commits, limit, since, n) == [commits[k..e + 1]] + rest
            && Flat(Pages(commits, limit, since, n)) == commits[k..e + 1] + Flat(rest)
  {
    FirstPage(commits, limit, since);
    hide Start, Page, PageEnd, Flat;
    var e := PageEnd(commits, limit, Start(commits, since));
    FlatCons(Page(commits, limit, since), Pages(commits, limit, Some(commits[e].sha), n - 1));
  }

  lemma NoPages(commits: seq<Commit>, limit: nat, since: Option<string>, n: nat)
    requires n == 0 || Start(commits, since) == |commits|
    ensures Pages(commits, limit, since, n) == [] && Flat(Pages(commits, limit, since, n)) == []
  {
    hide Start;
  }

  /** With clear cursors every page goes on where the last one ended, and enough pages reach the end. */
  lemma {:induction false} ClearPages(commits: seq<Commit>, limit: nat, since: Option<string>, n: nat)
    requires limit > 0 && CursorsAreClear(commits, limit, Start(commits, since))
    ensures var k := Start(commits, since);
            var all := Flat(Pages(commits, limit, since, n));
            all <= commits[k..] && (n >= |commits| - k ==> all == commits[k..])
    decreases n
  {
    hide Start, Pages, Flat, FirstOfItsName;
    var k := Start(commits, since);
    if k < |commits| && n > 0 {
      var e := PageEnd(commits, limit, k);
      CursorPosition(commits, e);
      ClearPages(commits, limit, Some(commits[e].sha), n - 1);
      PagesGoOn(commits, limit, since, n);
      hide CursorsAreClear, PageEnd;
      Continued(commits, k, e + 1, Flat(Pages(commits, limit, Some(commits[e].sha), n - 1)));
    } else {
      NoPages(commits, limit, since, n);
    }
  }

  lemma Continued(commits: seq<Commit>, k: nat, m: nat, rest: seq<Commit>)
    requires k <= m <= |commits| && rest <= commits[m..]
    ensures commits[k..m] + rest <= commits[k..] && (rest == commits[m..] ==> commits[k..m] + rest == commits[k..])
  {
    assert commits[k..] == commits[k..m] + commits[m..];
  }

  /** However the cursors fall, the pages come to the end or go on for as long as they are asked for. */
  lemma {:induction false} PagesReach(commits: seq<Commit>, limit: nat, since: Option<string>, n: nat)
    requires limit > 0
    ensures |Flat(Pages(commits, limit, since, n))| >= Min(n, |commits| - Start(commits, since))
    decreases n
  {
    hide Start, Pages, Flat, FirstOfItsName;
    var k := Start(commits, since);
    if k < |commits| && n > 0 {
      var e := PageEnd(commits, limit, k);
      CursorPosition(commits, e);
      PagesReach(commits, limit, Some(commits[e].sha), n - 1);
      PagesGoOn(commits, limit, since, n);
    }
  }

  /** A cursor that names an earlier commit makes the pages repeat some. */
  lemma {:induction false} UnclearPages(commits: seq<Commit>, limit: nat, since: Option<string>, n: nat)
    requires limit > 0 && !CursorsAreClear(commits, limit, Start(commits, since))
    requires n >= 2 * |commits| - Start(commits, since) + 1
    ensures |Flat(Pages(commits, limit, since, n))| > |commits| - Start(commits, since)
    decreases n
  {
    hide Start, Pages, Flat;
    var k := Start(commits, since);
    var e := PageEnd(commits, limit, k);
    CursorPosition(commits, e);
    PagesGoOn(commits, limit, since, n);
    if FirstOfItsName(commits, e) {
      hide FirstOfItsName;
      UnclearPages(commits, limit, Some(commits[e].sha), n - 1);
    } else {
      hide FirstOfItsName, CursorsAreClear;
      PagesReach(commits, limit, Some(commits[e].sha), n - 1);
    }
  }

  /**
   Asking for page after page gives every commit exactly once, in order, if and
   only if no cursor on the way names an earlier commit; otherwise it repeats.
   */
  lemma PagingIsCompleteIff(commits: seq<Commit>, limit: nat)
    requires limit > 0
    ensures (forall n | n > 2 * |commits| :: Flat(Pages(commits, limit, None, n)) == commits) <==>
            CursorsAreClear(commits, limit, 0)
  {
    hide Pages, Flat, CursorsAreClear;
    assert commits[0..] == commits;
    if CursorsAreClear(commits, limit, 0) {
      forall n | n > 2 * |commits| ensures Flat(Pages(commits, limit, None, n)) == commits {
        ClearPages(commits, limit, None, n);
      }
    } else {
      UnclearPages(commits, limit, None, 2 * |commits| + 1);
    }
  }

  /** It stops: there are no more pages than commits. */
  lemma {:induction false} ClearPagesStop(commits: seq<Commit>, limit: nat, since: Option<string>, n: nat)
    requires limit > 0 && CursorsAreClear(commits, limit, Start(commits, since))
    ensures |Pages(commits, limit, since, n)| <= |commits| - Start(commits, since)
    decreases n
  {
    hide Start, Pages, Flat, FirstOfItsName;
    var k := Start(commits, since);
    if k < |commits| && n > 0 {
      var e := PageEnd(commits, limit, k);
      CursorPosition(commits, e);
      ClearPagesStop(commits, limit, Some(commits[e].sha), n - 1);
      PagesGoOn(commits, limit, since, n);
    } else {
      NoPages(commits, limit, since, n);
    }
  }

  predicate DistinctShas(commits: seq<Commit>)
  {
    forall i, j | 0 <= i < j < |commits| :: commits[i].sha != commits[j].sha && |commits[i].sha| == |commits[j].sha|
  }

  /** Distinct shas of one length make clear cursors, at every limit. */
  lemma {:induction false} DistinctShasAreClear(commits: seq<Commit>, limit: nat, k: nat)
    requires limit > 0 && DistinctShas(commits)
    ensures CursorsAreClear(commits, limit, k)
    decreases |commits| - k
  {
    if k < |commits| { DistinctShasAreClear(commits, limit, PageEnd(commits, limit, k) + 1); }
  }

  /** The log that git prints, read and paged: every commit once, in the order of the log. */
  lemma PagedLogIsComplete(commits: seq<Commit>, limit: nat, n: nat)
    requires limit > 0 && n >= |commits| && DistinctShas(commits)
    requires forall i | 0 <= i < |commits| :: Plain(commits[i]) && Unbroken(commits[i])
    ensures Flat(Pages(CommitsOf(PrintLog(commits)), limit, None, n)) == commits
    ensures |Pages(CommitsOf(PrintLog(commits)), limit, None, n)| <= |commits|
  {
    hide CommitsOf, Plain, Unbroken, PrintLog, CursorsAreClear, Pages, Flat;
    LogReadBack(commits, "");
    assert "" + PrintLog(commits) == PrintLog(commits);
    DistinctShasAreClear(commits, limit, 0);
    ClearPages(commits, limit, None, n);
    ClearPagesStop(commits, limit, None, n);
    assert commits[0..] == commits;
  }

  // ---- when paging ends ------------------------------------------------------

  /** Where the page after the one that starts at `k` starts. */
  function NextStart(commits: seq<Commit>, limit: nat, k: nat): (next: nat)
    requires limit > 0 && k < |commits|
    ensures 0 < next <= PageEnd(commits, limit, k) + 1
  {
    CursorPosition(commits, PageEnd(commits, limit, k));
    assert commits[PageEnd(commits, limit, k)].sha <= commits[PageEnd(commits, limit, k)].sha;
    Start(commits, Some(commits[PageEnd(commits, limit, k)].sha))
  }

  /** The start of the `n`th page when the first starts at `k`; at the end the walk stands still. */
  function Walk(commits: seq<Commit>, limit: nat, k: nat, n: nat): (m: nat)
    requires limit > 0 && k <= |commits|
    ensures m <= |commits|
    decreases n
  {
    if n == 0 || k == |commits| then k else Walk(commits, limit, NextStart(commits, limit, k), n - 1)
  }

  lemma {:induction false} WalkSplits(commits: seq<Commit>, limit: nat, k: nat, m: nat, n: nat)
    requires limit > 0 && k <= |commits|
    ensures Walk(commits, limit, k, m + n) == Walk(commits, limit, Walk(commits, limit, k, m), n)
    decreases m
  {
    hide NextStart;
    if m > 0 && k < |commits| { WalkSplits(commits, limit, NextStart(commits, limit, k), m - 1, n); }
  }

  /** The pages start where the walk goes, and there are as many as it takes to the end. */
  lemma {:induction false} PagesWalk(commits: seq<Commit>, limit: nat, since: Option<string>, n: nat)
    requires limit > 0
    ensures var k := Start(commits, since);
            var pages := Pages(commits, limit, since, n);
            && (forall i: nat :: i < |pages| <==> i < n && Walk(commits, limit, k, i) < |commits|)
            && forall i: nat | i < |pages| ::
                 var m := Walk(commits, limit, k, i); pages[i] == commits[m..PageEnd(commits, limit, m) + 1]
    decreases n
  {
    hide Start, Pages, Flat, PageEnd;
    var k := Start(commits, since);
    if k == |commits| || n == 0 {
      NoPages(commits, limit, since, n);
    } else {
      var e := PageEnd(commits, limit, k);
      var after := Pages(commits, limit, Some(commits[e].sha), n - 1);
      PagesGoOn(commits, limit, since, n);
      PagesWalk(commits, limit, Some(commits[e].sha), n - 1);
      NextStartIs(commits, limit, k);
      hide NextStart;
      forall i: nat | i > 0
        ensures Walk(commits, limit, k, i) == Walk(commits, limit, NextStart(commits, limit, k), i - 1) {}
      hide Walk;
      assert Walk(commits, limit, k, 0) == k by { WalkStarts(commits, limit, k); }
    }
  }

  lemma WalkStarts(commits: seq<Commit>, limit: nat, k: nat)
    requires limit > 0 && k <= |commits|
    ensures Walk(commits, limit, k, 0) == k
  {
  }

  lemma NextStartIs(commits: seq<Commit>, limit: nat, k: nat)
    requires limit > 0 && k < |commits|
    ensures NextStart(commits, limit, k) == Start(commits, Some(commits[PageEnd(commits, limit, k)].sha))
  {
  }

  /** The starts of the first `n + 1` pages. */
  function Starts(commits: seq<Commit>, limit: nat, n: nat): set<nat>
    requires limit > 0
  {
    set i | 0 <= i <= n :: Walk(commits, limit, 0, i)
  }

  /** A page starts where an earlier one did. */
  ghost predicate Recurs(commits: seq<Commit>, limit: nat)
    requires limit > 0
  {
    exists i, j | 0 <= i < j <= |commits| ::
      Walk(commits, limit, 0, i) == Walk(commits, limit, 0, j) < |commits|
  }

  /** As long as no start recurs there are as many starts as pages. */
  lemma {:induction false} StartsAreMany(commits: seq<Commit>, limit: nat, n: nat)
    requires limit > 0
    requires forall i, j | 0 <= i < j <= n :: Walk(commits, limit, 0, i) != Walk(commits, limit, 0, j)
    ensures |Starts(commits, limit, n)| == n + 1
  {
    hide Walk;
    if n == 0 {
      assert Starts(commits, limit, 0) == {Walk(commits, limit, 0, 0)};
    } else {
      StartsAreMany(commits, limit, n - 1);
      assert Starts(commits, limit, n) == Starts(commits, limit, n - 1) + {Walk(commits, limit, 0, n)};
      assert Walk(commits, limit, 0, n) !in Starts(commits, limit, n - 1);
    }
  }

  lemma {:induction false} BelowIsSmall(s: set<nat>, n: nat)
    requires forall x | x in s :: x < n
    ensures |s| <= n
  {
    if n > 0 {
      BelowIsSmall(s - {n - 1}, n - 1);
      assert s <= (s - {n - 1}) + {n - 1};
      SubsetIsSmaller(s, (s - {n - 1}) + {n - 1});
    } else {
      assert s == {};
    }
  }

  lemma {:induction false} SubsetIsSmaller(a: set<nat>, b: set<nat>)
    requires a <= b
    ensures |a| <= |b|
  {
    if a != {} {
      var x :| x in a;
      SubsetIsSmaller(a - {x}, b - {x});
    }
  }

  /** A walk that is not at the end after as many steps as there are commits has been somewhere twice. */
  lemma LongWalkRecurs(commits: seq<Commit>, limit: nat)
    requires limit > 0 && Walk(commits, limit, 0, |commits|) < |commits|
    ensures Recurs(commits, limit)
  {
    var n := |commits|;
    forall i | 0 <= i <= n ensures Walk(commits, limit, 0, i) < n {
      if Walk(commits, limit, 0, i) == n { EndIsKept(commits, limit, 0, i, n); }
    }
    hide Walk;
    if !Recurs(commits, limit) {
      StartsAreMany(commits, limit, n);
      BelowIsSmall(Starts(commits, limit, n), n);
    }
  }

  /** The end, once reached, is not left. */
  lemma EndIsKept(commits: seq<Commit>, limit: nat, k: nat, m: nat, n: nat)
    requires limit > 0 && k <= |commits| && m <= n && Walk(commits, limit, k, m) == |commits|
    ensures Walk(commits, limit, k, n) == |commits|
  {
    WalkSplits(commits, limit, k, m, n - m);
  }

  /** A walk that comes back to a place before the end goes round for ever. */
  lemma {:induction false} CycleNeverEnds(commits: seq<Commit>, limit: nat, k: nat, period: nat, n: nat)
    requires limit > 0 && k < |commits| && period > 0 && Walk(commits, limit, k, period) == k
    ensures Walk(commits, limit, k, n) < |commits|
    decreases n
  {
    if n >= period {
      WalkSplits(commits, limit, k, period, n - period);
      CycleNeverEnds(commits, limit, k, period, n - period);
    } else if Walk(commits, limit, k, n) == |commits| {
      EndIsKept(commits, limit, k, n, period);
    }
  }

  lemma RecurringNeverEnds(commits: seq<Commit>, limit: nat, n: nat)
    requires limit > 0 && Recurs(commits, limit)
    ensures Walk(commits, limit, 0, n) < |commits|
  {
    hide Walk;
    var i, j :| 0 <= i < j <= |commits| && Walk(commits, limit, 0, i) == Walk(commits, limit, 0, j) < |commits|;
    WalkSplits(commits, limit, 0, i, j - i);
    if n >= i {
      WalkSplits(commits, limit, 0, i, n - i);
      CycleNeverEnds(commits, limit, Walk(commits, limit, 0, i), j - i, n - i);
    } else if Walk(commits, limit, 0, n) == |commits| {
      EndIsKept(commits, limit, 0, n, i);
    }
  }

  lemma PageExistsIff(commits: seq<Commit>, limit: nat, n: nat, i: nat)
    requires limit > 0
    ensures i < |Pages(commits, limit, None, n)| <==> i < n && Walk(commits, limit, 0, i) < |commits|
  {
    hide Pages, Walk;
    PagesWalk(commits, limit, None, n);
    assert Start(commits, None) == 0;
    var m := Walk(commits, limit, 0, i);
  }

  /**
   Paging ends, with an empty page after at most as many as there are commits,
   if and only if no page starts where an earlier one did. Otherwise there is
   always a next page.
   */
  lemma PagingEndsIff(commits: seq<Commit>, limit: nat)
    requires limit > 0
    ensures Recurs(commits, limit) <==> Walk(commits, limit, 0, |commits|) < |commits|
    ensures !Recurs(commits, limit) ==> forall n: nat :: |Pages(commits, limit, None, n)| <= |commits|
    ensures Recurs(commits, limit) ==> forall n: nat :: |Pages(commits, limit, None, n)| == n
  {
    hide Walk, Recurs, Pages;
    if Recurs(commits, limit) {
      forall n: nat ensures |Pages(commits, limit, None, n)| == n {
        PageExistsIff(commits, limit, n, n);
        if n > 0 {
          PageExistsIff(commits, limit, n, n - 1);
          RecurringNeverEnds(commits, limit, n - 1);
        }
      }
      RecurringNeverEnds(commits, limit, |commits|);
    } else {
      if Walk(commits, limit, 0, |commits|) < |commits| { LongWalkRecurs(commits, limit); }
      forall n: nat ensures |Pages(commits, limit, None, n)| <= |commits| {
        PageExistsIff(commits, limit, n, |commits|);
      }
    }
  }

  /** Two commits, the sha of the second beginning that of the first, in pages of one: the second comes for ever. */
  lemma {:induction false} PrefixShaRepeats(long: Commit, short: Commit, cursor: string, n: nat)
    requires short.sha <= long.sha && (cursor == long.sha || cursor == short.sha)
    ensures |Pages([long, short], 1, Some(cursor), n)| == n
    ensures forall i | 0 <= i < n :: Pages([long, short], 1, Some(cursor), n)[i] == [short]
    decreases n
  {
    assert Position([long, short], cursor) == Some(0);
    assert Page([long, short], 1, Some(cursor)) == [short];
    if n > 0 { PrefixShaRepeats(long, short, short.sha, n - 1); }
  }

  /** Five commits in pages of three: the third sha begins the first, two commits come again, and paging ends. */
  lemma PrefixShaMayEnd(a: Commit, b: Commit, c: Commit, d: Commit, e: Commit)
    requires c.sha <= a.sha
    requires !(d.sha <= a.sha) && !(d.sha <= b.sha) && !(d.sha <= c.sha)
    requires !(e.sha <= a.sha) && !(e.sha <= b.sha) && !(e.sha <= c.sha) && !(e.sha <= d.sha)
    ensures Pages([a, b, c, d, e], 3, None, 4) == [[a, b, c], [b, c, d], [e]]
    ensures !Recurs([a, b, c, d, e], 3) && !CursorsAreClear([a, b, c, d, e], 3, 0)
  {
    hide CursorsAreClear, NextStart, Start, Page, Pages, Recurs, Walk;
    var all := [a, b, c, d, e];
    NextStartsOfFive(all);
    WalkOfFive(all);
    PagesOfFive(all);
    PagingEndsIff(all, 3);
    NotFirstIsUnclear(all);
    assert all[0..3] == [a, b, c] && all[1..4] == [b, c, d] && all[4..5] == [e];
  }

  lemma NextStartsOfFive(all: seq<Commit>)
    requires |all| == 5 && all[2].sha <= all[0].sha
    requires forall i | 0 <= i < 3 :: !(all[3].sha <= all[i].sha)
    requires forall i | 0 <= i < 4 :: !(all[4].sha <= all[i].sha)
    ensures NextStart(all, 3, 0) == 1 && NextStart(all, 3, 1) == 4 && NextStart(all, 3, 4) == 5
  {
    hide Position;
    PositionIs(all, all[2].sha, 0);
    PositionIs(all, all[3].sha, 3);
    PositionIs(all, all[4].sha, 4);
  }

  lemma PagesOfFive(all: seq<Commit>)
    requires |all| == 5
    requires Walk(all, 3, 0, 0) == 0 && Walk(all, 3, 0, 1) == 1 && Walk(all, 3, 0, 2) == 4 && Walk(all, 3, 0, 3) == 5
    ensures Pages(all, 3, None, 4) == [all[0..3], all[1..4], all[4..5]]
  {
    hide Pages, Walk;
    PageExistsIff(all, 3, 4, 2);
    PageExistsIff(all, 3, 4, 3);
    PagesWalk(all, 3, None, 4);
    assert Start(all, None) == 0;
  }

  lemma NotFirstIsUnclear(commits: seq<Commit>)
    requires |commits| == 5 && commits[2].sha <= commits[0].sha
    ensures !CursorsAreClear(commits, 3, 0)
  {
    assert PageEnd(commits, 3, 0) == 2;
  }

  lemma WalkOfFive(commits: seq<Commit>)
    requires |commits| == 5
    requires NextStart(commits, 3, 0) == 1 && NextStart(commits, 3, 1) == 4 && NextStart(commits, 3, 4) == 5
    ensures Walk(commits, 3, 0, 0) == 0 && Walk(commits, 3, 0, 1) == 1 && Walk(commits, 3, 0, 2) == 4
    ensures Walk(commits, 3, 0, 3) == Walk(commits, 3, 0, 5) == 5
  {
    hide NextStart;
    assert Walk(commits, 3, 4, 1) == 5 && Walk(commits, 3, 4, 3) == 5;
    assert Walk(commits, 3, 1, 1) == 4 && Walk(commits, 3, 1, 2) == 5 && Walk(commits, 3, 1, 4) == 5;
  }

  lemma {:induction false} PositionIs(commits: seq<Commit>, cursor: string, k: nat)
    requires k < |commits| && cursor <= commits[k].sha && forall i | 0 <= i < k :: !(cursor <= commits[i].sha)
    ensures Position(commits, cursor) == Some(k)
  {
    var r := Position(commits, cursor);
    if k > 0 { PositionIs(commits[1..], cursor, k - 1); }
  }
}

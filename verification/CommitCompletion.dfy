/**
 Which commits complete a task. A commit that marks itself as unfinished
 completes nothing, and until a newer commit completes the task it keeps the
 task on the list of unfinished ones.
 */
module CommitCompletion {
  import opened Wrappers
  import opened Text
  import opened CommitMessage

  // ---- checkpoint prefixes ---------------------------------------------------

  /** Case-insensitive match of one letter, with the two letters outside ASCII that fold to `k` and `s`. */
  predicate FoldsTo(c: char, lower: char)
  {
    LowerChar(c) == lower || (lower == 'k' && c == '\U{212A}') || (lower == 's' && c == '\U{017F}')
  }

  predicate StartsFolded(s: string, word: string)
  {
    |word| <= |s| && forall i | 0 <= i < |word| :: FoldsTo(s[i], word[i])
  }

  function NotParen(): char -> bool { c => c != ')' }

  /** `(?:\([^)]*\))?` */
  function AfterScope(s: string): string
  {
    if s != "" && s[0] == '(' && Span(s, NotParen()) < |s| then s[Span(s, NotParen()) + 1..] else s
  }

  /** `\]?`, the scope, then white space, `:`, `!` or the end. */
  predicate EndsMarker(s: string)
  {
    var rest := AfterScope(if s != "" && s[0] == ']' then s[1..] else s);
    rest == "" || IsWhitespace(rest[0]) || rest[0] in ":!"
  }

  predicate MarkerWith(s: string, word: string) { StartsFolded(s, word) && EndsMarker(s[|word|..]) }

  /** The expression that recognizes unfinished work at the start of a subject or title. */
  predicate IsCheckpoint(s: string)
  {
    var t := if s != "" && s[0] == '[' then s[1..] else s;
    || MarkerWith(t, "wip") || MarkerWith(t, "draft") || MarkerWith(t, "partial") || MarkerWith(t, "checkpoint")
    || StartsFolded(s, "fixup!") || StartsFolded(s, "squash!")
    || (StartsFolded(s, "revert") && (|s| == 6 || IsWhitespace(s[6]) || s[6] == ':'))
  }

  // ---- classification --------------------------------------------------------

  predicate TagIs(tags: map<string, string>, key: string, p: string -> bool) { key in tags && p(tags[key]) }

  predicate IsDraftPhase(phase: string) { Lower(phase) in {"wip", "draft", "partial", "checkpoint"} }

  predicate IsUnfinished(parsed: ParsedCommit)
  {
    || IsCheckpoint(parsed.subject)
    || (parsed.message.Some? && parsed.message.value.title.Some? && IsCheckpoint(parsed.message.value.title.value))
    || TagIs(parsed.tags, "phase", IsDraftPhase)
    || TagIs(parsed.tags, "wip", v => Lower(v) == "true")
    || TagIs(parsed.tags, "validation", v => v != "true")
    || TagIs(parsed.tags, "result",
             v => v !in {"success_with_changes", "success_without_changes", "already_satisfied"})
  }

  /** A trailer, a subject in the convention, or a legacy merge subject: more than a mention. */
  predicate IsEvidence(parsed: ParsedCommit)
  {
    TAG_TASK in parsed.tags || parsed.message.Some? || "macc: merge task " <= Lower(parsed.subject)
  }

  /** `task_id`: the task a commit completes. */
  function CompletedTask(parsed: ParsedCommit): Option<string>
  {
    if IsUnfinished(parsed) || !IsEvidence(parsed) then None else parsed.taskId
  }

  /** What a commit says of the task it names: complete, unfinished, or nothing. */
  function Verdict(parsed: ParsedCommit): Option<bool>
  {
    var completed := CompletedTask(parsed).Some?;
    if (completed || IsUnfinished(parsed)) && parsed.taskId.Some? then Some(completed) else None
  }

  /** The newest verdict on a task; messages are newest first. */
  function Latest(messages: seq<string>, legacy: string -> Option<string>, id: string): Option<bool>
  {
    if messages == [] then None else
      var parsed := Parsed(messages[0], legacy);
      if Verdict(parsed).Some? && parsed.taskId == Some(id) then Verdict(parsed) else Latest(messages[1..], legacy, id)
  }

  /** `latest.entry(id).or_insert(completed)` over the messages, then the ids left incomplete, in order. */
  method UnfinishedTaskIds(messages: seq<string>, legacy: string -> Option<string>) returns (ids: seq<string>)
    ensures StrictlySorted(ids)
    ensures forall id :: id in ids <==> Latest(messages, legacy, id) == Some(false)
  {
    hide Parsed, CompletedTask, IsUnfinished;
    var latest: map<string, bool> := map[];
    for n := 0 to |messages|
      invariant forall id :: (id in latest ==> Latest(messages, legacy, id) == Some(latest[id]))
                          && (id !in latest ==> Latest(messages, legacy, id) == Latest(messages[n..], legacy, id))
    {
      var parsed := Parse(messages[n], legacy);
      var completed := CompletedTask(parsed).Some?;
      if completed || IsUnfinished(parsed) {
        if parsed.taskId.Some? && parsed.taskId.value !in latest {
          latest := latest[parsed.taskId.value := completed];
        }
      }
      assert messages[n..][0] == messages[n] && messages[n..][1..] == messages[n + 1..];
    }
    assert messages[|messages|..] == [];
    ids := Ordered(set id | id in latest && !latest[id]);
  }

  /**
   Newer history wins: where the newer messages have a verdict it stands, and
   elsewhere the older messages decide.
   */
  lemma {:induction false} NewerHistoryOverlays(newer: seq<string>, older: seq<string>,
      legacy: string -> Option<string>, id: string)
    ensures Latest(newer + older, legacy, id)
         == if Latest(newer, legacy, id).Some? then Latest(newer, legacy, id) else Latest(older, legacy, id)
  {
    if newer == [] {
      assert newer + older == older;
    } else {
      hide Parsed, Verdict;
      assert (newer + older)[1..] == newer[1..] + older;
      NewerHistoryOverlays(newer[1..], older, legacy, id);
    }
  }

  // ---- the coordinator's own commits -----------------------------------------

  lemma NotStarted(s: string, word: string, i: nat)
    requires i < |word| && i < |s| && !FoldsTo(s[i], word[i])
    ensures !StartsFolded(s, word)
  {
  }

  lemma TypeLetters(t: CommitType, rest: string)
    ensures var s := TypeName(t) + ": " + rest;
            && |s| > 3 && s[0] in "frdtcm" && s[1] in "eioha" && s[2] in "axfcso" && s[3] in "t:asrc"
  {
    match t
    case Feat => case Fix => case Refactor => case Docs => case Test => case Chore => case Macc =>
  }

  /** No commit type reads as the start of a checkpoint marker: one letter tells each marker apart. */
  lemma TypedSubjectIsNoCheckpoint(t: CommitType, rest: string)
    ensures !IsCheckpoint(TypeName(t) + ": " + rest)
  {
    var s := TypeName(t) + ": " + rest;
    TypeLetters(t, rest);
    hide TypeName;
    NotStarted(s, "wip", 0);
    NotStarted(s, "draft", 1);
    NotStarted(s, "partial", 0);
    NotStarted(s, "checkpoint", 2);
    NotStarted(s, "fixup!", 3);
    NotStarted(s, "squash!", 0);
    NotStarted(s, "revert", 2);
    hide StartsFolded, EndsMarker;
  }

  /** The trailer map of a task commit: the task, and the phase if there is one. */
  lemma TaskCommitTags(taskId: string, phase: Option<string>)
    ensures var tags := [MaccTag(TAG_TASK, taskId)] + (if phase.Some? then [MaccTag(TAG_PHASE, phase.value)] else []);
            TagMap(tags) == if phase.Some? then map[TAG_TASK := taskId, TAG_PHASE := phase.value]
                else map[TAG_TASK := taskId]
  {
    var one := [MaccTag(TAG_TASK, taskId)];
    assert one[..0] == [];
    assert TagMap(one) == map[TAG_TASK := taskId];
    if phase.Some? {
      var two := one + [MaccTag(TAG_PHASE, phase.value)];
      assert two[..1] == one;
    } else {
      assert one + [] == one;
    }
  }

  lemma ParsedParts(m: CommitMessage, legacy: string -> Option<string>)
    requires LegalMessage(m)
    ensures var p := Parsed(Format(m), legacy);
            && p.message.Some? && p.message.value.title == PrintedTitle(m.title)
            && p.tags == TagMap(m.tags) && p.subject == FormatSubject(m)
            && p.taskId == Some(if TAG_TASK in TagMap(m.tags) then TagMap(m.tags)[TAG_TASK] else m.taskId)
  {
    hide Parsed, Format, FormatSubject, LegalMessage, TagMap;
    FormatThenParse(m, legacy);
  }

  /**
   A printed task commit is read as completing its own task exactly when neither
   its title nor its phase marks it as unfinished.
   */
  lemma TaskCommitCompletesIff(t: CommitType, taskId: string, title: Option<string>, phase: Option<string>,
                               legacy: string -> Option<string>)
    requires taskId != "" && All(taskId, IsIdChar)
    requires title.Some? && title.value != "" ==> LegalTitle(title.value)
    requires phase.Some? ==> LegalTag(MaccTag(TAG_PHASE, phase.value))
    ensures var parsed := Parsed(Format(TaskCommit(t, taskId, title, phase)), legacy);
            var marked := (PrintedTitle(title).Some? && IsCheckpoint(title.value))
                || (phase.Some? && IsDraftPhase(phase.value));
            && CompletedTask(parsed) == (if marked then None else Some(taskId))
            && Verdict(parsed) == Some(!marked)
  {
    var m := TaskCommit(t, taskId, title, phase);
    FactoriesAreLegal(t, taskId, title, phase);
    TaskCommitTags(taskId, phase);
    SubjectIsNoCheckpoint(m);
    hide Parsed, Format, FormatSubject, IsCheckpoint, IsDraftPhase, LegalMessage, LegalTitle, LegalTag, TagMap, Lower,
         All, CompletedTask, Verdict, WithTaskTag;
    ParsedParts(m, legacy);
    VerdictFromParts(Parsed(Format(m), legacy), taskId, PrintedTitle(title), phase);
  }

  lemma VerdictFromParts(parsed: ParsedCommit, taskId: string, title: Option<string>, phase: Option<string>)
    requires !IsCheckpoint(parsed.subject) && parsed.message.Some? && parsed.message.value.title == title
    requires parsed.taskId == Some(taskId)
    requires parsed.tags == if phase.Some? then map[TAG_TASK := taskId, TAG_PHASE := phase.value]
        else map[TAG_TASK := taskId]
    ensures var marked := (title.Some? && IsCheckpoint(title.value)) || (phase.Some? && IsDraftPhase(phase.value));
            && CompletedTask(parsed) == (if marked then None else Some(taskId))
            && Verdict(parsed) == Some(!marked)
  {
    hide IsCheckpoint, IsDraftPhase, Lower;
    KeysDiffer();
    assert TagIs(parsed.tags, "phase", IsDraftPhase) <==> phase.Some? && IsDraftPhase(phase.value);
  }

  lemma KeysDiffer()
    ensures |{"task", "phase", "wip", "validation", "result"}| == 5
    ensures "wip" !in {TAG_TASK, TAG_PHASE} && "validation" !in {TAG_TASK, TAG_PHASE}
        && "result" !in {TAG_TASK, TAG_PHASE}
    ensures TAG_TASK != TAG_PHASE
  {
  }

  lemma SubjectIsNoCheckpoint(m: CommitMessage)
    ensures !IsCheckpoint(FormatSubject(m))
  {
    var tail := if m.title.Some? && m.title.value != "" then m.taskId + " - " + m.title.value else m.taskId;
    assert FormatSubject(m) == TypeName(m.commitType) + ": " + tail;
    TypedSubjectIsNoCheckpoint(m.commitType, tail);
  }

  // ---- any legal commit that the printer prints ---------------------------------

  /**
   The trailers mark the commit as unfinished: the last of a key counts, and its
   value is one of these or none of those.
   */
  ghost predicate MarkedByTrailer(tags: seq<MaccTag>)
  {
    || (exists v :: LastIs(tags, "result", v)
                    && v != "success_with_changes" && v != "success_without_changes" && v != "already_satisfied")
    || (exists v :: LastIs(tags, "validation", v) && v != "true")
    || (exists v :: LastIs(tags, "wip", v) && SameLetters(v, "true"))
    || (exists v :: LastIs(tags, "phase", v)
                    && (|| SameLetters(v, "wip") || SameLetters(v, "draft") || SameLetters(v, "partial")
                        || SameLetters(v, "checkpoint")))
  }

  lemma TagIsOfLast(tags: seq<MaccTag>, key: string, p: string -> bool)
    ensures TagIs(TagMap(tags), key, p) <==> exists v :: LastIs(tags, key, v) && p(v)
  {
    hide LastIs, TagMap;
    if key in TagMap(tags) && p(TagMap(tags)[key]) { TagMapIsLast(tags, key, TagMap(tags)[key]); }
    if v :| LastIs(tags, key, v) && p(v) { TagMapIsLast(tags, key, v); }
  }

  lemma DraftPhases(v: string)
    ensures IsDraftPhase(v) <==>
            || SameLetters(v, "wip") || SameLetters(v, "draft") || SameLetters(v, "partial")
            || SameLetters(v, "checkpoint")
  {
    hide SameLetters, Lower;
    LowerIs(v, "wip");
    LowerIs(v, "draft");
    LowerIs(v, "partial");
    LowerIs(v, "checkpoint");
  }

  lemma ResultMarks(tags: seq<MaccTag>)
    ensures TagIs(TagMap(tags), "result",
        v => v !in {"success_with_changes", "success_without_changes", "already_satisfied"})
       <==> exists v :: LastIs(tags, "result", v)
                        && v != "success_with_changes" && v != "success_without_changes" && v != "already_satisfied"
  {
    hide LastIs, TagMap, TagIs;
    TagIsOfLast(tags, "result", v => v !in {"success_with_changes", "success_without_changes", "already_satisfied"});
  }

  lemma ValidationMarks(tags: seq<MaccTag>)
    ensures TagIs(TagMap(tags), "validation", v => v != "true")
       <==> exists v :: LastIs(tags, "validation", v) && v != "true"
  {
    hide LastIs, TagMap, TagIs;
    TagIsOfLast(tags, "validation", v => v != "true");
  }

  lemma WipMarks(tags: seq<MaccTag>)
    ensures TagIs(TagMap(tags), "wip", v => Lower(v) == "true")
       <==> exists v :: LastIs(tags, "wip", v) && SameLetters(v, "true")
  {
    hide LastIs, TagMap, TagIs, Lower, SameLetters;
    TagIsOfLast(tags, "wip", v => Lower(v) == "true");
    forall v ensures Lower(v) == "true" <==> SameLetters(v, "true") { LowerIs(v, "true"); }
  }

  lemma PhaseMarks(tags: seq<MaccTag>)
    ensures TagIs(TagMap(tags), "phase", IsDraftPhase)
       <==> exists v :: LastIs(tags, "phase", v)
                        && (|| SameLetters(v, "wip") || SameLetters(v, "draft") || SameLetters(v, "partial")
                            || SameLetters(v, "checkpoint"))
  {
    hide LastIs, TagMap, TagIs, IsDraftPhase, SameLetters;
    TagIsOfLast(tags, "phase", IsDraftPhase);
    forall v ensures IsDraftPhase(v) <==> SameLetters(v, "wip") || SameLetters(v, "draft") || SameLetters(v, "partial")
                                          || SameLetters(v, "checkpoint")
    {
      DraftPhases(v);
    }
  }

  lemma UnfinishedByParts(parsed: ParsedCommit, tags: seq<MaccTag>, title: Option<string>)
    requires !IsCheckpoint(parsed.subject) && parsed.tags == TagMap(tags)
    requires parsed.message.Some? && parsed.message.value.title == title
    ensures IsUnfinished(parsed) <==> (title.Some? && IsCheckpoint(title.value)) || MarkedByTrailer(tags)
  {
    ResultMarks(tags);
    ValidationMarks(tags);
    WipMarks(tags);
    PhaseMarks(tags);
    hide IsCheckpoint, TagMap, LastIs, SameLetters, Lower, IsDraftPhase, TagIs;
  }

  lemma VerdictOfMessage(parsed: ParsedCommit)
    requires parsed.message.Some? && parsed.taskId.Some?
    ensures Verdict(parsed) == Some(!IsUnfinished(parsed))
    ensures CompletedTask(parsed) == if IsUnfinished(parsed) then None else parsed.taskId
  {
    hide IsUnfinished, Lower;
  }

  /**
   What a printed commit says of its task, whatever legal trailers it has: it is
   unfinished exactly if its title is a checkpoint or a trailer marks it, and
   completes the task otherwise. The task is that of its last task trailer, or of
   its subject if there is none.
   */
  lemma PrintedVerdict(m: CommitMessage, legacy: string -> Option<string>, id: string)
    requires LegalMessage(m) && (LastIs(m.tags, "task", id) || (id == m.taskId && !HasKey(m.tags, "task")))
    ensures var marked := (m.title.Some? && m.title.value != "" && IsCheckpoint(m.title.value))
        || MarkedByTrailer(m.tags);
            && Latest([Format(m)], legacy, id) == Some(!marked)
            && (forall other | other != id :: Latest([Format(m)], legacy, other) == None)
            && CompletedTask(Parsed(Format(m), legacy)) == (if marked then None else Some(id))
  {
    SubjectIsNoCheckpoint(m);
    TagMapIsLast(m.tags, "task", id);
    NoLast(m.tags, "task");
    hide Parsed, Format, FormatSubject, IsCheckpoint, LegalMessage, TagMap, CompletedTask, Verdict, WithTaskTag,
         MarkedByTrailer, IsUnfinished;
    ParsedParts(m, legacy);
    var parsed := Parsed(Format(m), legacy);
    UnfinishedByParts(parsed, m.tags, PrintedTitle(m.title));
    VerdictOfMessage(parsed);
    assert [Format(m)][0] == Format(m);
  }

  // ---- the checkpoint expression ------------------------------------------------

  /** Case folding of a small letter: its two cases, and the Kelvin sign and the long s. */
  lemma FoldsToLetter(c: char, letter: char)
    requires 'a' <= letter <= 'z'
    ensures FoldsTo(c, letter) <==>
            || c as int == letter as int || c as int == letter as int - 32
            || (letter == 'k' && c as int == 0x212A) || (letter == 's' && c as int == 0x017F)
  {
  }

  /**
   A way to read a marker: a bracket or none, a word, a bracket or none, a scope
   in parentheses or none, and what follows.
   */
  datatype MarkerReading = MarkerReading(open_: string, word: string, close: string, scope: string, after: string)
  {
    function Text(): string { open_ + (word + (close + (scope + after))) }

    predicate Legal()
    {
      && open_ in {"", "["} && close in {"", "]"} && (IsScope(scope) || scope == "")
      && (Folded(word, "wip") || Folded(word, "draft") || Folded(word, "partial") || Folded(word, "checkpoint"))
      && (after == "" || IsWhitespace(after[0]) || after[0] == ':' || after[0] == '!')
    }
  }

  predicate Folded(s: string, word: string) { |s| == |word| && StartsFolded(s, word) }

  predicate IsScope(s: string) { |s| >= 2 && s[0] == '(' && s[|s| - 1] == ')' && ')' !in s[..|s| - 1] }

  /** One of the words that need no end: `fixup!`, `squash!`, or `revert` before white space, a colon or nothing. */
  predicate AutosquashOrRevert(head: string, after: string)
  {
    || Folded(head, "fixup!") || Folded(head, "squash!")
    || (Folded(head, "revert") && (after == "" || IsWhitespace(after[0]) || after[0] == ':'))
  }

  lemma ScopeSplits(s: string) returns (scope: string)
    ensures s == scope + AfterScope(s) && (scope == "" || IsScope(scope))
  {
    var n := Span(s, NotParen());
    scope := if s != "" && s[0] == '(' && n < |s| then s[..n + 1] else "";
  }

  lemma ScopeIsTaken(scope: string, after: string)
    requires IsScope(scope) || (scope == "" && (after == "" || after[0] != '('))
    ensures AfterScope(scope + after) == after
  {
    var s := scope + after;
    if scope != "" {
      var inner := scope[..|scope| - 1];
      assert s == inner + (")" + after);
      SpanIs(inner, ")" + after, NotParen());
    } else {
      assert s == after;
    }
  }

  /** A marker with the word, read from the text after the bracket. */
  lemma MarkerReads(t: string, word: string) returns (close: string, scope: string, after: string)
    requires MarkerWith(t, word)
    ensures close in {"", "]"} && (scope == "" || IsScope(scope)) && t == t[..|word|] + (close + (scope + after))
    ensures Folded(t[..|word|], word) && (after == "" || IsWhitespace(after[0]) || after[0] == ':' || after[0] == '!')
  {
    hide IsWhitespace, FoldsTo, IsScope, AfterScope;
    var rest := t[|word|..];
    close := if rest != "" && rest[0] == ']' then "]" else "";
    var u := rest[|close|..];
    scope := ScopeSplits(u);
    after := AfterScope(u);
    JoinedMarker(t, word, close, scope, after);
  }

  lemma JoinedMarker(t: string, word: string, close: string, scope: string, after: string)
    requires |word| <= |t| && close <= t[|word|..] && t[|word|..][|close|..] == scope + after
    ensures t == t[..|word|] + (close + (scope + after))
  {
    assert t[|word|..] == close + t[|word|..][|close|..];
  }

  lemma ReadingIsMarker(word: string, w: string, close: string, scope: string, after: string)
    requires Folded(word, w) && close in {"", "]"} && (scope == "" || IsScope(scope))
    requires after == "" || IsWhitespace(after[0]) || after[0] == ':' || after[0] == '!'
    ensures MarkerWith(word + (close + (scope + after)), w)
  {
    var rest := close + (scope + after);
    var t := word + rest;
    assert t[|w|..] == rest && forall i | 0 <= i < |w| :: t[i] == word[i];
    ScopeIsTaken(scope, after);
    assert rest[|close|..] == scope + after;
    assert close == "" ==> rest == "" || rest[0] != ']';
    hide AfterScope, FoldsTo;
  }

  /** The four marker words, as the matcher tries them. */
  predicate AnyMarker(t: string)
  {
    MarkerWith(t, "wip") || MarkerWith(t, "draft") || MarkerWith(t, "partial") || MarkerWith(t, "checkpoint")
  }

  lemma MarkerIff(s: string)
    ensures AnyMarker(if s != "" && s[0] == '[' then s[1..] else s)
       <==> exists r: MarkerReading :: r.Legal() && r.Text() == s
  {
    var open_ := if s != "" && s[0] == '[' then "[" else "";
    var t := s[|open_|..];
    hide MarkerWith, Folded, IsScope, IsWhitespace;
    if AnyMarker(t) {
      var word := if MarkerWith(t, "wip") then "wip" else if MarkerWith(t, "draft") then "draft"
                  else if MarkerWith(t, "partial") then "partial" else "checkpoint";
      var close, scope, after := MarkerReads(t, word);
      var r := MarkerReading(open_, t[..|word|], close, scope, after);
      assert r.Legal() && r.Text() == s;
    }
    if r: MarkerReading :| r.Legal() && r.Text() == s {
      OpensOnce(r);
      LegalIsMarker(r);
    }
  }

  lemma OpensOnce(r: MarkerReading)
    requires r.Legal()
    ensures var s := r.Text();
            (if s != "" && s[0] == '[' then s[1..] else s) == r.word + (r.close + (r.scope + r.after))
  {
    hide IsScope, IsWhitespace, Folded;
    if Folded(r.word, "wip") {
      NoBracket(r.word, "wip");
    } else if Folded(r.word, "draft") {
      NoBracket(r.word, "draft");
    } else if Folded(r.word, "partial") {
      NoBracket(r.word, "partial");
    } else {
      NoBracket(r.word, "checkpoint");
    }
    OpenedText(r.open_, r.word + (r.close + (r.scope + r.after)));
  }

  lemma NoBracket(s: string, word: string)
    requires Folded(s, word) && word != "" && 'a' <= word[0] <= 'z'
    ensures s != "" && s[0] != '['
  {
  }

  lemma OpenedText(open_: string, t: string)
    requires open_ in {"", "["} && t != "" && t[0] != '['
    ensures var s := open_ + t; (if s != "" && s[0] == '[' then s[1..] else s) == t
  {
  }

  lemma LegalIsMarker(r: MarkerReading)
    requires r.Legal()
    ensures AnyMarker(r.word + (r.close + (r.scope + r.after)))
  {
    hide MarkerWith, Folded, IsScope, IsWhitespace;
    if Folded(r.word, "wip") {
      ReadingIsMarker(r.word, "wip", r.close, r.scope, r.after);
    } else if Folded(r.word, "draft") {
      ReadingIsMarker(r.word, "draft", r.close, r.scope, r.after);
    } else if Folded(r.word, "partial") {
      ReadingIsMarker(r.word, "partial", r.close, r.scope, r.after);
    } else {
      ReadingIsMarker(r.word, "checkpoint", r.close, r.scope, r.after);
    }
  }

  lemma StartsWith(s: string, word: string)
    ensures StartsFolded(s, word) <==> |word| <= |s| && Folded(s[..|word|], word)
    ensures |word| <= |s| ==> s == s[..|word|] + s[|word|..]
  {
  }

  lemma HeadIff(s: string)
    ensures || StartsFolded(s, "fixup!") || StartsFolded(s, "squash!")
            || (StartsFolded(s, "revert") && (|s| == 6 || IsWhitespace(s[6]) || s[6] == ':'))
       <==> exists head, after :: s == head + after && AutosquashOrRevert(head, after)
  {
    hide FoldsTo, IsWhitespace;
    StartsWith(s, "fixup!");
    StartsWith(s, "squash!");
    StartsWith(s, "revert");
    if StartsFolded(s, "fixup!") { assert AutosquashOrRevert(s[..6], s[6..]); }
    if StartsFolded(s, "squash!") { assert AutosquashOrRevert(s[..7], s[7..]); }
    if StartsFolded(s, "revert") && (|s| == 6 || IsWhitespace(s[6]) || s[6] == ':') {
      assert AutosquashOrRevert(s[..6], s[6..]);
    }
  }

  /** The matcher is the expression: a text is a checkpoint exactly if there is a way to read it as one. */
  lemma CheckpointIffReads(s: string)
    ensures IsCheckpoint(s) <==>
            || (exists r: MarkerReading :: r.Legal() && r.Text() == s)
            || (exists head, after :: s == head + after && AutosquashOrRevert(head, after))
  {
    MarkerIff(s);
    HeadIff(s);
    hide MarkerWith, StartsFolded, IsWhitespace, AutosquashOrRevert;
  }

  // ---- subjects that mark a commit ------------------------------------------------

  lemma {:induction false} TrimEndKeeps(s: string, n: nat)
    requires 0 < n <= |s| && !IsWhitespace(s[n - 1])
    ensures |TrimEnd(s)| >= n
  {
    hide IsWhitespace;
    if |s| > n && IsWhitespace(s[|s| - 1]) { TrimEndKeeps(s[..|s| - 1], n); }
  }

  /** The subject of a text begins as the text does, up to the last of its characters that is not white. */
  lemma SubjectBegins(head: string, rest: string)
    requires head != "" && '\n' !in head && !IsWhitespace(head[0]) && !IsWhitespace(head[|head| - 1])
    ensures var s := SubjectOf(head + rest);
            head <= s && (|s| > |head| ==> rest != "" && s[|head|] == rest[0])
  {
    var raw := head + rest;
    hide IsWhitespace;
    SpanAtLeast(head, rest, NotNewline());
    var line := raw[..Span(raw, NotNewline())];
    assert head <= line;
    TrimEndKeeps(line, |head|);
  }

  lemma MarkerWordIsCheckpoint(s: string, word: string)
    requires word in {"wip", "draft", "partial", "checkpoint"}
    requires |s| > |word| && StartsFolded(s, word) && s[|word|] == ':'
    ensures IsCheckpoint(s)
  {
    assert s[0] != '[' by { assert FoldsTo(s[0], word[0]); }
    assert EndsMarker(s[|word|..]);
    hide StartsFolded, EndsMarker;
  }

  lemma BracketIsCheckpoint(s: string)
    requires "[WIP]" <= s && (|s| == 5 || s[5] == ' ')
    ensures IsCheckpoint(s)
  {
    var t := s[1..];
    assert StartsFolded(t, "wip") && t[3..] == "]" + s[5..];
    assert EndsMarker(t[3..]) by { assert t[3..][1..] == s[5..]; }
    hide StartsFolded, EndsMarker;
  }

  lemma AutosquashIsCheckpoint(s: string)
    requires "fixup!" <= s || "squash!" <= s || ("revert" <= s && (|s| == 6 || s[6] == ' '))
    ensures IsCheckpoint(s)
  {
    hide MarkerWith;
    if "fixup!" <= s { assert StartsFolded(s, "fixup!"); }
    if "squash!" <= s { assert StartsFolded(s, "squash!"); }
    if "revert" <= s { assert StartsFolded(s, "revert"); }
  }

  /** A commit whose text begins with one of these is unfinished, and completes nothing, whatever comes after. */
  lemma MarkedTextIsUnfinished(head: string, rest: string, legacy: string -> Option<string>)
    requires || head in {"wip:", "draft:", "partial:", "checkpoint:", "fixup!", "squash!"}
             || (head in {"[WIP]", "revert"} && (rest == "" || rest[0] == ' '))
    ensures IsUnfinished(Parsed(head + rest, legacy)) && CompletedTask(Parsed(head + rest, legacy)) == None
  {
    hide SubjectOf, Tags, TagMap, ParsedMessage, IsDraftPhase, Lower, IsWhitespace;
    var s := SubjectOf(head + rest);
    HeadsAreText(head);
    SubjectBegins(head, rest);
    assert Parsed(head + rest, legacy).subject == s;
    MarkedSubject(s, head);
    hide Parsed, IsCheckpoint;
  }

  lemma HeadsAreText(head: string)
    requires head in {"wip:", "draft:", "partial:", "checkpoint:", "fixup!", "squash!", "[WIP]", "revert"}
    ensures head != "" && '\n' !in head && !IsWhitespace(head[0]) && !IsWhitespace(head[|head| - 1])
  {
  }

  lemma NoVerdict(raw: string, legacy: string -> Option<string>)
    ensures Verdict(Parsed(raw, legacy)) == None ==> forall id :: Latest([raw], legacy, id) == None
  {
    hide Parsed, Verdict;
    assert [raw][1..] == [];
  }

  /** Without a task trailer and outside the convention only a merge subject proves a delivery; a mention does not. */
  lemma MentionProvesNothing(raw: string, legacy: string -> Option<string>)
    requires var p := Parsed(raw, legacy);
             !IsUnfinished(p) && p.message.None? && !(exists id :: LastIs(Tags(raw), "task", id))
    ensures var p := Parsed(raw, legacy);
            if |p.subject| >= 17 && SameLetters(p.subject[..17], "macc: merge task ")
            then CompletedTask(p) == legacy(p.subject)
            else CompletedTask(p) == None && forall id :: Latest([raw], legacy, id) == None
  {
    NoVerdict(raw, legacy);
    hide Latest, Tags, TagMap, ParsedMessage, SubjectOf, IsUnfinished, LastIs, SameLetters, Lower;
    var s := SubjectOf(raw);
    NoLast(Tags(raw), "task");
    if |s| >= 17 {
      LowerIs(s[..17], "macc: merge task ");
      LowerOfPrefix(s, 17);
    }
  }

  /** A task trailer does prove it, whatever the subject. */
  lemma TrailerProves(raw: string, legacy: string -> Option<string>, id: string)
    requires !IsUnfinished(Parsed(raw, legacy)) && LastIs(Tags(raw), "task", id)
    ensures CompletedTask(Parsed(raw, legacy)) == Some(id) && Latest([raw], legacy, id) == Some(true)
  {
    hide Tags, TagMap, ParsedMessage, SubjectOf, IsUnfinished, LastIs, Lower;
    TagMapIsLast(Tags(raw), "task", id);
  }

  lemma LowerOfPrefix(s: string, n: nat)
    requires n <= |s|
    ensures Lower(s)[..n] == Lower(s[..n])
  {
    assert forall i | 0 <= i < n :: Lower(s)[i] == LowerChar(s[i]);
  }

  lemma MarkedSubject(s: string, head: string)
    requires head <= s && head in {"wip:", "draft:", "partial:", "checkpoint:", "fixup!", "squash!", "[WIP]", "revert"}
    requires head in {"[WIP]", "revert"} && |s| > |head| ==> s[|head|] == ' '
    ensures IsCheckpoint(s)
  {
    hide IsCheckpoint, EndsMarker;
    match head
    case "wip:" => MarkerWordIsCheckpoint(s, "wip");
    case "draft:" => MarkerWordIsCheckpoint(s, "draft");
    case "partial:" => MarkerWordIsCheckpoint(s, "partial");
    case "checkpoint:" => MarkerWordIsCheckpoint(s, "checkpoint");
    case "[WIP]" => BracketIsCheckpoint(s);
    case _ => AutosquashIsCheckpoint(s);
  }
}

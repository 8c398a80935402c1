/**
 The commit message convention: `<type>: <task_id>[ - <title>]`, a blank line
 and `[macc:<key> <value>]` trailers. The two regular expressions of the parser
 are matchers over the text, and both are shown to be the greedy matches.
 The heuristic that finds a task id in a subject outside the convention is a
 parameter: what is proved holds whatever it answers.
 */
module CommitMessage {
  import opened Wrappers
  import opened Text

  datatype CommitType = Feat | Fix | Refactor | Docs | Test | Chore | Macc

  datatype MaccTag = MaccTag(key: string, value: string)

  datatype CommitMessage = CommitMessage(commitType: CommitType, taskId: string, title: Option<string>,
      tags: seq<MaccTag>)

  datatype ParsedCommit = ParsedCommit(
    message: Option<CommitMessage>, taskId: Option<string>, tags: map<string, string>, subject: string)

  const TAG_TASK := "task"
  const TAG_PHASE := "phase"
  const TAG_MERGE := "merge"
  const TAG_OPEN := "[macc:"

  // ---- printing ------------------------------------------------------------

  function TypeName(t: CommitType): string
  {
    match t
    case Feat => "feat"
    case Fix => "fix"
    case Refactor => "refactor"
    case Docs => "docs"
    case Test => "test"
    case Chore => "chore"
    case Macc => "macc"
  }

  function FormatTag(t: MaccTag): string { TAG_OPEN + t.key + " " + t.value + "]" }

  function FormatSubject(m: CommitMessage): string
  {
    var head := TypeName(m.commitType) + ": " + m.taskId;
    if m.title.Some? && m.title.value != "" then head + " - " + m.title.value else head
  }

  /** The trailers, one on a line. */
  function FormatTags(tags: seq<MaccTag>): string
  {
    if tags == [] then ""
    else if |tags| == 1 then FormatTag(tags[0])
    else FormatTag(tags[0]) + "\n" + FormatTags(tags[1..])
  }

  function Format(m: CommitMessage): string
  {
    if m.tags == [] then FormatSubject(m) else FormatSubject(m) + "\n\n" + FormatTags(m.tags)
  }

  function TaskCommit(t: CommitType, taskId: string, title: Option<string>, phase: Option<string>): CommitMessage
  {
    CommitMessage(t, taskId, title,
                  [MaccTag(TAG_TASK, taskId)] + (if phase.Some? then [MaccTag(TAG_PHASE, phase.value)] else []))
  }

  function MergeCommit(taskId: string): CommitMessage
  {
    CommitMessage(Macc, taskId, Some("merge task " + taskId), [MaccTag(TAG_TASK, taskId), MaccTag(TAG_MERGE, "true")])
  }

  // ---- matching ------------------------------------------------------------

  predicate IsKeyChar(c: char) { 'a' <= c <= 'z' || c == '_' }
  predicate IsIdChar(c: char) { IsAsciiLetter(c) || '0' <= c <= '9' || c == '_' || c == '-' }
  predicate IsValueChar(c: char) { c != ']' }

  /** A way to read a trailer: its key, the white space after it, its value. */
  datatype Reading = Reading(key: string, gap: string, value: string) {
    function Tag(): MaccTag { MaccTag(key, value) }

    function Text(): string { TAG_OPEN + (key + (gap + (value + "]"))) }

    predicate Legal()
    {
      && key != "" && All(key, IsKeyChar) && gap != "" && All(gap, IsWhitespace)
      && value != "" && All(value, IsValueChar)
    }
  }

  /**
   `\[macc:([a-z_]+)\s+([^\]]+)\]` at the start of `s`. The white space is taken
   as long as possible; one character of it is given back when nothing would be
   left for the value.
   */
  function TagPrefix(s: string): Option<Reading>
  {
    if TAG_OPEN <= s then ReadKey(s[6..]) else None
  }

  function ReadKey(s: string): Option<Reading>
  {
    var k := Span(s, IsKeyChar);
    if k == 0 then None else ReadGap(s[..k], s[k..])
  }

  function ReadGap(key: string, s: string): Option<Reading>
  {
    var w := Span(s, IsWhitespace);
    var v := if w < |s| && s[w] == ']' then w - 1 else w;
    if v <= 0 then None else ReadValue(key, s[..v], s[v..])
  }

  function ReadValue(key: string, gap: string, s: string): Option<Reading>
  {
    var c := Span(s, IsValueChar);
    if c == |s| || c == 0 then None else Some(Reading(key, gap, s[..c]))
  }

  /** `captures_iter`: matches from left to right, each after the end of the one before. */
  function Tags(s: string): seq<MaccTag>
    decreases |s|
  {
    if s == "" then [] else
      TagPrefixReads(s);
      var m := TagPrefix(s);
      if m.Some? then [m.value.Tag()] + Tags(s[|m.value.Text()|..]) else Tags(s[1..])
  }

  /** The last tag with a key wins. */
  function TagMap(tags: seq<MaccTag>): map<string, string>
  {
    if tags == [] then map[] else TagMap(tags[..|tags| - 1])[tags[|tags| - 1].key := tags[|tags| - 1].value]
  }

  datatype SubjectMatch = SubjectMatch(typeName: string, taskId: string, title: Option<string>)

  /** `^([a-zA-Z]+):\s+([A-Za-z0-9_-]+)(?:\s+-\s+(.+))?$` */
  function MatchSubject(s: string): Option<SubjectMatch>
  {
    var t := Span(s, IsAsciiLetter);
    if t == 0 || t == |s| || s[t] != ':' then None else MatchId(s[..t], s[t + 1..])
  }

  function MatchId(name: string, s: string): Option<SubjectMatch>
  {
    var a := Span(s, IsWhitespace);
    var b := Span(s[a..], IsIdChar);
    if a == 0 || b == 0 then None else MatchTitle(name, s[a..][..b], s[a..][b..])
  }

  function MatchTitle(name: string, id: string, s: string): Option<SubjectMatch>
  {
    var c := Span(s, IsWhitespace);
    if s == "" then Some(SubjectMatch(name, id, None))
    else if c == 0 || c == |s| || s[c] != '-' then None
    else
      var t := s[c + 1..];
      var v := TitleStart(t);
      if v <= 0 || '\n' in t[v..] then None else Some(SubjectMatch(name, id, Some(t[v..])))
  }

  function ParseType(s: string): Option<CommitType>
  {
    var name := Lower(Trim(s));
    if name == "feat" then Some(Feat)
    else if name == "fix" then Some(Fix)
    else if name == "refactor" then Some(Refactor)
    else if name == "docs" then Some(Docs)
    else if name == "test" then Some(Test)
    else if name == "chore" then Some(Chore)
    else if name == "macc" then Some(Macc)
    else None
  }

  function NotNewline(): char -> bool { c => c != '\n' }

  /** The first line, trimmed. */
  function SubjectOf(raw: string): string { Trim(raw[..Span(raw, NotNewline())]) }

  predicate HasKey(tags: seq<MaccTag>, key: string) { exists i | 0 <= i < |tags| :: tags[i].key == key }

  /** The tags of a parsed message: the task tag comes from the subject when no trailer has it. */
  function WithTaskTag(tags: seq<MaccTag>, taskId: string): seq<MaccTag>
  {
    if HasKey(tags, TAG_TASK) then tags else [MaccTag(TAG_TASK, taskId)] + tags
  }

  function ParsedMessage(subject: string, tags: seq<MaccTag>): Option<CommitMessage>
  {
    var m := MatchSubject(subject);
    if m.None? || ParseType(m.value.typeName).None? then None
    else Some(CommitMessage(ParseType(m.value.typeName).value, m.value.taskId, m.value.title,
                            WithTaskTag(tags, m.value.taskId)))
  }

  function Parsed(raw: string, legacy: string -> Option<string>): ParsedCommit
  {
    var subject, tags := SubjectOf(raw), Tags(raw);
    var message, found := ParsedMessage(subject, tags), TagMap(tags);
    ParsedCommit(
      message,
      if TAG_TASK in found then Some(found[TAG_TASK])
      else if message.Some? then Some(message.value.taskId)
      else legacy(subject),
      found, subject)
  }

  /** `parse`: the tags are collected one by one, into the list and into the map. */
  method Parse(raw: string, legacy: string -> Option<string>) returns (parsed: ParsedCommit)
    ensures parsed == Parsed(raw, legacy)
  {
    hide TagPrefix, ParsedMessage, SubjectOf;
    var subject := SubjectOf(raw);
    var tags: map<string, string>, tagVec: seq<MaccTag> := map[], [];
    var i := 0;
    while i < |raw|
      invariant i <= |raw|
      invariant tagVec + Tags(raw[i..]) == Tags(raw)
      invariant tags == TagMap(tagVec)
    {
      var m := TagPrefix(raw[i..]);
      TagPrefixReads(raw[i..]);
      if m.Some? {
        var tag, length := m.value.Tag(), |m.value.Text()|;
        assert raw[i..][length..] == raw[i + length..];
        assert (tagVec + [tag])[..|tagVec|] == tagVec;
        tags := tags[tag.key := tag.value];
        tagVec := tagVec + [tag];
        i := i + length;
      } else {
        assert raw[i..][1..] == raw[i + 1..];
        i := i + 1;
      }
    }
    assert tagVec == Tags(raw);
    var message := ParsedMessage(subject, tagVec);
    var taskId := if TAG_TASK in tags then Some(tags[TAG_TASK])
                  else if message.Some? then Some(message.value.taskId) else legacy(subject);
    parsed := ParsedCommit(message, taskId, tags, subject);
  }

  // ---- the subject matcher is the regular expression --------------------------

  /** One way to match the optional part of the expression: white space, a dash, white space, the title. */
  datatype TitleReading = TitleReading(before: string, after: string, title: string)
  {
    function Text(): string { before + ("-" + (after + title)) }

    predicate Legal()
    {
      && before != "" && All(before, IsWhitespace) && after != "" && All(after, IsWhitespace)
      && title != "" && '\n' !in title
    }
  }

  /** One way to match the whole expression. */
  datatype SubjectReading = SubjectReading(name: string, gap: string, id: string, rest: Option<TitleReading>)
  {
    function Tail(): string { if rest.Some? then rest.value.Text() else "" }

    function Text(): string { name + (":" + (gap + (id + Tail()))) }

    predicate Legal()
    {
      && name != "" && All(name, IsAsciiLetter) && gap != "" && All(gap, IsWhitespace) && id != "" && All(id, IsIdChar)
      && (rest.Some? ==> rest.value.Legal())
    }

    function Match(): SubjectMatch { SubjectMatch(name, id, if rest.Some? then Some(rest.value.title) else None) }
  }

  /** Where the title begins after the dash: after the white space, which leaves it one character. */
  function TitleStart(t: string): int
  {
    var d := Span(t, IsWhitespace);
    if d == |t| then d - 1 else d
  }

  lemma AfterDash(t: string, v: nat)
    requires v == TitleStart(t) > 0 && '\n' !in t[v..]
    ensures v < |t| && t[..v] + t[v..] == t && All(t[..v], IsWhitespace)
  {
    hide IsWhitespace;
  }

  lemma MatchTitleUnfolds(name: string, id: string, s: string) returns (c: nat, v: nat)
    requires s != "" && MatchTitle(name, id, s).Some?
    ensures 0 < c < |s| && All(s[..c], IsWhitespace) && s[c] == '-'
    ensures 0 < v == TitleStart(s[c + 1..]) <= |s[c + 1..]| && '\n' !in s[c + 1..][v..]
    ensures MatchTitle(name, id, s) == Some(SubjectMatch(name, id, Some(s[c + 1..][v..])))
  {
    hide IsWhitespace;
    c := Span(s, IsWhitespace);
    v := TitleStart(s[c + 1..]);
  }

  lemma MatchTitleReads(name: string, id: string, s: string) returns (rest: Option<TitleReading>)
    requires MatchTitle(name, id, s).Some?
    ensures rest.Some? ==> rest.value.Legal() && rest.value.Text() == s
    ensures rest.None? ==> s == ""
    ensures MatchTitle(name, id, s).value == SubjectMatch(name, id, if rest.Some? then Some(rest.value.title) else None)
  {
    if s == "" { return None; }
    hide IsWhitespace, MatchTitle, TitleStart, All;
    var c, v := MatchTitleUnfolds(name, id, s);
    var t := s[c + 1..];
    AfterDash(t, v);
    rest := Some(TitleReading(s[..c], t[..v], t[v..]));
    DashedText(rest.value, s, c);
  }

  lemma DashedText(r: TitleReading, s: string, c: nat)
    requires c < |s| && s[c] == '-' && r.before == s[..c] && r.after + r.title == s[c + 1..]
    ensures r.Text() == s
  {
    assert s[..c] + ("-" + s[c + 1..]) == s;
  }

  lemma MatchIdReads(name: string, s: string) returns (r: SubjectReading)
    requires MatchId(name, s).Some?
    ensures r.name == name && r.gap != "" && All(r.gap, IsWhitespace) && r.id != "" && All(r.id, IsIdChar)
    ensures r.rest.Some? ==> r.rest.value.Legal()
    ensures r.gap + (r.id + r.Tail()) == s && r.Match() == MatchId(name, s).value
  {
    hide MatchTitle, IsWhitespace, IsIdChar;
    var a := Span(s, IsWhitespace);
    var b := Span(s[a..], IsIdChar);
    var rest := MatchTitleReads(name, s[a..][..b], s[a..][b..]);
    r := SubjectReading(name, s[..a], s[a..][..b], rest);
    assert s[a..] == s[a..][..b] + s[a..][b..] && s == s[..a] + s[a..];
  }

  lemma SubjectReadingOf(s: string) returns (r: SubjectReading)
    requires MatchSubject(s).Some?
    ensures r.Legal() && r.Text() == s && r.Match() == MatchSubject(s).value
  {
    hide MatchId, IsWhitespace, IsIdChar;
    var t := Span(s, IsAsciiLetter);
    hide IsAsciiLetter;
    r := MatchIdReads(s[..t], s[t + 1..]);
    assert s[..t] + (":" + s[t + 1..]) == s;
  }

  /** What the matcher finds is a match of the whole subject. */
  lemma MatchSubjectReads(s: string)
    ensures MatchSubject(s).Some? ==>
        exists r: SubjectReading :: r.Legal() && r.Text() == s && r.Match() == MatchSubject(s).value
  {
    hide MatchSubject, IsWhitespace, IsIdChar, IsAsciiLetter;
    if MatchSubject(s).Some? { var r := SubjectReadingOf(s); }
  }

  lemma {:induction false} SpanAtLeast(a: string, b: string, p: char -> bool)
    requires All(a, p)
    ensures Span(a + b, p) >= |a|
  {
    if a != "" {
      assert (a + b)[1..] == a[1..] + b;
      SpanAtLeast(a[1..], b, p);
    }
  }

  lemma TitleStartsLate(after: string, title: string)
    requires after != "" && All(after, IsWhitespace) && title != ""
    ensures |after| <= TitleStart(after + title) < |after + title|
  {
    hide IsWhitespace;
    SpanAtLeast(after, title, IsWhitespace);
  }

  lemma MatchTitleOf(name: string, id: string, before: string, t: string)
    requires before != "" && All(before, IsWhitespace)
    ensures MatchTitle(name, id, before + ("-" + t))
         == (var v := TitleStart(t);
             if v <= 0 || '\n' in t[v..] then None else Some(SubjectMatch(name, id, Some(t[v..]))))
  {
    var s := before + ("-" + t);
    SpanIs(before, "-" + t, IsWhitespace);
    hide IsWhitespace, TitleStart;
    assert s[|before| + 1..] == t;
  }

  lemma MatchTitleIsGreedy(name: string, id: string, r: TitleReading)
    requires r.Legal()
    ensures var m := MatchTitle(name, id, r.Text());
            && m.Some? && m.value.typeName == name && m.value.taskId == id && m.value.title.Some?
            && |m.value.title.value| <= |r.title| && m.value.title.value == r.title[|r.title| - |m.value.title.value|..]
  {
    hide MatchTitle, TitleStart, IsWhitespace, All;
    var t := r.after + r.title;
    TitleStartsLate(r.after, r.title);
    var v := TitleStart(t);
    assert t[v..] == r.title[v - |r.after|..];
    MatchTitleOf(name, id, r.before, t);
  }

  lemma MatchIdOf(name: string, gap: string, id: string, tail: string)
    requires gap != "" && All(gap, IsWhitespace) && id != "" && All(id, IsIdChar)
    requires tail == "" || !IsIdChar(tail[0])
    ensures MatchId(name, gap + (id + tail)) == MatchTitle(name, id, tail)
  {
    var s := gap + (id + tail);
    assert !IsWhitespace(id[0]) by { assert IsIdChar(id[0]); }
    hide MatchTitle, IsWhitespace, IsIdChar;
    SpanIs(gap, id + tail, IsWhitespace);
    assert s[|gap|..] == id + tail;
    SpanIs(id, tail, IsIdChar);
    assert (id + tail)[..|id|] == id && (id + tail)[|id|..] == tail;
  }

  /**
   Every match of the subject is found: with the same type and id, and of the
   titles the one with the longest white space before it.
   */
  lemma MatchSubjectIsGreedy(r: SubjectReading)
    requires r.Legal()
    ensures var m := MatchSubject(r.Text());
            && m.Some? && m.value.typeName == r.name && m.value.taskId == r.id
            && (m.value.title.Some? <==> r.rest.Some?)
            && (r.rest.Some? ==>
                  var found, title := m.value.title.value, r.rest.value.title;
                  |found| <= |title| && found == title[|title| - |found|..])
  {
    hide MatchId, MatchTitle, MatchSubject, IsWhitespace, IsIdChar, IsAsciiLetter;
    var tail := r.Tail();
    TailEndsId(r);
    NameReadBack(r.name, r.gap + (r.id + tail));
    MatchIdOf(r.name, r.gap, r.id, tail);
    if r.rest.Some? {
      MatchTitleIsGreedy(r.name, r.id, r.rest.value);
    } else {
      NoTitle(r.name, r.id);
    }
  }

  lemma TailEndsId(r: SubjectReading)
    requires r.Legal()
    ensures r.Tail() == "" || !IsIdChar(r.Tail()[0])
  {
    if r.rest.Some? { assert IsWhitespace(r.rest.value.before[0]); }
  }

  lemma NoTitle(name: string, id: string)
    ensures MatchTitle(name, id, "") == Some(SubjectMatch(name, id, None))
  {
  }

  // ---- the trailer matcher is the regular expression -------------------------

  /** A match of the expression at the start of `s`. */
  predicate Reads(s: string, r: Reading) { r.Text() <= s && r.Legal() }

  lemma Associative(a: string, b: string, c: string)
    ensures a + (b + c) == (a + b) + c
  {
  }

  lemma TextThenRest(r: Reading, rest: string)
    ensures TAG_OPEN + (r.key + (r.gap + (r.value + ("]" + rest)))) == r.Text() + rest
  {
    Associative(r.value, "]", rest);
    Associative(r.gap, r.value + "]", rest);
    Associative(r.key, r.gap + (r.value + "]"), rest);
    Associative(TAG_OPEN, r.key + (r.gap + (r.value + "]")), rest);
  }

  lemma ReadValueSplits(key: string, gap: string, s: string) returns (rest: string)
    requires ReadValue(key, gap, s).Some?
    ensures var r := ReadValue(key, gap, s).value;
            r.key == key && r.gap == gap && s == r.value + ("]" + rest) && r.value != "" && All(r.value, IsValueChar)
  {
    rest := s[Span(s, IsValueChar) + 1..];
  }

  lemma ReadGapSplits(key: string, s: string) returns (rest: string)
    requires ReadGap(key, s).Some?
    ensures var r := ReadGap(key, s).value;
            && r.key == key && s == r.gap + (r.value + ("]" + rest))
            && r.gap != "" && All(r.gap, IsWhitespace) && r.value != "" && All(r.value, IsValueChar)
  {
    hide ReadValue;
    var w := Span(s, IsWhitespace);
    var v := if w < |s| && s[w] == ']' then w - 1 else w;
    rest := ReadValueSplits(key, s[..v], s[v..]);
    assert s == s[..v] + s[v..];
  }

  lemma ReadKeySplits(s: string) returns (rest: string)
    requires ReadKey(s).Some?
    ensures var r := ReadKey(s).value; r.Legal() && s == r.key + (r.gap + (r.value + ("]" + rest)))
  {
    hide ReadGap;
    var k := Span(s, IsKeyChar);
    rest := ReadGapSplits(s[..k], s[k..]);
    assert s == s[..k] + s[k..];
  }

  /** What the matcher finds is a match. */
  lemma TagPrefixReads(s: string)
    ensures TagPrefix(s).Some? ==> Reads(s, TagPrefix(s).value)
  {
    hide ReadKey;
    if TagPrefix(s).Some? {
      var rest := ReadKeySplits(s[6..]);
      TextThenRest(TagPrefix(s).value, rest);
      assert s == TAG_OPEN + s[6..];
    }
  }

  /** The matcher finds a match if there is one, and of all matches the one with the longest white space. */
  lemma TagPrefixIsGreedy(s: string, r: Reading)
    requires Reads(s, r)
    ensures TagPrefix(s).Some? && TagPrefix(s).value.key == r.key
    ensures TagPrefix(s).value.Text() == r.Text() && |r.gap| <= |TagPrefix(s).value.gap|
  {
    var rest := s[|r.Text()|..];
    assert s == r.Text() + rest;
    TextThenRest(r, rest);
    var s1 := r.key + (r.gap + (r.value + ("]" + rest)));
    assert s[6..] == s1 by { assert (TAG_OPEN + s1)[6..] == s1; }
    ReadKeyIsGreedy(r, rest);
    TagPrefixReads(s);
    var found := TagPrefix(s).value;
    assert found.Text() == s[..|found.Text()|] && r.Text() == s[..|r.Text()|];
  }

  lemma ReadKeyIsGreedy(r: Reading, rest: string)
    requires r.Legal()
    ensures var m := ReadKey(r.key + (r.gap + (r.value + ("]" + rest))));
            m.Some? && m.value.key == r.key && |r.gap| <= |m.value.gap|
                && |m.value.gap| + |m.value.value| == |r.gap| + |r.value|
  {
    var s := r.gap + (r.value + ("]" + rest));
    ReadGapIsGreedy(r.key, r.gap, r.value, rest);
    hide ReadGap;
    assert s[0] == r.gap[0];
    SpanIs(r.key, s, IsKeyChar);
    assert (r.key + s)[..|r.key|] == r.key && (r.key + s)[|r.key|..] == s;
  }

  lemma ReadGapIsGreedy(key: string, gap: string, value: string, rest: string)
    requires gap != "" && All(gap, IsWhitespace) && value != "" && All(value, IsValueChar)
    ensures var m := ReadGap(key, gap + (value + ("]" + rest)));
            m.Some? && m.value.key == key && |gap| <= |m.value.gap|
                && |m.value.gap| + |m.value.value| == |gap| + |value|
  {
    hide ReadGap, IsValueChar, IsWhitespace;
    var tail, g := "]" + rest, Span(value, IsWhitespace);
    assert value == value[..g] + value[g..];
    Associative(value[..g], value[g..], tail);
    Associative(gap, value[..g], value[g..] + tail);
    if g == |value| {
      assert value[g..] + tail == tail;
      ReadGapOfWhite(key, gap + value[..g - 1], value[g - 1..], rest);
      assert (gap + value[..g - 1]) + (value[g - 1..] + tail) == gap + (value + tail);
    } else {
      ReadGapOfText(key, gap + value[..g], value[g..], rest);
    }
  }

  /** A value that is all white space keeps its last character; the gap takes the others. */
  lemma ReadGapOfWhite(key: string, gap: string, last: string, rest: string)
    requires gap != "" && All(gap, IsWhitespace) && All(last, IsWhitespace)
    requires |last| == 1 && All(last, IsValueChar)
    ensures ReadGap(key, gap + (last + ("]" + rest))) == Some(Reading(key, gap, last))
  {
    hide ReadValue, IsValueChar;
    var s := gap + (last + ("]" + rest));
    assert !IsWhitespace(']');
    hide IsWhitespace;
    assert s == (gap + last) + ("]" + rest);
    SpanIs(gap + last, "]" + rest, IsWhitespace);
    assert s[..|gap|] == gap && s[|gap|..] == last + ("]" + rest);
    ReadValueIs(key, gap, last, rest);
  }

  lemma ReadGapOfText(key: string, gap: string, value: string, rest: string)
    requires gap != "" && All(gap, IsWhitespace) && value != "" && !IsWhitespace(value[0]) && All(value, IsValueChar)
    ensures ReadGap(key, gap + (value + ("]" + rest))) == Some(Reading(key, gap, value))
  {
    hide ReadValue, IsWhitespace;
    var s := gap + (value + ("]" + rest));
    SpanIs(gap, value + ("]" + rest), IsWhitespace);
    assert s[|gap|] == value[0] != ']';
    assert s[..|gap|] == gap && s[|gap|..] == value + ("]" + rest);
    ReadValueIs(key, gap, value, rest);
  }

  lemma ReadValueIs(key: string, gap: string, value: string, rest: string)
    requires value != "" && All(value, IsValueChar)
    ensures ReadValue(key, gap, value + ("]" + rest)) == Some(Reading(key, gap, value))
  {
    SpanIs(value, "]" + rest, IsValueChar);
    assert (value + ("]" + rest))[..|value|] == value;
  }

  // ---- round trip ------------------------------------------------------------

  /** A tag that survives printing: `" "` alone is a legal value, other values start with text. */
  predicate LegalTag(t: MaccTag)
  {
    && t.key != "" && All(t.key, IsKeyChar) && t.value != "" && All(t.value, IsValueChar)
    && (IsWhitespace(t.value[0]) ==> |t.value| == 1)
  }

  function Printed(t: MaccTag): Reading { Reading(t.key, " ", t.value) }

  lemma PrintedText(t: MaccTag)
    ensures FormatTag(t) == Printed(t).Text()
  {
  }

  /** A value that starts with white space and goes on would have lost it to the gap. */
  lemma NoLongerGap(t: MaccTag, s: string)
    requires TagPrefix(s) == Some(Printed(t))
    ensures LegalTag(t)
  {
    hide TagPrefix;
    TagPrefixReads(s);
    if IsWhitespace(t.value[0]) && |t.value| > 1 {
      var longer := Reading(t.key, " " + t.value[..1], t.value[1..]);
      assert " " + (t.value + "]") == longer.gap + (longer.value + "]");
      assert longer.Text() == Printed(t).Text();
      TagPrefixIsGreedy(s, longer);
    }
  }

  /** A printed tag is read back, with whatever follows it, if and only if it is legal. */
  lemma TagRoundTripIff(t: MaccTag, rest: string)
    ensures TagPrefix(FormatTag(t) + rest) == Some(Printed(t)) <==> LegalTag(t)
  {
    var s := FormatTag(t) + rest;
    PrintedText(t);
    hide TagPrefix;
    if LegalTag(t) {
      assert s == Printed(t).Text() + rest;
      TagPrefixReads(s);
      TagPrefixIsGreedy(s, Printed(t));
      LongGap(t, TagPrefix(s).value);
    } else if TagPrefix(s) == Some(Printed(t)) {
      NoLongerGap(t, s);
    }
  }

  /** White space that reaches into a legal value would take all of it. */
  lemma LongGap(t: MaccTag, found: Reading)
    requires LegalTag(t) && found.Legal() && found.key == t.key && found.Text() == Printed(t).Text()
    ensures found == Printed(t)
  {
    var all := found.Text();
    var k := 6 + |t.key|;
    assert all[k..] == found.gap + (found.value + "]");
    assert all[k..] == " " + (t.value + "]");
    assert |found.gap| + |found.value| == 1 + |t.value|;
    assert forall i | 0 <= i < |found.gap| :: found.gap[i] == all[k..][i];
    assert t.value[0] == all[k..][1];
    assert |found.gap| == 1;
    assert found.gap == all[k..][..1] == " ";
    assert all[k..][1..] == found.value + "]" == t.value + "]";
    assert found.value == (found.value + "]")[..|t.value|] == t.value;
  }

  /** No trailer starts anywhere in `s`. */
  predicate NoTagIn(s: string) { forall i | 0 <= i <= |s| :: !(TAG_OPEN <= s[i..]) }

  /** A title that survives printing. */
  predicate LegalTitle(title: string)
  {
    && title != "" && '\n' !in title && NoTagIn(title)
    && !IsWhitespace(title[0]) && !IsWhitespace(title[|title| - 1])
  }

  predicate LegalMessage(m: CommitMessage)
  {
    && m.taskId != "" && All(m.taskId, IsIdChar)
    && (m.title.Some? && m.title.value != "" ==> LegalTitle(m.title.value))
    && forall i | 0 <= i < |m.tags| :: LegalTag(m.tags[i])
  }

  /** An empty title is printed as no title. */
  function PrintedTitle(title: Option<string>): Option<string> { if title == Some("") then None else title }

  lemma NoTagAtStart(text: string, rest: string)
    requires !(TAG_OPEN <= text) && (rest == "" || rest[0] == '\n')
    ensures !(TAG_OPEN <= text + rest)
  {
    if |text| >= 6 {
      assert (text + rest)[..6] == text[..6];
    } else if rest != "" {
      assert (text + rest)[|text|] == '\n';
      assert forall i | 0 <= i < 6 :: TAG_OPEN[i] != '\n';
    }
  }

  lemma {:induction false} TextHasNoTags(text: string, rest: string)
    requires NoTagIn(text) && (rest == "" || rest[0] == '\n')
    ensures Tags(text + rest) == Tags(rest)
  {
    if text == "" {
      assert text + rest == rest;
    } else {
      assert text[0..] == text;
      NoTagAtStart(text, rest);
      forall i | 0 <= i <= |text[1..]| ensures !(TAG_OPEN <= text[1..][i..]) { assert text[1..][i..] == text[i + 1..]; }
      assert (text + rest)[1..] == text[1..] + rest;
      TextHasNoTags(text[1..], rest);
    }
  }

  lemma TagThenRest(t: MaccTag, rest: string)
    requires LegalTag(t)
    ensures Tags(FormatTag(t) + rest) == [t] + Tags(rest)
  {
    TagRoundTripIff(t, rest);
    PrintedText(t);
    var s := FormatTag(t) + rest;
    assert s[|Printed(t).Text()|..] == rest;
  }

  lemma NewlineThenRest(rest: string)
    ensures Tags("\n" + rest) == Tags(rest)
  {
    assert ("\n" + rest)[0] != TAG_OPEN[0];
    assert ("\n" + rest)[1..] == rest;
  }

  lemma {:induction false} FormattedTagsReadBack(tags: seq<MaccTag>)
    requires forall i | 0 <= i < |tags| :: LegalTag(tags[i])
    ensures Tags(FormatTags(tags)) == tags
  {
    hide Tags, FormatTag;
    if |tags| == 0 {
      assert Tags("") == [] by { NoTags(); }
    } else if |tags| == 1 {
      TagThenRest(tags[0], "");
      NoTags();
      assert FormatTag(tags[0]) + "" == FormatTag(tags[0]);
    } else {
      var rest := FormatTags(tags[1..]);
      assert FormatTags(tags) == FormatTag(tags[0]) + ("\n" + rest);
      TagThenRest(tags[0], "\n" + rest);
      NewlineThenRest(rest);
      FormattedTagsReadBack(tags[1..]);
      assert tags == [tags[0]] + tags[1..];
    }
  }

  lemma NoTags()
    ensures Tags("") == []
  {
  }

  /** The texts are equal but for the case of ASCII letters; `word` has no capitals. */
  predicate SameLetters(s: string, word: string)
  {
    |s| == |word|
    && forall i | 0 <= i < |word| :: s[i] == word[i] || ('a' <= word[i] <= 'z' && s[i] as int + 32 == word[i] as int)
  }

  lemma LowerIs(s: string, word: string)
    requires forall i | 0 <= i < |word| :: !('A' <= word[i] <= 'Z')
    ensures Lower(s) == word <==> SameLetters(s, word)
  {
    if SameLetters(s, word) {
      assert forall i | 0 <= i < |s| :: LowerChar(s[i]) == word[i];
    }
    if Lower(s) == word {
      assert forall i | 0 <= i < |s| :: LowerChar(s[i]) == word[i];
    }
  }

  lemma LowerKeeps(s: string)
    requires s != "" && forall i | 0 <= i < |s| :: 'a' <= s[i] <= 'z'
    ensures Lower(s) == s && Trim(s) == s
  {
    hide Lower, Trim, IsWhitespace;
    LowerIs(s, s);
    LettersAreTrimmed(s);
  }

  lemma LettersAreTrimmed(s: string)
    requires s != "" && forall i | 0 <= i < |s| :: 'a' <= s[i] <= 'z'
    ensures Trim(s) == s
  {
    assert !IsWhitespace(s[0]) && !IsWhitespace(s[|s| - 1]);
    hide IsWhitespace;
  }

  lemma TypeNameReadBack(t: CommitType)
    ensures ParseType(TypeName(t)) == Some(t)
    ensures TypeName(t) != "" && All(TypeName(t), IsAsciiLetter)
    ensures !IsWhitespace(TypeName(t)[0]) && '[' !in TypeName(t) && '\n' !in TypeName(t)
  {
    hide Lower, Trim;
    var name := TypeName(t);
    assert forall i | 0 <= i < |name| :: 'a' <= name[i] <= 'z';
    LowerKeeps(name);
  }

  function TitlePart(m: CommitMessage): string
  {
    if m.title.Some? && m.title.value != "" then " - " + m.title.value else ""
  }

  lemma SubjectParts(m: CommitMessage)
    ensures FormatSubject(m) == TypeName(m.commitType) + (": " + (m.taskId + TitlePart(m)))
  {
  }

  /** The printed subject is matched piece by piece. */
  lemma SubjectReadBack(m: CommitMessage)
    requires LegalMessage(m)
    ensures MatchSubject(FormatSubject(m))
        == Some(SubjectMatch(TypeName(m.commitType), m.taskId, PrintedTitle(m.title)))
  {
    var name := TypeName(m.commitType);
    TypeNameReadBack(m.commitType);
    SubjectParts(m);
    hide TypeName, FormatSubject, MatchSubject, MatchId, MatchTitle, ParseType, NoTagIn;
    assert ": " + (m.taskId + TitlePart(m)) == ":" + (" " + (m.taskId + TitlePart(m)));
    NameReadBack(name, " " + (m.taskId + TitlePart(m)));
    MatchIdOf(name, " ", m.taskId, TitlePart(m));
    TitleReadBack(name, m);
  }

  lemma NameReadBack(name: string, tail: string)
    requires name != "" && All(name, IsAsciiLetter)
    ensures MatchSubject(name + (":" + tail)) == MatchId(name, tail)
  {
    hide MatchId;
    SpanIs(name, ":" + tail, IsAsciiLetter);
    var s := name + (":" + tail);
    assert s[..|name|] == name && s[|name|] == ':' && s[|name| + 1..] == tail;
  }

  lemma TitleReadBack(name: string, m: CommitMessage)
    requires LegalMessage(m)
    ensures MatchTitle(name, m.taskId, TitlePart(m)) == Some(SubjectMatch(name, m.taskId, PrintedTitle(m.title)))
  {
    if TitlePart(m) != "" {
      var title := m.title.value;
      var rest := "- " + title;
      assert TitlePart(m) == " " + rest;
      SpanIs(" ", rest, IsWhitespace);
      assert TitlePart(m)[2..] == " " + title;
      SpanIs(" ", title, IsWhitespace);
      assert (" " + title)[1..] == title;
    }
  }

  lemma SubjectIsPlain(m: CommitMessage)
    requires LegalMessage(m)
    ensures var s := FormatSubject(m);
            '\n' !in s && NoTagIn(s) && s != "" && !IsWhitespace(s[0]) && !IsWhitespace(s[|s| - 1])
  {
    hide TypeName, FormatSubject, IsWhitespace, IsIdChar, LegalTag, LegalTitle, TitlePart, NoTagIn;
    var s, tail := FormatSubject(m), TitlePart(m);
    var head := TypeName(m.commitType) + (": " + m.taskId);
    SubjectParts(m);
    TypeNameReadBack(m.commitType);
    IdIsPlain(m.taskId);
    TitlePartIsPlain(m);
    assert s == head + tail;
    assert forall i | 0 <= i < |head| :: head[i] != '[' && head[i] != '\n';
    NoTagAfterHead(head, m);
  }

  lemma IdIsPlain(id: string)
    requires id != "" && All(id, IsIdChar)
    ensures '[' !in id && '\n' !in id && !IsWhitespace(id[|id| - 1])
  {
    assert IsIdChar(id[|id| - 1]);
  }

  lemma TitlePartIsPlain(m: CommitMessage)
    requires LegalMessage(m)
    ensures var tail := TitlePart(m); '\n' !in tail && (tail != "" ==> !IsWhitespace(tail[|tail| - 1]))
  {
    hide IsWhitespace, NoTagIn, LegalTag, IsIdChar;
  }

  lemma NoTagAfterHead(head: string, m: CommitMessage)
    requires '[' !in head && LegalMessage(m)
    ensures NoTagIn(head + TitlePart(m))
  {
    hide TypeName, FormatSubject, IsWhitespace;
    var s := head + TitlePart(m);
    forall i | 0 <= i <= |s| ensures !(TAG_OPEN <= s[i..]) {
      if |head| + 3 <= i {
        assert s[i..] == m.title.value[i - |head| - 3..];
      } else if i < |s| {
        assert s[i..][0] == s[i] != '[';
      }
    }
  }

  lemma SubjectOfFormatted(m: CommitMessage, rest: string)
    requires LegalMessage(m) && (rest == "" || rest[0] == '\n')
    ensures SubjectOf(FormatSubject(m) + rest) == FormatSubject(m)
  {
    var s := FormatSubject(m);
    SubjectIsPlain(m);
    SpanIs(s, rest, NotNewline());
    assert (s + rest)[..|s|] == s;
  }

  /**
   Parsing a printed message gives the message back. Without a task trailer the
   parse adds one from the subject; the map of tags keeps the last value of each
   key; and the task id is that of the last task trailer, or the subject's.
   */
  lemma FormatThenParse(m: CommitMessage, legacy: string -> Option<string>)
    requires LegalMessage(m)
    ensures var p := Parsed(Format(m), legacy);
            && p.message.Some? && p.message.value == m.(title := PrintedTitle(m.title), tags := p.message.value.tags)
            && p.message.value.tags == (if exists i | 0 <= i < |m.tags| :: m.tags[i].key == "task" then m.tags
                                        else [MaccTag("task", m.taskId)] + m.tags)
            && p.tags == TagMap(m.tags)
            && p.subject == FormatSubject(m)
            && p.taskId == Some(if TAG_TASK in TagMap(m.tags) then TagMap(m.tags)[TAG_TASK] else m.taskId)
  {
    hide Tags, TagMap, SubjectOf, FormatSubject, MatchSubject, ParseType, TypeName;
    FormattedPieces(m);
    SubjectReadBack(m);
    TypeNameReadBack(m.commitType);
  }

  lemma FormattedPieces(m: CommitMessage)
    requires LegalMessage(m)
    ensures SubjectOf(Format(m)) == FormatSubject(m) && Tags(Format(m)) == m.tags
  {
    hide Tags, SubjectOf, FormatSubject, FormatTags;
    var s, trailer := FormatSubject(m), FormatTags(m.tags);
    var rest := if m.tags == [] then "" else "\n" + ("\n" + trailer);
    assert Format(m) == s + rest;
    SubjectIsPlain(m);
    SubjectOfFormatted(m, rest);
    TextHasNoTags(s, rest);
    if m.tags == [] {
      NoTags();
    } else {
      NewlineThenRest("\n" + trailer);
      NewlineThenRest(trailer);
      FormattedTagsReadBack(m.tags);
    }
  }

  /** Messages with a task trailer come back unchanged. */
  lemma TaskMessagesComeBack(m: CommitMessage, legacy: string -> Option<string>)
    requires LegalMessage(m) && m.title != Some("") && HasKey(m.tags, TAG_TASK)
    ensures Parsed(Format(m), legacy).message == Some(m)
  {
    FormatThenParse(m, legacy);
  }

  /** What the factories' messages look like. */
  lemma FactoriesPrint(t: CommitType, id: string, title: string, phase: string)
    requires title != ""
    ensures Format(MergeCommit(id))
         == ("macc" + ": " + id + " - " + ("merge task " + id)) + "\n\n"
            + (("[macc:" + "task" + " " + id + "]") + "\n" + ("[macc:" + "merge" + " " + "true" + "]"))
    ensures Format(TaskCommit(t, id, Some(title), Some(phase)))
         == (TypeName(t) + ": " + id + " - " + title) + "\n\n"
            + (("[macc:" + "task" + " " + id + "]") + "\n" + ("[macc:" + "phase" + " " + phase + "]"))
  {
    TwoTags(MaccTag("task", id), MaccTag("merge", "true"));
    TwoTags(MaccTag("task", id), MaccTag("phase", phase));
    assert [MaccTag("task", id)] + [MaccTag("phase", phase)] == [MaccTag("task", id), MaccTag("phase", phase)];
    hide FormatTags;
  }

  lemma TwoTags(a: MaccTag, b: MaccTag)
    ensures FormatTags([a, b]) == FormatTag(a) + "\n" + FormatTag(b)
  {
    assert [a, b][1..] == [b];
    assert FormatTags([b]) == FormatTag(b);
  }

  /** The printer's own messages for tasks and merges are legal whenever what they are given is. */
  lemma FactoriesAreLegal(t: CommitType, taskId: string, title: Option<string>, phase: Option<string>)
    requires taskId != "" && All(taskId, IsIdChar)
    requires title.Some? && title.value != "" ==> LegalTitle(title.value)
    requires phase.Some? ==> LegalTag(MaccTag(TAG_PHASE, phase.value))
    ensures LegalMessage(TaskCommit(t, taskId, title, phase)) && LegalMessage(MergeCommit(taskId))
  {
    var merge := MergeCommit(taskId).title.value;
    assert forall i | 0 <= i < |merge| :: merge[i] != '[' && merge[i] != '\n';
    forall i | 0 <= i <= |merge| ensures !(TAG_OPEN <= merge[i..]) { assert i < |merge| ==> merge[i..][0] == merge[i]; }
  }

  // ---- what a parse finds, whatever the message --------------------------------

  /** A type is read from its name in any case, and from nothing else. */
  lemma TypesByName(name: string, word: string, t: CommitType)
    requires name != "" && All(name, IsAsciiLetter)
    requires (word, t) in {("feat", Feat), ("fix", Fix), ("refactor", Refactor), ("docs", Docs), ("test", Test),
                           ("chore", Chore), ("macc", Macc)}
    ensures ParseType(name) == Some(t) <==> SameLetters(name, word)
  {
    assert Trim(name) == name;
    assert forall i | 0 <= i < |word| :: 'a' <= word[i] <= 'z';
    hide Trim, Lower, SameLetters, IsAsciiLetter, ParseType;
    LowerIs(name, word);
    ParseTypeIs(name);
  }

  lemma ParseTypeIs(name: string)
    ensures var low, t := Lower(Trim(name)), ParseType(name);
            && (t == Some(Feat) <==> low == "feat") && (t == Some(Fix) <==> low == "fix")
            && (t == Some(Refactor) <==> low == "refactor") && (t == Some(Docs) <==> low == "docs")
            && (t == Some(Test) <==> low == "test") && (t == Some(Chore) <==> low == "chore")
            && (t == Some(Macc) <==> low == "macc")
  {
    hide Lower, Trim;
    NamesOfTypes();
  }

  lemma NamesOfTypes()
    ensures |{"feat", "fix", "refactor", "docs", "test", "chore", "macc"}| == 7
  {
    assert "feat"[1] != "fix"[1] && "docs"[0] != "test"[0] && "chore"[0] != "macc"[0];
  }

  /** The value of the last trailer with the key. */
  predicate LastIs(tags: seq<MaccTag>, key: string, value: string)
  {
    exists i | 0 <= i < |tags| ::
      tags[i].key == key && tags[i].value == value && forall j | i < j < |tags| :: tags[j].key != key
  }

  lemma LastIsSnoc(tags: seq<MaccTag>, last: MaccTag, key: string, value: string)
    ensures LastIs(tags + [last], key, value)
       <==> if last.key == key then last.value == value else LastIs(tags, key, value)
  {
    var all := tags + [last];
    assert all[|tags|] == last && forall i | 0 <= i < |tags| :: all[i] == tags[i];
    if last.key != key && LastIs(tags, key, value) {
      var i :| 0 <= i < |tags| && tags[i].key == key && tags[i].value == value
               && forall j | i < j < |tags| :: tags[j].key != key;
      assert all[i].key == key && all[i].value == value && forall j | i < j < |all| :: all[j].key != key;
    }
    if LastIs(all, key, value) && last.key != key {
      var i :| 0 <= i < |all| && all[i].key == key && all[i].value == value
               && forall j | i < j < |all| :: all[j].key != key;
      assert tags[i].key == key && forall j | i < j < |tags| :: tags[j].key == all[j].key;
    }
  }

  /** The map of trailers holds the last value of each key. */
  lemma {:induction false} TagMapIsLast(tags: seq<MaccTag>, key: string, value: string)
    ensures key in TagMap(tags) && TagMap(tags)[key] == value <==> LastIs(tags, key, value)
  {
    if tags != [] {
      var front, last := tags[..|tags| - 1], tags[|tags| - 1];
      TagMapIsLast(front, key, value);
      LastIsSnoc(front, last, key, value);
      assert tags == front + [last];
      hide LastIs;
    }
  }

  lemma NoLast(tags: seq<MaccTag>, key: string)
    ensures key in TagMap(tags) <==> exists value :: LastIs(tags, key, value)
  {
    hide LastIs, TagMap;
    if key in TagMap(tags) { TagMapIsLast(tags, key, TagMap(tags)[key]); }
    if value :| LastIs(tags, key, value) { TagMapIsLast(tags, key, value); }
  }

  lemma {:induction false} TaskTagIsLast(tags: seq<MaccTag>)
    ensures HasKey(tags, "task") <==> exists id :: LastIs(tags, "task", id)
  {
    if tags != [] {
      var front, last := tags[..|tags| - 1], tags[|tags| - 1];
      TaskTagIsLast(front);
      assert tags == front + [last];
      if last.key == "task" {
        assert LastIs(tags, "task", last.value) && HasKey(tags, "task");
      } else {
        forall id ensures LastIs(tags, "task", id) <==> LastIs(front, "task", id) {
          LastIsSnoc(front, last, "task", id);
        }
        assert HasKey(tags, "task") <==> HasKey(front, "task") by {
          assert forall i | 0 <= i < |front| :: tags[i] == front[i];
        }
      }
    }
  }

  /**
   Any text: it is a message exactly if its first line is in the convention and
   begins with a type; its task is that of the last task trailer, else that of the
   subject, else what the heuristic finds in the subject.
   */
  lemma ParsedWhatever(raw: string, legacy: string -> Option<string>)
    ensures var p := Parsed(raw, legacy);
            && p.subject == SubjectOf(raw)
            && (p.message.Some? <==> exists r: SubjectReading ::
                  r.Legal() && r.Text() == p.subject && ParseType(r.name).Some?)
            && (forall r: SubjectReading | r.Legal() && r.Text() == p.subject && p.message.Some? ::
                  && p.message.value.taskId == r.id && Some(p.message.value.commitType) == ParseType(r.name)
                  && p.message.value.tags == (if exists id :: LastIs(Tags(raw), "task", id) then Tags(raw)
                                              else [MaccTag("task", r.id)] + Tags(raw)))
            && (forall id :: LastIs(Tags(raw), "task", id) ==> p.taskId == Some(id))
            && (!(exists id :: LastIs(Tags(raw), "task", id)) ==>
                  p.taskId == if p.message.Some? then Some(p.message.value.taskId) else legacy(p.subject))
  {
    hide Tags, TagMap, MatchSubject, SubjectOf, ParseType, LastIs, HasKey;
    TaskTagIsLast(Tags(raw));
    var p, subject := Parsed(raw, legacy), SubjectOf(raw);
    NoLast(Tags(raw), "task");
    forall id | LastIs(Tags(raw), "task", id) ensures p.taskId == Some(id) { TagMapIsLast(Tags(raw), "task", id); }
    forall r: SubjectReading | r.Legal() && r.Text() == subject
      ensures MatchSubject(subject).Some? && MatchSubject(subject).value.typeName == r.name
           && MatchSubject(subject).value.taskId == r.id
    {
      MatchSubjectIsGreedy(r);
    }
    MatchSubjectReads(subject);
  }

  /** What keys and ids are made of, by code point: small letters and `_`, and letters, digits, `-` and `_`. */
  lemma CharactersOfTheConvention(c: char)
    ensures IsKeyChar(c) <==> 97 <= c as int <= 122 || c as int == 95
    ensures IsIdChar(c) <==>
            48 <= c as int <= 57 || 65 <= c as int <= 90 || 97 <= c as int <= 122 || c as int in {45, 95}
  {
  }
}

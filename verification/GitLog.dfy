/** The records that `git log` prints for the commit graph, and how they are read. */
module GitLog {
  import opened Wrappers
  import opened Text

  /** `decoration` is the text between the parentheses that names the refs of the commit. */
  datatype Commit = Commit(
    sha: string, parents: seq<string>, decoration: string, subject: string, body: string, author: string,
    timestamp: int)

  const UNIT := '\U{001f}'
  const NUL := '\0'
  const I64_MAX := 0x7fff_ffff_ffff_ffff
  const I64_MIN := -0x8000_0000_0000_0000

  // ---- reading the log -----------------------------------------------------

  function IndexOf(s: string, c: char): (i: nat)
    ensures i <= |s| && c !in s[..i] && (i < |s| ==> s[i] == c)
  {
    assert forall k | 0 <= k < Span(s, Not(c)) :: Not(c)(s[k]);
    Span(s, Not(c))
  }

  function Not(c: char): char -> bool { x => x != c }

  /** `splitn(n, c)`: at most `n` pieces, the last with whatever is left. */
  function SplitN(s: string, c: char, n: nat): (pieces: seq<string>)
    requires n > 0
    ensures 0 < |pieces| <= n
    decreases n
  {
    var i := IndexOf(s, c);
    if n == 1 || i == |s| then [s] else [s[..i]] + SplitN(s[i + 1..], c, n - 1)
  }

  /** `split_whitespace` */
  function Words(s: string): (words: seq<string>)
    ensures forall i | 0 <= i < |words| :: words[i] != "" && All(words[i], IsVisible)
    decreases |s|
  {
    var n := Span(s, IsVisible);
    if s == "" then []
    else if n == 0 then Words(s[1..])
    else [s[..n]] + Words(s[n..])
  }

  predicate IsVisible(c: char) { !IsWhitespace(c) }

  /** `parse::<i64>` */
  function ParseInt(s: string): (r: Option<int>)
    ensures r.Some? ==> I64_MIN <= r.value <= I64_MAX
  {
    var negative := s != "" && s[0] == '-';
    var digits := if negative || (s != "" && s[0] == '+') then s[1..] else s;
    if digits == "" || !All(digits, IsDigit) then None else
      var size: int := Digits(digits);
      var n := if negative then -size else size;
      if I64_MIN <= n <= I64_MAX then Some(n) else None
  }

  /** `digits` after `sign` stand for the number. */
  predicate StandsFor(sign: string, digits: string, n: int)
  {
    && digits != "" && All(digits, IsDigit)
    && ((sign in {"", "+"} && n == Digits(digits)) || (sign == "-" && n + Digits(digits) == 0))
  }

  lemma SignIsRead(sign: string, digits: string, n: int)
    requires StandsFor(sign, digits, n)
    ensures ParseInt(sign + digits)
         == if -0x8000_0000_0000_0000 <= n <= 0x7fff_ffff_ffff_ffff then Some(n) else None
  {
    var s := sign + digits;
    assert IsDigit(digits[0]);
    assert s[|sign|..] == digits;
    hide Digits;
  }

  /** A number is read from a sign or none and digits, within 64 bits, and from nothing else. */
  lemma ParseIntIff(s: string, n: int)
    ensures ParseInt(s) == Some(n) <==>
            && -0x8000_0000_0000_0000 <= n <= 0x7fff_ffff_ffff_ffff
            && exists sign, digits :: s == sign + digits && StandsFor(sign, digits, n)
  {
    if ParseInt(s) == Some(n) {
      var sign := if s[0] == '-' then "-" else if s[0] == '+' then "+" else "";
      assert s == sign + s[|sign|..] && StandsFor(sign, s[|sign|..], n);
    }
    hide ParseInt, StandsFor;
    if sign, digits :| s == sign + digits && StandsFor(sign, digits, n) { SignIsRead(sign, digits, n); }
  }

  function ParseGitGraphRecord(record: string): Option<Commit>
  {
    var text := Trim(record);
    var parts := SplitN(text, UNIT, 7);
    if text == "" || |parts| != 7 then None
    else
      var timestamp := ParseInt(Trim(parts[6]));
      if timestamp.None? then None
      else Some(Commit(Trim(parts[0]), Words(parts[1]), Trim(parts[2]), Trim(parts[3]), Trim(parts[4]), Trim(parts[5]),
                       timestamp.value))
  }

  /** The records between NULs; what does not parse is skipped. */
  function CommitsOf(raw: string): seq<Commit>
    decreases |raw|
  {
    var i := IndexOf(raw, NUL);
    var first := ParseGitGraphRecord(raw[..i]);
    (if first.Some? then [first.value] else []) + (if i < |raw| then CommitsOf(raw[i + 1..]) else [])
  }

  // ---- what git prints -------------------------------------------------------

  function Spaced(words: seq<string>): string
  {
    if words == [] then "" else if |words| == 1 then words[0] else words[0] + (" " + Spaced(words[1..]))
  }

  function Fields(c: Commit): seq<string>
  {
    [c.sha, Spaced(c.parents), c.decoration, c.subject, c.body, c.author, Decimal(c.timestamp)]
  }

  function Joined(fields: seq<string>): string
    requires fields != []
  {
    if |fields| == 1 then fields[0] else fields[0] + ([UNIT] + Joined(fields[1..]))
  }

  /** `%H%x1f%P%x1f%d%x1f%s%x1f%b%x1f%an%x1f%at` */
  function PrintRecord(c: Commit): string { Joined(Fields(c)) }

  /** Every record ends with NUL, and git puts a newline after each. */
  function PrintLog(commits: seq<Commit>): string
  {
    if commits == [] then "" else PrintRecord(commits[0]) + ([NUL] + ("\n" + PrintLog(commits[1..])))
  }

  predicate PlainText(s: string) { Trim(s) == s && UNIT !in s }

  /** What a record can say. */
  predicate Plain(c: Commit)
  {
    && PlainText(c.sha) && PlainText(c.decoration) && PlainText(c.subject) && PlainText(c.body) && PlainText(c.author)
    && (forall i | 0 <= i < |c.parents| :: c.parents[i] != "" && All(c.parents[i], IsVisible) && UNIT !in c.parents[i])
    && I64_MIN <= c.timestamp <= I64_MAX
  }

  // ---- reading what was printed ------------------------------------------------

  lemma SplitNUnfolds(s: string, c: char, n: nat, i: nat)
    requires n > 1 && i == IndexOf(s, c) < |s|
    ensures SplitN(s, c, n) == [s[..i]] + SplitN(s[i + 1..], c, n - 1)
  {
  }

  lemma SplitFirst(first: string, c: char, rest: string, n: nat)
    requires c !in first && n > 1
    ensures SplitN(first + ([c] + rest), c, n) == [first] + SplitN(rest, c, n - 1)
  {
    hide IndexOf, SplitN;
    var s := first + ([c] + rest);
    IndexIs(first, c, rest);
    SplitNUnfolds(s, c, n, |first|);
    assert s[..|first|] == first;
    assert s[|first| + 1..] == rest;
  }

  lemma {:induction false} SplitJoined(fields: seq<string>)
    requires fields != [] && forall i | 0 <= i < |fields| - 1 :: UNIT !in fields[i]
    ensures SplitN(Joined(fields), UNIT, |fields|) == fields
  {
    if |fields| > 1 {
      hide SplitN;
      SplitFirst(fields[0], UNIT, Joined(fields[1..]), |fields|);
      SplitJoined(fields[1..]);
      assert fields == [fields[0]] + fields[1..];
    }
  }

  lemma IndexIs(a: string, c: char, b: string)
    requires c !in a
    ensures IndexOf(a + ([c] + b), c) == |a|
  {
    SpanIs(a, [c] + b, Not(c));
  }

  lemma {:induction false} JoinedEnds(fields: seq<string>)
    requires fields != [] && fields[|fields| - 1] != ""
    ensures var s, last := Joined(fields), fields[|fields| - 1]; s != "" && s[|s| - 1] == last[|last| - 1]
    ensures Joined(fields)[0] == (if fields[0] == "" then UNIT else fields[0][0])
  {
    if |fields| > 1 { JoinedEnds(fields[1..]); }
  }

  lemma ParseUnsigned(s: string)
    requires s != "" && All(s, IsDigit) && Digits(s) <= I64_MAX
    ensures ParseInt(s) == Some(Digits(s))
  {
    hide Digits;
    assert IsDigit(s[0]);
  }

  lemma ParseNegative(s: string)
    requires s != "" && All(s, IsDigit) && Digits(s) <= -I64_MIN
    ensures ParseInt("-" + s) == Some(0 - Digits(s))
  {
    hide Digits;
    assert ("-" + s)[1..] == s;
  }

  lemma IntReadBack(n: int)
    requires I64_MIN <= n <= I64_MAX
    ensures Decimal(n) != "" && ParseInt(Decimal(n)) == Some(n)
  {
    hide ParseInt;
    if n < 0 {
      DecimalReadBack(-n);
      ParseNegative(Decimal(-n));
    } else {
      DecimalReadBack(n);
      ParseUnsigned(Decimal(n));
    }
  }

  lemma DecimalIsVisible(n: int)
    ensures var s := Decimal(n);
            s != "" && UNIT !in s && NUL !in s && !IsWhitespace(s[0]) && !IsWhitespace(s[|s| - 1])
  {
    DecimalReadBack(if n < 0 then -n else n);
    hide Digits;
    if n < 0 { assert Decimal(n) == "-" + Decimal(-n); }
    hide Decimal;
  }

  lemma {:induction false} WordsReadBack(words: seq<string>)
    requires forall i | 0 <= i < |words| :: words[i] != "" && All(words[i], IsVisible)
    ensures Words(Spaced(words)) == words
  {
    if words != [] {
      var first, rest := words[0], words[1..];
      WordsReadBack(rest);
      if rest == [] {
        SpanIs(first, "", IsVisible);
        assert first + "" == first && first[|first|..] == "";
      } else {
        SpanIs(first, " " + Spaced(rest), IsVisible);
        var s := first + (" " + Spaced(rest));
        assert s[..|first|] == first && s[|first|..] == " " + Spaced(rest);
        assert (" " + Spaced(rest))[1..] == Spaced(rest);
      }
      assert words == [first] + rest;
    }
  }

  lemma {:induction false} SpacedHas(words: seq<string>, c: char)
    requires c != ' ' && forall i | 0 <= i < |words| :: c !in words[i]
    ensures c !in Spaced(words)
  {
    if words != [] { SpacedHas(words[1..], c); }
  }

  lemma {:induction false} WordsAreFrom(s: string, c: char)
    requires c !in s
    ensures forall i | 0 <= i < |Words(s)| :: c !in Words(s)[i]
    decreases |s|
  {
    var n := Span(s, IsVisible);
    if s != "" { WordsAreFrom(if n == 0 then s[1..] else s[n..], c); }
  }

  lemma TrimKeepsEdges(s: string)
    requires s != "" && !IsWhitespace(s[0]) && !IsWhitespace(s[|s| - 1])
    ensures Trim(s) == s && Trim("\n" + s) == s
  {
    assert ("\n" + s)[1..] == s;
  }

  lemma TrimmedEdges(s: string)
    requires s != ""
    ensures Trim(s) == s <==> !IsWhitespace(s[0]) && !IsWhitespace(s[|s| - 1])
  {
    var t := TrimStart(s);
    if IsWhitespace(s[0]) { TrimStartIsShorter(s); }
  }

  lemma {:induction false} TrimStartIsShorter(s: string)
    ensures |TrimStart(s)| <= |s|
    ensures s != "" && IsWhitespace(s[0]) ==> |TrimStart(s)| < |s|
    ensures forall c | c in TrimStart(s) :: c in s
  {
    if s != "" && IsWhitespace(s[0]) { TrimStartIsShorter(s[1..]); }
  }

  lemma TrimTwice(s: string)
    ensures Trim(Trim(s)) == Trim(s)
    ensures forall c | c in Trim(s) :: c in s
  {
    var t := TrimStart(s);
    TrimStartIsShorter(s);
    assert Trim(s) == t[..|Trim(s)|];
    if Trim(s) != "" { TrimKeepsEdges(Trim(s)); }
  }

  lemma TrimIsPlain(s: string)
    requires UNIT !in s
    ensures PlainText(Trim(s))
  {
    TrimTwice(s);
  }

  lemma {:induction false} PiecesAreClean(s: string, c: char, n: nat)
    requires n > 0
    ensures forall i | 0 <= i < |SplitN(s, c, n)| - 1 :: c !in SplitN(s, c, n)[i]
    decreases n
  {
    var i := IndexOf(s, c);
    if n > 1 && i < |s| { PiecesAreClean(s[i + 1..], c, n - 1); }
  }

  /** Everything read from a record is something a record can say. */
  lemma ParsedIsPlain(record: string)
    ensures ParseGitGraphRecord(record).Some? ==> Plain(ParseGitGraphRecord(record).value)
  {
    var parts := SplitN(Trim(record), UNIT, 7);
    PiecesAreClean(Trim(record), UNIT, 7);
    hide SplitN, Trim, PlainText, ParseInt;
    if ParseGitGraphRecord(record).Some? {
      TrimIsPlain(parts[0]);
      WordsAreFrom(parts[1], UNIT);
      TrimIsPlain(parts[2]);
      TrimIsPlain(parts[3]);
      TrimIsPlain(parts[4]);
      TrimIsPlain(parts[5]);
    }
  }

  lemma UnitIsVisible()
    ensures !IsWhitespace(UNIT)
  {
  }

  lemma PrintedTrims(c: Commit)
    requires Plain(c)
    ensures PrintRecord(c) != "" && Trim(PrintRecord(c)) == Trim("\n" + PrintRecord(c)) == PrintRecord(c)
  {
    DecimalIsVisible(c.timestamp);
    hide Joined, Decimal, ParseInt, IsWhitespace, Spaced;
    JoinedEnds(Fields(c));
    assert !IsWhitespace(UNIT) by { UnitIsVisible(); }
    if c.sha != "" { TrimmedEdges(c.sha); }
    hide Trim;
    TrimKeepsEdges(PrintRecord(c));
  }

  lemma PrintedSplits(c: Commit)
    requires Plain(c)
    ensures SplitN(PrintRecord(c), UNIT, 7) == Fields(c)
  {
    hide Joined, Trim, Decimal, SplitN;
    SpacedHas(c.parents, UNIT);
    SplitJoined(Fields(c));
  }

  lemma PlainReadBack(c: Commit)
    requires Plain(c)
    ensures ParseGitGraphRecord(PrintRecord(c)) == ParseGitGraphRecord("\n" + PrintRecord(c)) == Some(c)
  {
    PrintedTrims(c);
    PrintedSplits(c);
    IntReadBack(c.timestamp);
    WordsReadBack(c.parents);
    DecimalIsVisible(c.timestamp);
    TrimKeepsEdges(Decimal(c.timestamp));
    hide PrintRecord, SplitN, Trim, Decimal, ParseInt, Spaced;
  }

  /**
   A record reads back as the commit it was printed from if and only if no text
   in it has a separator or loose white space.
   */
  lemma RecordReadBackIff(c: Commit)
    ensures ParseGitGraphRecord(PrintRecord(c)) == Some(c) <==> Plain(c)
  {
    ParsedIsPlain(PrintRecord(c));
    if Plain(c) { PlainReadBack(c); }
  }

  predicate Unbroken(c: Commit)
  {
    && NUL !in c.sha && NUL !in c.decoration && NUL !in c.subject && NUL !in c.body && NUL !in c.author
    && forall i | 0 <= i < |c.parents| :: NUL !in c.parents[i]
  }

  lemma {:induction false} JoinedHas(fields: seq<string>, c: char)
    requires fields != [] && c != UNIT && forall i | 0 <= i < |fields| :: c !in fields[i]
    ensures c !in Joined(fields)
  {
    if |fields| > 1 { JoinedHas(fields[1..], c); }
  }

  lemma PrintedIsUnbroken(c: Commit)
    requires Unbroken(c) && I64_MIN <= c.timestamp <= I64_MAX
    ensures NUL !in PrintRecord(c)
  {
    SpacedHas(c.parents, NUL);
    DecimalIsVisible(c.timestamp);
    hide Joined, Decimal, Spaced;
    JoinedHas(Fields(c), NUL);
  }

  lemma CommitsOfFirst(text: string, rest: string)
    requires NUL !in text
    ensures var first := ParseGitGraphRecord(text);
            CommitsOf(text + ([NUL] + rest)) == (if first.Some? then [first.value] else []) + CommitsOf(rest)
  {
    hide ParseGitGraphRecord, IndexOf;
    var raw := text + ([NUL] + rest);
    IndexIs(text, NUL, rest);
    assert raw[..|text|] == text;
    assert raw[|text| + 1..] == rest;
  }

  lemma CommitsOfLast(text: string)
    requires IndexOf(text, NUL) == |text| && ParseGitGraphRecord(text).None?
    ensures CommitsOf(text) == []
  {
    hide ParseGitGraphRecord, IndexOf;
    assert text[..|text|] == text;
  }

  /** The whole log reads back, commit by commit. */
  lemma {:induction false} LogReadBack(commits: seq<Commit>, lead: string)
    requires forall i | 0 <= i < |commits| :: Plain(commits[i]) && Unbroken(commits[i])
    requires lead == "" || lead == "\n"
    ensures CommitsOf(lead + PrintLog(commits)) == commits
    decreases |commits|
  {
    hide ParseGitGraphRecord, IndexOf, CommitsOf, PrintRecord, Plain, Unbroken;
    if commits == [] {
      LeadIsNoRecord(lead);
      CommitsOfLast(lead);
      assert lead + "" == lead;
    } else {
      var text, rest := lead + PrintRecord(commits[0]), "\n" + PrintLog(commits[1..]);
      LogReadBack(commits[1..], "\n");
      assert lead + PrintLog(commits) == text + ([NUL] + rest);
      LeadIsNoRecord(lead);
      PrintedReadBack(commits[0], lead);
      CommitsOfFirst(text, rest);
    }
  }

  lemma PrintedReadBack(c: Commit, lead: string)
    requires Plain(c) && Unbroken(c) && (lead == "" || lead == "\n")
    ensures ParseGitGraphRecord(lead + PrintRecord(c)) == Some(c) && NUL !in lead + PrintRecord(c)
  {
    PrintedIsUnbroken(c);
    PlainReadBack(c);
    hide ParseGitGraphRecord, PrintRecord;
    assert "" + PrintRecord(c) == PrintRecord(c);
  }

  lemma LeadIsNoRecord(lead: string)
    requires lead == "" || lead == "\n"
    ensures IndexOf(lead, NUL) == |lead| && ParseGitGraphRecord(lead).None?
  {
    assert "\n"[1..] == "";
  }
}

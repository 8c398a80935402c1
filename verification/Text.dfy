/**
 Strings as the coordinator compares and scans them: SQLite's BINARY collation
 (code point order, which is also the order of a BTreeMap of Strings), Unicode
 white space, trimming and ASCII case.
 */
module Text {

  // ---- order -------------------------------------------------------------

  /** Code point order, shorter prefix first. */
  predicate StringLe(a: string, b: string)
  {
    a == "" ||
    (b != "" && (a[0] < b[0] || (a[0] == b[0] && StringLe(a[1..], b[1..]))))
  }

  lemma {:induction false} StringLeTotal(a: string, b: string)
    ensures StringLe(a, b) || StringLe(b, a)
    ensures a == b ==> StringLe(a, b)
  {
    if a != "" && b != "" && a[0] == b[0] {
      StringLeTotal(a[1..], b[1..]);
    }
  }

  lemma {:induction false} StringLeAntisymmetric(a: string, b: string)
    requires StringLe(a, b) && StringLe(b, a)
    ensures a == b
  {
    if a != "" && b != "" {
      StringLeAntisymmetric(a[1..], b[1..]);
      assert a == [a[0]] + a[1..] && b == [b[0]] + b[1..];
    }
  }

  lemma {:induction false} StringLeTransitive(a: string, b: string, c: string)
    requires StringLe(a, b) && StringLe(b, c)
    ensures StringLe(a, c)
  {
    if a != "" && a[0] == b[0] == c[0] {
      StringLeTransitive(a[1..], b[1..], c[1..]);
    }
  }

  predicate IsLeast(m: string, s: set<string>)
  {
    m in s && forall x | x in s :: StringLe(m, x)
  }

  lemma {:induction false} LeastExists(s: set<string>)
    requires s != {}
    ensures exists m :: IsLeast(m, s)
  {
    var x :| x in s;
    if s == {x} {
      StringLeTotal(x, x);
      assert IsLeast(x, s);
    } else {
      LeastExists(s - {x});
      var m :| IsLeast(m, s - {x});
      StringLeTotal(m, x);
      StringLeTotal(x, x);
      if StringLe(m, x) {
        assert IsLeast(m, s);
      } else {
        forall y | y in s ensures StringLe(x, y) {
          if y != x { StringLeTransitive(x, m, y); }
        }
        assert IsLeast(x, s);
      }
    }
  }

  lemma LeastIsUnique(a: string, b: string, s: set<string>)
    requires IsLeast(a, s) && IsLeast(b, s)
    ensures a == b
  {
    StringLeAntisymmetric(a, b);
  }

  /** The first key of a nonempty set in code point order. */
  function Least(s: set<string>): (m: string)
    requires s != {}
    ensures IsLeast(m, s)
  {
    LeastExists(s);
    assert forall a, b | IsLeast(a, s) && IsLeast(b, s) :: a == b by {
      forall a, b | IsLeast(a, s) && IsLeast(b, s) ensures a == b { LeastIsUnique(a, b, s); }
    }
    var m :| m in s && IsLeast(m, s);
    m
  }

  predicate StrictlySorted(keys: seq<string>)
  {
    forall i, j | 0 <= i < j < |keys| :: keys[i] != keys[j] && StringLe(keys[i], keys[j])
  }

  /** `ORDER BY key`, or the iteration order of a BTreeMap, over a set of keys. */
  function Ordered(s: set<string>): (keys: seq<string>)
    ensures StrictlySorted(keys)
    ensures forall x :: x in keys <==> x in s
    ensures |keys| == |s|
  {
    if s == {} then [] else
      var m := Least(s);
      [m] + Ordered(s - {m})
  }

  // ---- characters --------------------------------------------------------

  /** Unicode White_Space: `char::is_whitespace`, and `\s` of a Unicode regex. */
  predicate IsWhitespace(c: char)
  {
    '\t' <= c <= '\r' || c == ' ' || c == '\U{0085}' || c == '\U{00A0}' || c == '\U{1680}' ||
    '\U{2000}' <= c <= '\U{200A}' || c == '\U{2028}' || c == '\U{2029}' || c == '\U{202F}' ||
    c == '\U{205F}' || c == '\U{3000}'
  }

  /** By code point: the controls from tab to carriage return, and twenty more. */
  lemma WhitespaceCodePoints(c: char)
    ensures IsWhitespace(c) <==>
            || 9 <= c as int <= 13 || 0x2000 <= c as int <= 0x200A
            || c as int in {0x20, 0x85, 0xA0, 0x1680, 0x2028, 0x2029, 0x202F, 0x205F, 0x3000}
  {
  }

  predicate IsAsciiLetter(c: char) { 'a' <= c <= 'z' || 'A' <= c <= 'Z' }

  function TrimStart(s: string): (r: string)
    ensures r == "" || !IsWhitespace(r[0])
    ensures s != "" && !IsWhitespace(s[0]) ==> r == s
  {
    if s != "" && IsWhitespace(s[0]) then TrimStart(s[1..]) else s
  }

  function TrimEnd(s: string): (r: string)
    ensures r <= s
    ensures r == "" || !IsWhitespace(r[|r| - 1])
    ensures s != "" && !IsWhitespace(s[|s| - 1]) ==> r == s
  {
    if s != "" && IsWhitespace(s[|s| - 1]) then TrimEnd(s[..|s| - 1]) else s
  }

  function Trim(s: string): string { TrimEnd(TrimStart(s)) }

  predicate Blank(s: string) { Trim(s) == "" }

  /** Length of the longest prefix whose characters all satisfy `p`. */
  function Span(s: string, p: char -> bool): (n: nat)
    ensures n <= |s|
    ensures forall i | 0 <= i < n :: p(s[i])
    ensures n < |s| ==> !p(s[n])
  {
    if s != "" && p(s[0]) then 1 + Span(s[1..], p) else 0
  }

  predicate All(s: string, p: char -> bool) { forall i | 0 <= i < |s| :: p(s[i]) }

  lemma {:induction false} SpanIs(a: string, b: string, p: char -> bool)
    requires All(a, p) && (b == "" || !p(b[0]))
    ensures Span(a + b, p) == |a|
  {
    if a == "" {
      assert a + b == b;
    } else {
      assert (a + b)[1..] == a[1..] + b;
      SpanIs(a[1..], b, p);
    }
  }

  function LowerChar(c: char): char
  {
    if 'A' <= c <= 'Z' then (c as int + 32) as char else c
  }

  /** `to_ascii_lowercase`. */
  function Lower(s: string): (r: string)
    ensures |r| == |s|
    ensures forall i | 0 <= i < |s| :: r[i] == LowerChar(s[i])
  {
    if s == "" then "" else [LowerChar(s[0])] + Lower(s[1..])
  }

  /** Decimal digits, as `format!("{}", n)` prints an integer. */
  function Decimal(n: int): string
    decreases if n < 0 then 1 - n else n
  {
    if n < 0 then "-" + Decimal(-n)
    else if n < 10 then [('0' as int + n) as char]
    else Decimal(n / 10) + [('0' as int + n % 10) as char]
  }

  predicate IsDigit(c: char) { '0' <= c <= '9' }

  function Digits(s: string): nat
    requires All(s, IsDigit)
  {
    if s == "" then 0 else 10 * Digits(s[..|s| - 1]) + (s[|s| - 1] as int - '0' as int)
  }

  lemma {:induction false} DecimalReadBack(n: nat)
    ensures Decimal(n) != "" && All(Decimal(n), IsDigit) && Digits(Decimal(n)) == n
  {
    if n >= 10 {
      DecimalReadBack(n / 10);
      var s := Decimal(n);
      assert s[..|s| - 1] == Decimal(n / 10);
    } else {
      assert Decimal(n)[..0] == "";
    }
  }

  /** Different numbers are printed differently. */
  lemma DecimalIsInjective(m: nat, n: nat)
    ensures Decimal(m) == Decimal(n) ==> m == n
  {
    DecimalReadBack(m);
    DecimalReadBack(n);
  }
}

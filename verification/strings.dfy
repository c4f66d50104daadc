/** The small part of Python's `str` behaviour the tools rely on: whitespace
    stripping, case-insensitive suffix tests, `str(int)`, and single-character
    `str.replace`. */
module Strings {

  /** Python's `str.isspace()` on the characters a tool argument can
      reasonably hold: the ASCII whitespace, the information separators
      U+001C..U+001F, NEL and NO-BREAK SPACE. */
  predicate IsSpace(c: char) {
    c == ' ' || c == '\t' || c == '\n' || c == '\r' || c == '\U{0B}' || c == '\U{0C}'
    || ('\U{1C}' <= c <= '\U{1F}') || c == '\U{85}' || c == '\U{A0}'
  }

  /** `not s or s.strip() == ""`: the test every tool uses to fall back to a
      default directory or file name. */
  predicate IsBlank(s: string) {
    forall i :: 0 <= i < |s| ==> IsSpace(s[i])
  }

  /** `s.lstrip()` */
  function StripLeft(s: string): (r: string)
    ensures |r| <= |s| && r == s[|s| - |r|..]
    ensures r == [] || !IsSpace(r[0])
    ensures forall i :: 0 <= i < |s| - |r| ==> IsSpace(s[i])
  {
    if s == [] || !IsSpace(s[0]) then s else StripLeft(s[1..])
  }

  /** `s.rstrip()` */
  function StripRight(s: string): (r: string)
    ensures |r| <= |s| && r == s[..|r|]
    ensures r == [] || !IsSpace(r[|r| - 1])
    ensures forall i :: |r| <= i < |s| ==> IsSpace(s[i])
  {
    if s == [] || !IsSpace(s[|s| - 1]) then s else StripRight(s[..|s| - 1])
  }

  /** How many whitespace characters `s.lstrip()` removes. */
  function LeadingSpaces(s: string): (n: nat)
    ensures n <= |s|
  {
    |s| - |StripLeft(s)|
  }

  /** `s.strip()`: the result is the piece of `s` after its leading
      whitespace, everything cut away on either side is whitespace, and it
      neither starts nor ends with whitespace. */
  function Strip(s: string): (r: string)
    ensures LeadingSpaces(s) + |r| <= |s|
    ensures r == s[LeadingSpaces(s)..LeadingSpaces(s) + |r|]
    ensures forall i :: 0 <= i < LeadingSpaces(s) ==> IsSpace(s[i])
    ensures forall i :: LeadingSpaces(s) + |r| <= i < |s| ==> IsSpace(s[i])
    ensures r == [] || (!IsSpace(r[0]) && !IsSpace(r[|r| - 1]))
  {
    StripRight(StripLeft(s))
  }

  /** Stripping leaves nothing exactly when the string is blank, so the
      source's two spellings of the test (`not s.strip()` and
      `s.strip() == ""`) agree with `IsBlank`. */
  lemma StripEmptyIffBlank(s: string)
    ensures Strip(s) == [] <==> IsBlank(s)
  {
  }

  /** Nothing to strip from a string that already starts and ends with a
      non-space. */
  lemma StripTrimmed(s: string)
    requires s != [] && !IsSpace(s[0]) && !IsSpace(s[|s| - 1])
    ensures Strip(s) == s
  {
  }

  predicate StartsWith(s: string, prefix: string) {
    |prefix| <= |s| && s[..|prefix|] == prefix
  }

  predicate EndsWith(s: string, suffix: string) {
    |suffix| <= |s| && s[|s| - |suffix|..] == suffix
  }

  lemma EndsWithAppend(x: string, suffix: string)
    ensures EndsWith(x + suffix, suffix)
  {
    assert (x + suffix)[|x|..] == suffix;
  }

  lemma EndsWithTrans(s: string, t: string, u: string)
    requires EndsWith(s, t) && EndsWith(t, u)
    ensures EndsWith(s, u)
  {
    assert s[|s| - |u|..] == s[|s| - |t|..][|t| - |u|..];
  }

  /** `sep.join(xs)`. */
  function JoinWith(sep: string, xs: seq<string>): string {
    if xs == [] then ""
    else if |xs| == 1 then xs[0]
    else xs[0] + sep + JoinWith(sep, xs[1..])
  }

  /** Python's `str.lower()` restricted to ASCII letters. */
  function LowerChar(c: char): char {
    if 'A' <= c <= 'Z' then (c as int - 'A' as int + 'a' as int) as char else c
  }

  function Lower(s: string): (r: string)
    ensures |r| == |s|
    ensures forall i :: 0 <= i < |s| ==> r[i] == LowerChar(s[i])
  {
    if s == [] then [] else [LowerChar(s[0])] + Lower(s[1..])
  }

  /** `s.lower().endswith(suffix)` for a lower-case suffix is a
      case-insensitive test on the last `|suffix|` characters. */
  lemma LowerEndsWith(s: string, suffix: string)
    requires |suffix| <= |s|
    ensures EndsWith(Lower(s), suffix)
            <==> forall i :: 0 <= i < |suffix| ==> LowerChar(s[|s| - |suffix| + i]) == suffix[i]
  {
    var ls := Lower(s);
    var tail := ls[|s| - |suffix|..];
    if EndsWith(ls, suffix) {
      forall i | 0 <= i < |suffix|
        ensures LowerChar(s[|s| - |suffix| + i]) == suffix[i]
      {
        assert suffix[i] == tail[i] == ls[|s| - |suffix| + i];
      }
    }
    if forall i :: 0 <= i < |suffix| ==> LowerChar(s[|s| - |suffix| + i]) == suffix[i] {
      forall i | 0 <= i < |suffix|
        ensures tail[i] == suffix[i]
      {
        assert tail[i] == ls[|s| - |suffix| + i];
      }
      assert tail == suffix;
    }
  }

  // ---------------------------------------------------------------------
  // str(int)

  predicate IsDigit(c: char) {
    '0' <= c <= '9'
  }

  function DigitChar(d: nat): (c: char)
    requires d < 10
    ensures IsDigit(c) && c as int - '0' as int == d
  {
    ('0' as int + d) as char
  }

  /** Python's `str(n)` for a non-negative integer: decimal, no leading zero. */
  function NatToString(n: nat): (r: string)
    ensures |r| > 0
    ensures forall i :: 0 <= i < |r| ==> IsDigit(r[i])
    ensures |r| > 1 ==> r[0] != '0'
    decreases n
  {
    if n < 10 then [DigitChar(n)] else NatToString(n / 10) + [DigitChar(n % 10)]
  }

  function DigitValue(c: char): (d: nat)
    requires IsDigit(c)
    ensures d < 10
  {
    c as int - '0' as int
  }

  /** `int(s)` for a string of decimal digits: the partner of `NatToString`. */
  function ParseDigits(s: string): nat
    requires forall i :: 0 <= i < |s| ==> IsDigit(s[i])
  {
    if s == [] then 0
    else ParseDigits(s[..|s| - 1]) * 10 + DigitValue(s[|s| - 1])
  }

  /** Reading back the decimal text of `n` gives `n`. */
  lemma {:induction false} ParseNatToString(n: nat)
    ensures ParseDigits(NatToString(n)) == n
    decreases n
  {
    if n >= 10 {
      var r := NatToString(n);
      assert r[..|r| - 1] == NatToString(n / 10);
      ParseNatToString(n / 10);
    }
  }

  /** Distinct numbers have distinct decimal texts. */
  lemma NatToStringInjective(a: nat, b: nat)
    requires NatToString(a) == NatToString(b)
    ensures a == b
  {
    ParseNatToString(a);
    ParseNatToString(b);
  }

  /** Python's `str(i)` / f-string formatting of any integer. */
  function IntToString(i: int): (r: string)
    ensures |r| > 0
    ensures i < 0 <==> r[0] == '-'
  {
    if i < 0 then "-" + NatToString(-i) else NatToString(i)
  }

  // ---------------------------------------------------------------------
  // str.replace with a one-character pattern

  /** `s.replace(c, by)`: every occurrence of `c` becomes `repl`; other
      characters are copied. */
  function Replace(s: string, c: char, repl: string): string {
    if s == [] then []
    else (if s[0] == c then repl else [s[0]]) + Replace(s[1..], c, repl)
  }

  lemma {:induction false} ReplaceAppend(a: string, b: string, c: char, repl: string)
    ensures Replace(a + b, c, repl) == Replace(a, c, repl) + Replace(b, c, repl)
    decreases |a|
  {
    if a != [] {
      assert (a + b)[1..] == a[1..] + b;
      ReplaceAppend(a[1..], b, c, repl);
    } else {
      assert a + b == b;
    }
  }

  /** Number of occurrences of a character. */
  function Count(s: string, c: char): nat {
    if s == [] then 0 else (if s[0] == c then 1 else 0) + Count(s[1..], c)
  }

  lemma {:induction false} CountAppend(a: string, b: string, c: char)
    ensures Count(a + b, c) == Count(a, c) + Count(b, c)
    decreases |a|
  {
    if a != [] {
      assert (a + b)[1..] == a[1..] + b;
      CountAppend(a[1..], b, c);
    } else {
      assert a + b == b;
    }
  }

  lemma {:induction false} CountZero(s: string, c: char)
    ensures Count(s, c) == 0 <==> c !in s
    decreases |s|
  {
    if s != [] {
      CountZero(s[1..], c);
      assert s == [s[0]] + s[1..];
    }
  }
}

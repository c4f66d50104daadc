/** Every report in the source is built by appending f-strings that each end in
    a newline, so a report is a list of lines joined by `Unlines`. Reading a
    report back is Python's `text.split("\n")`, here `SplitLines`; the two are
    inverse to each other, which is what lets the heading lemmas of the report
    modules talk about "the lines of the document". */
module Lines {
  import opened Strings

  /** Each line followed by a newline, concatenated. */
  function Unlines(ls: seq<string>): string {
    if ls == [] then "" else ls[0] + "\n" + Unlines(ls[1..])
  }

  lemma {:induction false} UnlinesAppend(a: seq<string>, b: seq<string>)
    ensures Unlines(a + b) == Unlines(a) + Unlines(b)
    decreases |a|
  {
    if a == [] {
      assert a + b == b;
    } else {
      assert (a + b)[1..] == a[1..] + b;
      UnlinesAppend(a[1..], b);
    }
  }

  lemma ConcatAssoc<T>(a: seq<T>, b: seq<T>, c: seq<T>)
    ensures a + (b + c) == a + b + c
  {
  }

  lemma DropPrefix<T>(a: seq<T>, b: seq<T>)
    ensures (a + b)[|a|..] == b
  {
  }

  lemma TakePrefix<T>(a: seq<T>, b: seq<T>)
    ensures (a + b)[..|a|] == a
  {
  }

  lemma MiddleOf<T>(a: seq<T>, m: seq<T>, b: seq<T>)
    ensures (a + m + b)[|a|..|a| + |m|] == m
  {
  }

  /** A sequence is its part before index `k`, the element at `k` and its
      part after. */
  lemma AroundIndex<T>(s: seq<T>, k: nat)
    requires k < |s|
    ensures s == s[..k] + [s[k]] + s[k + 1..]
  {
  }

  lemma Unlines4(a: string, b: string, c: string, d: string)
    ensures Unlines([a, b, c, d]) == a + "\n" + b + "\n" + c + "\n" + d + "\n"
  {
    var ls := [a, b, c, d];
    calc {
      Unlines(ls);
      { assert ls[1..] == [b, c, d]; }
      a + "\n" + Unlines([b, c, d]);
      { assert [b, c, d][1..] == [c, d]; }
      a + "\n" + (b + "\n" + Unlines([c, d]));
      { assert [c, d][1..] == [d]; }
      a + "\n" + (b + "\n" + (c + "\n" + Unlines([d])));
      { assert [d][1..] == []; }
      a + "\n" + (b + "\n" + (c + "\n" + (d + "\n" + "")));
      { assert d + "\n" + "" == d + "\n"; }
      a + "\n" + (b + "\n" + (c + "\n" + (d + "\n")));
      { ConcatAssoc(c + "\n", d, "\n"); }
      a + "\n" + (b + "\n" + (c + "\n" + d + "\n"));
      { ConcatAssoc(b + "\n", c + "\n" + d, "\n"); ConcatAssoc(b + "\n", c + "\n", d); ConcatAssoc(b + "\n", c, "\n"); }
      a + "\n" + (b + "\n" + c + "\n" + d + "\n");
      { ConcatAssoc(a + "\n", b + "\n" + c + "\n" + d, "\n");
        ConcatAssoc(a + "\n", b + "\n" + c + "\n", d);
        ConcatAssoc(a + "\n", b + "\n" + c, "\n");
        ConcatAssoc(a + "\n", b + "\n", c);
        ConcatAssoc(a + "\n", b, "\n"); }
      a + "\n" + b + "\n" + c + "\n" + d + "\n";
    }
  }

  predicate NoNewline(s: string) {
    '\n' !in s
  }

  predicate AllNoNewline(ls: seq<string>) {
    forall i :: 0 <= i < |ls| ==> NoNewline(ls[i])
  }

  lemma NoNewlineJoin(a: string, b: string)
    requires NoNewline(a) && NoNewline(b)
    ensures NoNewline(a + b)
  {
  }

  lemma AllNoNewlineAppend(a: seq<string>, b: seq<string>)
    requires AllNoNewline(a) && AllNoNewline(b)
    ensures AllNoNewline(a + b)
  {
    forall i | 0 <= i < |a + b|
      ensures NoNewline((a + b)[i])
    {
      if i >= |a| {
        assert (a + b)[i] == b[i - |a|];
      }
    }
  }

  /** Index of the first newline. */
  function FirstNewline(s: string): (k: nat)
    requires '\n' in s
    ensures k < |s| && s[k] == '\n' && '\n' !in s[..k]
  {
    if s[0] == '\n' then 0
    else
      assert '\n' in s[1..] by {
        var j :| 0 <= j < |s| && s[j] == '\n';
        assert s[1..][j - 1] == '\n';
      }
      var k := 1 + FirstNewline(s[1..]);
      assert s[..k] == [s[0]] + s[1..][..k - 1];
      k
  }

  /** Python's `s.split("\n")`: the pieces between newlines, always at least
      one, none containing a newline. */
  function SplitLines(s: string): (r: seq<string>)
    ensures |r| >= 1
    ensures AllNoNewline(r)
    decreases |s|
  {
    if '\n' in s then
      var k := FirstNewline(s);
      [s[..k]] + SplitLines(s[k + 1..])
    else [s]
  }

  /** Splitting a line followed by a newline and more text. */
  lemma SplitLinesCons(line: string, rest: string)
    requires NoNewline(line)
    ensures SplitLines(line + "\n" + rest) == [line] + SplitLines(rest)
  {
    var s := line + "\n" + rest;
    assert s[|line|] == '\n';
    var k := FirstNewline(s);
    assert s[..k] == line;
    assert s[k + 1..] == rest;
  }

  /** Splitting a document built from newline-free lines gives those lines
      back, followed by the empty piece after the final newline. */
  lemma SplitUnlines(ls: seq<string>)
    requires AllNoNewline(ls)
    ensures SplitLines(Unlines(ls)) == ls + [""]
  {
    SplitUnlinesThen(ls, "");
    assert Unlines(ls) + "" == Unlines(ls);
    assert SplitLines("") == [""] by { assert '\n' !in ""; }
  }

  /** Splitting newline-free lines followed by any text. */
  lemma {:induction false} SplitUnlinesThen(ls: seq<string>, rest: string)
    requires AllNoNewline(ls)
    ensures SplitLines(Unlines(ls) + rest) == ls + SplitLines(rest)
    decreases |ls|
  {
    if ls != [] {
      var head, tail := ls[0], ls[1..];
      var t := Unlines(tail) + rest;
      assert NoNewline(head) && AllNoNewline(tail);
      calc {
        SplitLines(Unlines(ls) + rest);
        { assert Unlines(ls) + rest == head + "\n" + t; }
        SplitLines(head + "\n" + t);
        { SplitLinesCons(head, t); }
        [head] + SplitLines(t);
        { SplitUnlinesThen(tail, rest); }
        [head] + (tail + SplitLines(rest));
        { assert ls == [head] + tail; }
        ls + SplitLines(rest);
      }
    } else {
      assert Unlines(ls) + rest == rest;
    }
  }

  /** Splitting two texts joined by a newline splits each of them. */
  lemma {:induction false} SplitLinesJoin(x: string, rest: string)
    ensures SplitLines(x + "\n" + rest) == SplitLines(x) + SplitLines(rest)
    decreases |x|
  {
    if '\n' in x {
      var k := FirstNewline(x);
      var line, tail := x[..k], x[k + 1..];
      assert x == line + "\n" + tail by { AroundIndex(x, k); }
      calc {
        SplitLines(x + "\n" + rest);
        { ConcatAssoc(line + "\n" + tail, "\n", rest);
          ConcatAssoc(line + "\n", tail, "\n" + rest);
          ConcatAssoc(tail, "\n", rest); }
        SplitLines(line + "\n" + (tail + "\n" + rest));
        { SplitLinesCons(line, tail + "\n" + rest); }
        [line] + SplitLines(tail + "\n" + rest);
        { SplitLinesJoin(tail, rest); }
        [line] + (SplitLines(tail) + SplitLines(rest));
        { ConcatAssoc([line], SplitLines(tail), SplitLines(rest)); }
        [line] + SplitLines(tail) + SplitLines(rest);
        { SplitLinesCons(line, tail); }
        SplitLines(x) + SplitLines(rest);
      }
    } else {
      SplitLinesCons(x, rest);
    }
  }

  /** The other direction: joining the pieces of any text restores the text,
      plus the trailing newline `Unlines` always writes. */
  lemma {:induction false} UnlinesSplit(s: string)
    ensures Unlines(SplitLines(s)) == s + "\n"
    decreases |s|
  {
    if '\n' in s {
      var k := FirstNewline(s);
      var line, rest := s[..k], s[k + 1..];
      var pieces := SplitLines(rest);
      calc {
        Unlines(SplitLines(s));
        Unlines([line] + pieces);
        { assert ([line] + pieces)[1..] == pieces; }
        line + "\n" + Unlines(pieces);
        { UnlinesSplit(rest); }
        line + "\n" + (rest + "\n");
        { assert s == line + "\n" + rest; }
        s + "\n";
      }
    } else {
      assert SplitLines(s) == [s];
      assert Unlines([s]) == s + "\n" + Unlines([]);
    }
  }

  /** Joining the pieces of any text with newlines, as `"\n".join` does,
      restores the text. */
  lemma {:induction false} JoinSplitLines(s: string)
    ensures JoinWith("\n", SplitLines(s)) == s
    decreases |s|
  {
    if '\n' in s {
      var k := FirstNewline(s);
      var line, rest := s[..k], s[k + 1..];
      var pieces := SplitLines(rest);
      assert SplitLines(s) == [line] + pieces;
      assert ([line] + pieces)[1..] == pieces;
      JoinSplitLines(rest);
      assert s == line + "\n" + rest;
    } else {
      assert SplitLines(s) == [s];
    }
  }

  // ---------------------------------------------------------------------
  // Headings

  /** The texts of the lines that start with `marker` (e.g. `"### "`), in
      document order. */
  function Headings(marker: string, ls: seq<string>): seq<string> {
    if ls == [] then []
    else (if StartsWith(ls[0], marker) then [ls[0][|marker|..]] else [])
         + Headings(marker, ls[1..])
  }

  lemma {:induction false} HeadingsAppend(marker: string, a: seq<string>, b: seq<string>)
    ensures Headings(marker, a + b) == Headings(marker, a) + Headings(marker, b)
    decreases |a|
  {
    if a == [] {
      assert a + b == b;
    } else {
      var first := if StartsWith(a[0], marker) then [a[0][|marker|..]] else [];
      calc {
        Headings(marker, a + b);
        { assert (a + b)[0] == a[0] && (a + b)[1..] == a[1..] + b; }
        first + Headings(marker, a[1..] + b);
        { HeadingsAppend(marker, a[1..], b); }
        first + (Headings(marker, a[1..]) + Headings(marker, b));
        { ConcatAssoc(first, Headings(marker, a[1..]), Headings(marker, b)); }
        Headings(marker, a) + Headings(marker, b);
      }
    }
  }

  const H2: string := "## "
  const H3: string := "### "

  /** The headings of a rendered document are the headings of its lines. */
  function DocumentHeadings(marker: string, doc: string): seq<string> {
    Headings(marker, SplitLines(doc))
  }

  lemma DocumentHeadingsOfLines(marker: string, ls: seq<string>)
    requires AllNoNewline(ls)
    requires !StartsWith("", marker)
    ensures DocumentHeadings(marker, Unlines(ls)) == Headings(marker, ls)
  {
    SplitUnlines(ls);
    HeadingsAppend(marker, ls, [""]);
  }
}

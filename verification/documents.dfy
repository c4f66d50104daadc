/** Pieces the document tools of both packages share: the text a PDF's pages
    become, and the 500-character preview of the `business_analyst` readers. */
module Documents {
  import opened Strings
  import opened Lines

  /** The line that opens page `k` (counting from 1) in extracted PDF text. */
  function PageMarker(k: nat): string {
    "--- Page " + NatToString(k) + " ---"
  }

  /** Page texts joined as the readers join them: each page preceded by a
      newline, its marker and a newline; pages are numbered from `first`. */
  function PagesText(pages: seq<string>, first: nat): string {
    if pages == [] then ""
    else "\n" + PageMarker(first) + "\n" + pages[0] + PagesText(pages[1..], first + 1)
  }

  /** The lines a reader sees after the opening empty line: each page's
      marker followed by the lines of its text. */
  function PageLines(pages: seq<string>, first: nat): seq<string> {
    if pages == [] then []
    else [PageMarker(first)] + SplitLines(pages[0]) + PageLines(pages[1..], first + 1)
  }

  /** The index of the first line equal to `line`, or the number of lines
      when there is none. */
  function IndexOfLine(ls: seq<string>, line: string): (k: nat)
    ensures k <= |ls|
    ensures k < |ls| ==> ls[k] == line
    ensures forall j :: 0 <= j < k ==> ls[j] != line
  {
    if ls == [] then 0
    else if ls[0] == line then 0
    else 1 + IndexOfLine(ls[1..], line)
  }

  /** Reads pages back from the lines after the opening empty line. The
      first line is page `first`'s marker; the page runs up to the marker of
      page `first + 1`, or to the end, and its lines are joined again. */
  function ReadPages(ls: seq<string>, first: nat): seq<string>
    decreases |ls|
  {
    if ls == [] then []
    else
      var body := ls[1..];
      var k := IndexOfLine(body, PageMarker(first + 1));
      [JoinWith("\n", body[..k])] + ReadPages(body[k..], first + 1)
  }

  /** No page holds a line equal to the marker of the page after it. */
  predicate MarkerFree(pages: seq<string>, first: nat) {
    forall j :: 0 <= j < |pages| ==> PageMarker(first + j + 1) !in SplitLines(pages[j])
  }

  lemma PageMarkerPlain(k: nat)
    ensures NoNewline(PageMarker(k))
  {
    assert forall i :: 0 <= i < |NatToString(k)| ==> NatToString(k)[i] != '\n';
  }

  lemma PagesTextCons(pages: seq<string>, first: nat)
    requires pages != []
    ensures PagesText(pages, first)
            == "\n" + (PageMarker(first) + "\n" + (pages[0] + PagesText(pages[1..], first + 1)))
  {
  }

  /** Splitting any text followed by extracted PDF text: the text's own
      lines, then each page's marker and lines. */
  lemma {:induction false} SplitPagesText(prefix: string, pages: seq<string>, first: nat)
    ensures SplitLines(prefix + PagesText(pages, first)) == SplitLines(prefix) + PageLines(pages, first)
    decreases |pages|
  {
    if pages == [] {
      assert prefix + PagesText(pages, first) == prefix;
    } else {
      var m := PageMarker(first);
      var rest := PagesText(pages[1..], first + 1);
      var tail := m + "\n" + (pages[0] + rest);
      var lines := PageLines(pages[1..], first + 1);
      PageMarkerPlain(first);
      calc {
        SplitLines(prefix + PagesText(pages, first));
        { PagesTextCons(pages, first); }
        SplitLines(prefix + ("\n" + tail));
        { ConcatAssoc(prefix, "\n", tail); }
        SplitLines(prefix + "\n" + tail);
        { SplitLinesJoin(prefix, tail); }
        SplitLines(prefix) + SplitLines(tail);
        { SplitLinesCons(m, pages[0] + rest); }
        SplitLines(prefix) + ([m] + SplitLines(pages[0] + rest));
        { SplitPagesText(pages[0], pages[1..], first + 1); }
        SplitLines(prefix) + ([m] + (SplitLines(pages[0]) + lines));
        { ConcatAssoc([m], SplitLines(pages[0]), lines); }
        SplitLines(prefix) + PageLines(pages, first);
      }
    }
  }

  /** The first occurrence of `line` in `a + b`, when `a` lacks it and `b`
      is empty or starts with it, is at the end of `a`. */
  lemma {:induction false} IndexOfLineAfter(a: seq<string>, b: seq<string>, line: string)
    requires line !in a
    requires b == [] || b[0] == line
    ensures IndexOfLine(a + b, line) == |a|
    decreases |a|
  {
    if a == [] {
      assert a + b == b;
    } else {
      assert (a + b)[0] == a[0] && (a + b)[1..] == a[1..] + b;
      IndexOfLineAfter(a[1..], b, line);
    }
  }

  /** Reading a page whose lines lack the next marker, followed by lines
      that are empty or open with that marker. */
  lemma ReadPagesCons(ls: seq<string>, first: nat, own: seq<string>, lines: seq<string>)
    requires ls != [] && ls[1..] == own + lines
    requires PageMarker(first + 1) !in own
    requires lines == [] || lines[0] == PageMarker(first + 1)
    ensures ReadPages(ls, first) == [JoinWith("\n", own)] + ReadPages(lines, first + 1)
  {
    IndexOfLineAfter(own, lines, PageMarker(first + 1));
    TakePrefix(own, lines);
    DropPrefix(own, lines);
  }

  lemma MarkerFreeTail(pages: seq<string>, first: nat)
    requires pages != [] && MarkerFree(pages, first)
    ensures PageMarker(first + 1) !in SplitLines(pages[0])
    ensures MarkerFree(pages[1..], first + 1)
  {
    assert PageMarker(first + 0 + 1) !in SplitLines(pages[0]);
    forall j | 0 <= j < |pages[1..]|
      ensures PageMarker(first + 1 + j + 1) !in SplitLines(pages[1..][j])
    {
      assert pages[1..][j] == pages[j + 1];
      assert first + 1 + j + 1 == first + (j + 1) + 1;
    }
  }

  lemma PageLinesCons(pages: seq<string>, first: nat)
    requires pages != []
    ensures PageLines(pages, first) != []
    ensures PageLines(pages, first)[1..] == SplitLines(pages[0]) + PageLines(pages[1..], first + 1)
    ensures var rest := PageLines(pages[1..], first + 1);
            rest == [] || rest[0] == PageMarker(first + 1)
  {
    var own := SplitLines(pages[0]);
    var lines := PageLines(pages[1..], first + 1);
    DropPrefix([PageMarker(first)], own + lines);
    ConcatAssoc([PageMarker(first)], own, lines);
  }

  lemma {:induction false} ReadPageLines(pages: seq<string>, first: nat)
    requires MarkerFree(pages, first)
    ensures ReadPages(PageLines(pages, first), first) == pages
    decreases |pages|
  {
    if pages != [] {
      MarkerFreeTail(pages, first);
      PageLinesCons(pages, first);
      ReadPagesCons(PageLines(pages, first), first, SplitLines(pages[0]), PageLines(pages[1..], first + 1));
      JoinSplitLines(pages[0]);
      ReadPageLines(pages[1..], first + 1);
      assert pages == [pages[0]] + pages[1..];
    }
  }

  /** Splitting extracted PDF text into lines and reading the pages back
      from the lines after the first recovers the pages, provided no page
      holds a line equal to the next page's marker. Pages may span many
      lines. */
  lemma PagesRoundTrip(pages: seq<string>)
    requires MarkerFree(pages, 1)
    ensures var ls := SplitLines(PagesText(pages, 1));
            ls[0] == "" && ReadPages(ls[1..], 1) == pages
  {
    SplitPagesText("", pages, 1);
    assert "" + PagesText(pages, 1) == PagesText(pages, 1);
    assert SplitLines("") == [""] by { assert '\n' !in ""; }
    assert ([""] + PageLines(pages, 1))[1..] == PageLines(pages, 1);
    ReadPageLines(pages, 1);
  }

  /** Extracted PDF text is empty exactly when the PDF has no pages; a page
      always contributes its marker, even when its text is empty. */
  lemma PagesTextEmpty(pages: seq<string>, first: nat)
    ensures PagesText(pages, first) == "" <==> pages == []
    ensures pages != [] ==> !IsBlank(PagesText(pages, first))
  {
    if pages != [] {
      var t := PagesText(pages, first);
      assert t[1] == '-';
    }
  }

  const PreviewLimit: nat := 500

  /** The preview of the `business_analyst` readers: the first 500
      characters and an ellipsis when the text is longer, the whole text
      otherwise. */
  function ShortPreview(content: string): (r: string)
    ensures |content| <= PreviewLimit ==> r == content
    ensures |content| > PreviewLimit ==>
              |r| == PreviewLimit + 3 && r[..PreviewLimit] == content[..PreviewLimit]
              && EndsWith(r, "...")
  {
    if |content| > PreviewLimit then content[..PreviewLimit] + "..." else content
  }
}

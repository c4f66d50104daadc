/** The upload parser of the `business_analyst` package
    (`tools/parsing.py`, `parse_file`): it takes the first inline file of the
    user's message, extracts its text by media type, wraps the text in a
    Markdown analysis block and writes that block under a fixed directory.
    The PDF loader, the UTF-8 decoding, both clock readings and the write
    are parameters. */
module Parsing {
  import opened Wrappers
  import opened Strings
  import opened Lines
  import opened Paths
  import opened Clock
  import opened Host
  import opened Formatting

  const NoContentReply: string := "## Error\nNo content found in the message."
  const NoFileReply: string := "## Error\nNo file found in attached content."
  const DefaultFileName: string := "uploaded_file"
  const OutputDirectory: string := "/home/juhan"

  const NoPdfContent: string := "[Unable to extract content from PDF]"
  const BlankPdfContent: string := "[No text content found in PDF]"

  // ---------------------------------------------------------------------
  // Choosing the file

  /** The inline data of the first part that carries any. */
  function FirstInline(parts: seq<Part>): Option<Blob> {
    if parts == [] then None
    else if parts[0].inlineData.Some? then parts[0].inlineData
    else FirstInline(parts[1..])
  }

  /** The first part with inline data is the one chosen; with none there is
      no file. */
  lemma {:induction false} FirstInlineAt(parts: seq<Part>, k: int)
    requires 0 <= k <= |parts|
    requires forall j :: 0 <= j < k ==> parts[j].inlineData.None?
    ensures k < |parts| && parts[k].inlineData.Some? ==> FirstInline(parts) == parts[k].inlineData
    ensures k == |parts| ==> FirstInline(parts) == None
    decreases k
  {
    if k > 0 {
      FirstInlineAt(parts[1..], k - 1);
    }
  }

  /** Once a part with inline data is reached, the parts after it are never
      looked at. */
  lemma {:induction false} FirstInlineIgnoresRest(parts: seq<Part>, more: seq<Part>)
    requires exists j :: 0 <= j < |parts| && parts[j].inlineData.Some?
    ensures FirstInline(parts + more) == FirstInline(parts)
    decreases |parts|
  {
    assert (parts + more)[0] == parts[0];
    if parts[0].inlineData.None? {
      var j :| 0 <= j < |parts| && parts[j].inlineData.Some?;
      assert parts[1..][j - 1] == parts[j];
      assert (parts + more)[1..] == parts[1..] + more;
      FirstInlineIgnoresRest(parts[1..], more);
    }
  }

  /** `file_name.strip()`, or the generic name when nothing is left. */
  function FileName(fileName: string): (r: string)
    ensures IsBlank(fileName) ==> r == DefaultFileName
    ensures !IsBlank(fileName) ==> r == Strip(fileName) && r != []
  {
    var stripped := Strip(fileName);
    StripEmptyIffBlank(fileName);
    if stripped == [] then DefaultFileName else stripped
  }

  // ---------------------------------------------------------------------
  // Extracting the text

  /** Which extractor a file goes to: the media type decides first, the
      file name's ending (matched with its case) only for the text path. */
  datatype Kind = PdfKind | TextKind | OtherKind

  function KindOf(mimeType: Option<string>, name: string): Kind {
    if mimeType == Some("application/pdf") then PdfKind
    else if mimeType == Some("text/plain") || EndsWith(name, ".txt") || EndsWith(name, ".md") then TextKind
    else OtherKind
  }

  /** `mime_type or 'Unknown'`. */
  function MimeText(mimeType: Option<string>): (r: string)
    ensures r == "Unknown" <==> mimeType.None? || mimeType.value == "" || mimeType.value == "Unknown"
    ensures r != "Unknown" ==> mimeType == Some(r)
  {
    if mimeType.None? || mimeType.value == "" then "Unknown" else mimeType.value
  }

  /** The page texts the loader returned, without the empty ones. */
  function NonEmptyPages(pages: seq<string>): (r: seq<string>)
    ensures |r| <= |pages|
    ensures forall i :: 0 <= i < |r| ==> r[i] != ""
  {
    if pages == [] then []
    else (if pages[0] == "" then [] else [pages[0]]) + NonEmptyPages(pages[1..])
  }

  /** Exactly the non-empty pages are kept. */
  lemma {:induction false} NonEmptyPagesMembers(pages: seq<string>, x: string)
    ensures x in NonEmptyPages(pages) <==> x in pages && x != ""
    decreases |pages|
  {
    if pages != [] {
      NonEmptyPagesMembers(pages[1..], x);
      assert pages == [pages[0]] + pages[1..];
    }
  }

  /** Joining with a blank separator is blank exactly when every piece is. */
  lemma {:induction false} JoinWithBlank(sep: string, xs: seq<string>)
    requires IsBlank(sep)
    ensures IsBlank(JoinWith(sep, xs)) <==> forall i :: 0 <= i < |xs| ==> IsBlank(xs[i])
    decreases |xs|
  {
    if |xs| > 1 {
      JoinWithBlank(sep, xs[1..]);
      var rest := JoinWith(sep, xs[1..]);
      BlankConcat(xs[0], sep);
      BlankConcat(xs[0] + sep, rest);
      assert forall i :: 1 <= i < |xs| ==> xs[i] == xs[1..][i - 1];
      assert (forall i :: 0 <= i < |xs| ==> IsBlank(xs[i]))
             <==> IsBlank(xs[0]) && forall i :: 0 <= i < |xs[1..]| ==> IsBlank(xs[1..][i]);
    }
  }

  lemma BlankConcat(a: string, b: string)
    ensures IsBlank(a + b) <==> IsBlank(a) && IsBlank(b)
  {
    assert forall i :: 0 <= i < |a| ==> (a + b)[i] == a[i];
    assert forall i :: 0 <= i < |b| ==> (a + b)[|a| + i] == b[i];
  }

  /** The text of the PDF path: the loader's non-empty pages joined by a
      blank line, with a note in place of a document without pages or
      without text, and the error when the loader raises. */
  function PdfContent(load: Result<seq<string>>): string {
    match load
    case Fail(e) => "[Error extracting content: " + e + "]"
    case Ok(pages) =>
      if pages == [] then NoPdfContent
      else
        var joined := JoinWith("\n\n", NonEmptyPages(pages));
        if Strip(joined) == [] then BlankPdfContent else joined
  }

  /** A loaded document whose pages are all blank gets the blank note. */
  lemma PdfContentBlank(pages: seq<string>)
    requires pages != []
    requires forall i :: 0 <= i < |pages| ==> IsBlank(pages[i])
    ensures PdfContent(Ok(pages)) == BlankPdfContent
  {
    var kept := NonEmptyPages(pages);
    var joined := JoinWith("\n\n", kept);
    forall j | 0 <= j < |kept|
      ensures IsBlank(kept[j])
    {
      NonEmptyPagesMembers(pages, kept[j]);
    }
    assert IsBlank("\n\n");
    JoinWithBlank("\n\n", kept);
    StripEmptyIffBlank(joined);
  }

  /** A loaded document with a page that is not blank gets its non-empty
      pages, and that text is not blank. */
  lemma PdfContentText(pages: seq<string>, i: int)
    requires 0 <= i < |pages| && !IsBlank(pages[i])
    ensures PdfContent(Ok(pages)) == JoinWith("\n\n", NonEmptyPages(pages))
    ensures Strip(PdfContent(Ok(pages))) != []
  {
    var kept := NonEmptyPages(pages);
    var joined := JoinWith("\n\n", kept);
    var j := KeptPageNotBlank(pages, i);
    JoinWithNotBlank("\n\n", kept, j);
    PdfContentJoined(pages);
  }

  /** One piece that is not blank makes the joined text not blank. */
  lemma {:induction false} JoinWithNotBlank(sep: string, xs: seq<string>, j: int)
    requires 0 <= j < |xs| && !IsBlank(xs[j])
    ensures !IsBlank(JoinWith(sep, xs))
    decreases |xs|
  {
    if |xs| > 1 {
      var rest := JoinWith(sep, xs[1..]);
      assert JoinWith(sep, xs) == xs[0] + sep + rest;
      BlankConcat(xs[0] + sep, rest);
      BlankConcat(xs[0], sep);
      if j > 0 {
        assert xs[1..][j - 1] == xs[j];
        JoinWithNotBlank(sep, xs[1..], j - 1);
      }
    }
  }

  lemma PdfContentJoined(pages: seq<string>)
    requires pages != [] && !IsBlank(JoinWith("\n\n", NonEmptyPages(pages)))
    ensures PdfContent(Ok(pages)) == JoinWith("\n\n", NonEmptyPages(pages))
    ensures Strip(PdfContent(Ok(pages))) != []
  {
    StripEmptyIffBlank(JoinWith("\n\n", NonEmptyPages(pages)));
  }

  lemma KeptPageNotBlank(pages: seq<string>, i: int) returns (j: int)
    requires 0 <= i < |pages| && !IsBlank(pages[i])
    ensures 0 <= j < |NonEmptyPages(pages)| && !IsBlank(NonEmptyPages(pages)[j])
  {
    var kept := NonEmptyPages(pages);
    NonEmptyPagesMembers(pages, pages[i]);
    assert pages[i] != "";
    j :| 0 <= j < |kept| && kept[j] == pages[i];
  }

  /** The extracted text for each kind of file. */
  function Extracted(kind: Kind, mimeType: Option<string>, load: Result<seq<string>>, decoded: string): string
  {
    match kind
    case PdfKind => PdfContent(load)
    case TextKind => decoded
    case OtherKind => "[Unsupported file type: " + MimeText(mimeType) + "]"
  }

  // ---------------------------------------------------------------------
  // The analysis block

  function FenceHead(name: string, processedAt: DateTime, size: nat, mimeType: Option<string>): seq<string> {
    ["## File Analysis: " + name,
     "- Processing time: " + Display(processedAt),
     "- Size: " + FixedPoint(size, 1024, 2) + " KB",
     "- File type: " + MimeText(mimeType),
     "",
     "### Extracted Content",
     "```text"]
  }

  const FenceTail: seq<string> := ["```", "", "---", ""]

  /** The Markdown block: a heading naming the file, three facts about it,
      and the stripped text inside a `text` fence, closed by a rule. */
  function AnalysisBlock(name: string, processedAt: DateTime, size: nat, mimeType: Option<string>, content: string): string {
    Unlines(FenceHead(name, processedAt, size, mimeType)) + Strip(content) + "\n" + Unlines(FenceTail)
  }

  /** The head of the block is newline-free when the name and the media
      type are. */
  lemma FenceHeadLines(name: string, processedAt: DateTime, size: nat, mimeType: Option<string>)
    requires NoNewline(name) && NoNewline(MimeText(mimeType))
    ensures AllNoNewline(FenceHead(name, processedAt, size, mimeType))
  {
    DisplayDigits(processedAt);
    var l0 := "## File Analysis: " + name;
    var l1 := "- Processing time: " + Display(processedAt);
    var l2 := "- Size: " + FixedPoint(size, 1024, 2) + " KB";
    var l3 := "- File type: " + MimeText(mimeType);
    assert NoNewline(l0) by { assert NoNewline("## File Analysis: "); NoNewlineJoin("## File Analysis: ", name); }
    assert NoNewline(l1) by {
      assert NoNewline("- Processing time: ");
      NoNewlineJoin("- Processing time: ", Display(processedAt));
    }
    assert NoNewline(l2) by { FixedPointLine(size); }
    assert NoNewline(l3) by { assert NoNewline("- File type: "); NoNewlineJoin("- File type: ", MimeText(mimeType)); }
    FactLinesPlain(l0, l1, l2, l3);
  }

  /** Four newline-free fact lines followed by the fixed opening of the
      fence. */
  lemma FactLinesPlain(a: string, b: string, c: string, d: string)
    requires NoNewline(a) && NoNewline(b) && NoNewline(c) && NoNewline(d)
    ensures AllNoNewline([a, b, c, d, "", "### Extracted Content", "```text"])
  {
  }

  /** Splitting newline-free head lines, a text and newline-free closing
      lines. */
  lemma SplitFenced(head: seq<string>, body: string, tail: seq<string>)
    requires AllNoNewline(head) && AllNoNewline(tail)
    ensures SplitLines(Unlines(head) + body + "\n" + Unlines(tail))
            == head + SplitLines(body) + (tail + [""])
  {
    var after := body + "\n" + Unlines(tail);
    calc {
      SplitLines(Unlines(head) + body + "\n" + Unlines(tail));
      { ConcatAssoc(Unlines(head) + body, "\n", Unlines(tail));
        ConcatAssoc(Unlines(head), body, "\n" + Unlines(tail));
        ConcatAssoc(body, "\n", Unlines(tail)); }
      SplitLines(Unlines(head) + after);
      { SplitUnlinesThen(head, after); }
      head + SplitLines(after);
      { SplitLinesJoin(body, Unlines(tail)); }
      head + (SplitLines(body) + SplitLines(Unlines(tail)));
      { SplitUnlines(tail); }
      head + (SplitLines(body) + (tail + [""]));
      { ConcatAssoc(head, SplitLines(body), tail + [""]); }
      head + SplitLines(body) + (tail + [""]);
    }
  }

  /** Reading the block back: its first line is the heading with the file
      name, and the lines between the opening and the closing fence are the
      stripped text, line for line. */
  lemma AnalysisBlockReadBack(name: string, processedAt: DateTime, size: nat, mimeType: Option<string>, content: string)
    requires NoNewline(name) && NoNewline(MimeText(mimeType))
    ensures var ls := SplitLines(AnalysisBlock(name, processedAt, size, mimeType, content));
            |ls| >= 12
            && ls[0] == "## File Analysis: " + name
            && ls[6] == "```text" && ls[|ls| - 5] == "```"
            && Unlines(ls[7..|ls| - 5]) == Strip(content) + "\n"
  {
    var head := FenceHead(name, processedAt, size, mimeType);
    FenceShape(name, processedAt, size, mimeType);
    FencedReadBack(head, Strip(content), FenceTail);
  }

  /** The lines around the fenced text: seven newline-free head lines, the
      first naming the file and the last opening the fence, and four
      closing lines starting with the closing fence. */
  lemma FenceShape(name: string, processedAt: DateTime, size: nat, mimeType: Option<string>)
    requires NoNewline(name) && NoNewline(MimeText(mimeType))
    ensures var head := FenceHead(name, processedAt, size, mimeType);
            |head| == 7 && AllNoNewline(head)
            && head[0] == "## File Analysis: " + name && head[6] == "```text"
            && |FenceTail| == 4 && AllNoNewline(FenceTail) && FenceTail[0] == "```"
  {
    FenceHeadLines(name, processedAt, size, mimeType);
    assert AllNoNewline(FenceTail);
  }

  /** Seven head lines, a text and four closing lines, split back into
      lines: the text's lines sit between the seventh line and the closing
      lines. */
  lemma FencedReadBack(head: seq<string>, body: string, tail: seq<string>)
    requires |head| == 7 && |tail| == 4 && AllNoNewline(head) && AllNoNewline(tail)
    ensures var ls := SplitLines(Unlines(head) + body + "\n" + Unlines(tail));
            |ls| >= 12 && ls[0] == head[0] && ls[6] == head[6] && ls[|ls| - 5] == tail[0]
            && Unlines(ls[7..|ls| - 5]) == body + "\n"
  {
    var middle := SplitLines(body);
    SplitFenced(head, body, tail);
    MiddleOf(head, middle, tail + [""]);
    UnlinesSplit(body);
  }

  /** The size figure is digits and a point, one line. */
  lemma FixedPointLine(size: nat)
    ensures NoNewline("- Size: " + FixedPoint(size, 1024, 2) + " KB")
  {
    var s := FixedPoint(size, 1024, 2);
    var k := |s| - 3;
    FixedPointReadBack(size, 1024, 2);
    assert s == s[..k] + "." + s[k + 1..];
    NatToStringDigits(RoundedUnits(size, 1024, 2) / Power10(2));
    PaddedDigits(RoundedUnits(size, 1024, 2) % Power10(2), 2);
    assert forall c :: IsDigit(c) ==> c != '\n';
  }

  lemma NatToStringDigits(n: nat)
    ensures forall i :: 0 <= i < |NatToString(n)| ==> IsDigit(NatToString(n)[i])
  {
  }

  lemma PaddedDigits(n: nat, width: nat)
    ensures forall i :: 0 <= i < |Padded(n, width)| ==> IsDigit(Padded(n, width)[i])
  {
  }

  // ---------------------------------------------------------------------
  // The output file

  /** `splitext(basename(name))[0]`: the file name without directories or
      extension. */
  function Stem(name: string): (r: string)
    ensures '/' !in r
  {
    var base := BaseName(name);
    var parts := SplitExt(base);
    assert base == parts.0 + parts.1;
    assert forall i :: 0 <= i < |parts.0| ==> parts.0[i] == base[i];
    parts.0
  }

  /** The stem, the save time's stamp and `.md`. */
  function OutputName(name: string, savedAt: DateTime): string {
    Stem(name) + "_" + Stamp(savedAt) + ".md"
  }

  /** Always under the fixed directory, whatever directory the caller asks
      for. */
  function OutputPath(name: string, savedAt: DateTime): string {
    OutputDirectory + "/" + OutputName(name, savedAt)
  }

  /** A name without separators that ends in `.md` after something other
      than dots has `.md` as its extension. */
  lemma SplitExtMd(prefix: string)
    requires '/' !in prefix
    requires exists i :: 0 <= i < |prefix| && prefix[i] != '.'
    ensures SplitExt(prefix + ".md") == (prefix, ".md")
  {
    var p := prefix + ".md";
    assert p[|prefix|] == '.' && p[|prefix| + 1] == 'm' && p[|prefix| + 2] == 'd';
    assert LastIndex(p, '.') == |prefix|;
    assert '/' !in p by {
      assert forall i :: 0 <= i < |prefix| ==> p[i] == prefix[i];
    }
    assert LastIndex(p, '/') == -1;
    var i :| 0 <= i < |prefix| && prefix[i] != '.';
    assert p[i] != '.';
    assert p[..|prefix|] == prefix;
  }

  /** The stem, an underscore and a stamp hold no separator. */
  lemma StampedStem(stem: string, t: DateTime)
    requires '/' !in stem
    ensures '/' !in stem + "_" + Stamp(t)
    ensures (stem + "_" + Stamp(t))[|stem|] == '_'
  {
    var stamp := Stamp(t);
    var q := stem + "_" + stamp;
    StampShape(t);
    forall i | 0 <= i < |q|
      ensures q[i] != '/'
    {
      if i < |stem| {
        assert q[i] == stem[i];
      } else if i > |stem| {
        assert q[i] == stamp[i - |stem| - 1];
        assert i - |stem| - 1 == 8 || IsDigit(stamp[i - |stem| - 1]);
      }
    }
  }

  /** The output file sits directly in the fixed directory; its own
      extension is `.md`, and what precedes that is the stem of the upload's
      name and the stamp. */
  lemma OutputPathShape(name: string, savedAt: DateTime)
    ensures OutputPath(name, savedAt) == Join(OutputDirectory, OutputName(name, savedAt))
    ensures BaseName(OutputPath(name, savedAt)) == OutputName(name, savedAt)
    ensures SplitExt(OutputName(name, savedAt)) == (Stem(name) + "_" + Stamp(savedAt), ".md")
  {
    var out := OutputName(name, savedAt);
    OutputNameParts(name, savedAt);
    assert !StartsWith(out, "/") by {
      assert out[0] != '/';
    }
    assert OutputDirectory[|OutputDirectory| - 1] != '/';
    BaseNameJoin(OutputDirectory, out);
  }

  lemma OutputNameParts(name: string, savedAt: DateTime)
    ensures OutputName(name, savedAt) != [] && '/' !in OutputName(name, savedAt)
    ensures SplitExt(OutputName(name, savedAt)) == (Stem(name) + "_" + Stamp(savedAt), ".md")
  {
    var prefix := Stem(name) + "_" + Stamp(savedAt);
    StampedStem(Stem(name), savedAt);
    assert OutputName(name, savedAt) == prefix + ".md";
    assert prefix[|Stem(name)|] != '.';
    SplitExtMd(prefix);
    assert '/' !in ".md";
  }

  // ---------------------------------------------------------------------
  // The tool

  /** What the tool says back, and the file it writes, if any. */
  datatype Written = Written(path: string, text: string)
  datatype ParseOutcome = ParseOutcome(reply: string, file: Option<Written>)

  /** The chosen blob, when the message carries parts and one of them has
      non-empty inline data. */
  function Upload(content: Option<Content>): Option<Blob> {
    if content.None? || content.value.parts.None? || content.value.parts.value == [] then None
    else
      var blob := FirstInline(content.value.parts.value);
      if blob.None? || blob.value.data == [] then None else blob
  }

  /** `parse_file`. `load` is what the PDF loader gives for the bytes,
      `decoded` the bytes decoded as UTF-8 dropping invalid sequences,
      `processedAt` and `savedAt` the two clock readings, and `writeError`
      the error of the write, if it fails. */
  function ParseFile(fileName: string, content: Option<Content>, load: Result<seq<string>>, decoded: string,
                     processedAt: DateTime, savedAt: DateTime, writeError: Option<string>): (r: ParseOutcome)
    ensures (content.None? || content.value.parts.None? || content.value.parts.value == []) ==>
              r == ParseOutcome(NoContentReply, None)
    ensures content.Some? && content.value.parts.Some? && content.value.parts.value != [] && Upload(content).None? ==>
              r == ParseOutcome(NoFileReply, None)
    ensures r.file.Some? <==> Upload(content).Some? && writeError.None?
    ensures Upload(content).Some? && writeError.Some? ==>
              r == ParseOutcome("Error: Could not save file - " + writeError.value, None)
    ensures r.file.Some? ==>
              var blob := Upload(content).value;
              var name := FileName(fileName);
              r.reply == OutputPath(name, savedAt) == r.file.value.path
              && r.file.value.text
                 == AnalysisBlock(name, processedAt, |blob.data|, blob.mimeType,
                                  Extracted(KindOf(blob.mimeType, name), blob.mimeType, load, decoded))
  {
    if content.None? || content.value.parts.None? || content.value.parts.value == [] then
      ParseOutcome(NoContentReply, None)
    else if Upload(content).None? then ParseOutcome(NoFileReply, None)
    else
      var blob := Upload(content).value;
      var name := FileName(fileName);
      var text := Extracted(KindOf(blob.mimeType, name), blob.mimeType, load, decoded);
      var block := AnalysisBlock(name, processedAt, |blob.data|, blob.mimeType, text);
      match writeError
      case Some(e) => ParseOutcome("Error: Could not save file - " + e, None)
      case None => ParseOutcome(OutputPath(name, savedAt), Some(Written(OutputPath(name, savedAt), block)))
  }

  /** Parts after the first one with inline data change nothing. */
  lemma LaterPartsIgnored(fileName: string, parts: seq<Part>, more: seq<Part>, load: Result<seq<string>>,
                          decoded: string, processedAt: DateTime, savedAt: DateTime, writeError: Option<string>)
    requires exists j :: 0 <= j < |parts| && parts[j].inlineData.Some?
    ensures ParseFile(fileName, Some(Content(Some(parts + more))), load, decoded, processedAt, savedAt, writeError)
            == ParseFile(fileName, Some(Content(Some(parts))), load, decoded, processedAt, savedAt, writeError)
  {
    var long := Some(Content(Some(parts + more)));
    var short := Some(Content(Some(parts)));
    assert parts + more != [] && parts != [];
    assert Upload(long) == Upload(short) by { FirstInlineIgnoresRest(parts, more); }
  }

  /** The dispatch for every upload. The PDF type wins over any name. The
      text type, or a name ending in `.txt` or `.md`, gives text. Anything
      else is unsupported, including a name whose ending spells `.txt` or
      `.md` in other letter cases, since the ending is matched with its case. */
  lemma DispatchOrder(mimeType: Option<string>, name: string)
    ensures KindOf(mimeType, name) == PdfKind <==> mimeType == Some("application/pdf")
    ensures KindOf(mimeType, name) == TextKind
            <==> mimeType != Some("application/pdf")
                 && (mimeType == Some("text/plain") || EndsWith(name, ".txt") || EndsWith(name, ".md"))
    ensures (mimeType != Some("application/pdf") && mimeType != Some("text/plain")
             && (EndsWith(name, ".TXT") || EndsWith(name, ".MD")))
            ==> KindOf(mimeType, name) == OtherKind
  {
    if mimeType != Some("application/pdf") && mimeType != Some("text/plain") {
      if EndsWith(name, ".TXT") {
        CaseVariantUnsupported(mimeType, name, ".TXT");
      }
      if EndsWith(name, ".MD") {
        CaseVariantUnsupported(mimeType, name, ".MD");
      }
    }
  }

  /** A name ending in a case variant of `.txt` or `.md`, other than those
      two spellings, does not make an upload text. */
  lemma CaseVariantUnsupported(mimeType: Option<string>, name: string, ending: string)
    requires mimeType != Some("application/pdf") && mimeType != Some("text/plain")
    requires (Lower(ending) == ".txt" && ending != ".txt") || (Lower(ending) == ".md" && ending != ".md")
    requires EndsWith(name, ending)
    ensures KindOf(mimeType, name) == OtherKind
  {
    var n := |name|;
    var k := |ending|;
    assert name[n - 1] == ending[k - 1] by {
      assert name[n - k..][k - 1] == ending[k - 1];
    }
    assert !EndsWith(name, ".txt") by {
      if k == 4 {
        assert Lower(ending) == ".txt";
      } else {
        assert LowerChar(ending[2]) == Lower(ending)[2] == 'd';
      }
    }
    assert !EndsWith(name, ".md") by {
      if k == 3 {
        assert Lower(ending) == ".md";
      } else {
        assert LowerChar(ending[3]) == Lower(ending)[3] == 't';
      }
    }
  }

  /** Three instances: a PDF called `notes.md` is read as a PDF, an upload
      of unknown type called `NOTES.TXT` is not read at all, and one called
      `notes.txt` is read as text. */
  lemma DispatchExamples()
    ensures KindOf(Some("application/pdf"), "notes.md") == PdfKind
    ensures KindOf(None, "NOTES.TXT") == OtherKind
    ensures KindOf(None, "notes.txt") == TextKind
  {
    assert "notes.md"[5..] == ".md";
    assert "notes.txt"[5..] == ".txt";
    assert "NOTES.TXT"[5..] != ".txt";
    assert "NOTES.TXT"[6..] != ".md";
  }
}

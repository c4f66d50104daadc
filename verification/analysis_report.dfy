/** The combined report of the `business_analyst` package
    (`save_to_markdown_tool`, written twice, in `tools/file.py` and in
    `tools/read_file.py`): one Markdown document with a section for each
    stage output present in the session, the analyst's use-case text pasted
    in verbatim. Unlike the per-stage exporters it tests only that a key is
    present, so an empty record still gets its section and any text in a
    record slot, even empty text, makes the export fail. */
module AnalysisReport {
  import opened Wrappers
  import opened Strings
  import opened Lines
  import opened Records
  import opened Paths
  import opened Clock
  import opened ReportBlocks
  import opened StageExport
  import Host

  const ReportTitle: string := "Business Analysis Output"
  const DefaultReportDirectory: string := "assets/output"

  function ReportFileName(savedAt: DateTime): string {
    "analysis_output_version_" + Stamp(savedAt) + ".md"
  }

  /** The report raises: one of the record slots holds text, whose `.get`
      does not exist. */
  predicate Crashes(s: State) {
    LookupPresent(s.requirements).Crash? || LookupPresent(s.dataObjects).Crash?
    || LookupPresent(s.actors).Crash?
  }

  /** A `##` section: its heading line, a blank line, its lines. */
  function Chapter(title: string, body: seq<string>): seq<string> {
    ["## " + title, ""] + body
  }

  /** The record sections, in report order: requirements, data objects,
      actors; each present exactly when its key is. */
  function RecordChapters(s: State): seq<string>
    requires !Crashes(s)
  {
    (if s.requirements.Dict? then Chapter("Requirements", RequirementsBlock(s.requirements.dict.requirements.GetOr([]))) else [])
    + (if s.dataObjects.Dict? then Chapter("Data Objects", DataObjectsBlock(s.dataObjects.dict.dataObjects.GetOr([]))) else [])
    + (if s.actors.Dict? then Chapter("Actors", ActorsSection(s.actors.dict)) else [])
  }

  /** The use-case section: the analyst's text followed by a blank line. */
  function UseCasesChapter(text: string): seq<string> {
    Chapter("Use Cases", [text, ""])
  }

  function ReportLines(s: State, generatedAt: DateTime): seq<string>
    requires !Crashes(s)
  {
    Header(ReportTitle, Display(generatedAt)) + RecordChapters(s)
    + (if s.analystOutput.Some? then UseCasesChapter(s.analystOutput.value) else [])
  }

  /** `save_to_markdown_tool`: `generatedAt` and `savedAt` are the two clock
      readings, `writeError` the outcome of writing the file. The output
      directory is created after the report is built and before the file is
      opened, so an empty output path fails there. */
  function SaveReport(s: State, outputPath: string, generatedAt: DateTime, savedAt: DateTime,
                      writeError: Option<string>): (r: ExportResult)
    ensures r.ExportFailed? <==> Crashes(s) || outputPath == "" || writeError.Some?
    ensures Crashes(s) ==> r.message == "Error exporting state: " + AttributeErrorText
    ensures !Crashes(s) && outputPath == "" ==> r.message == "Error exporting state: " + Host.EmptyPathError
    ensures !Crashes(s) && outputPath != "" && writeError.Some? ==>
              r.message == "Error writing to file: " + writeError.value
    ensures r.Exported? ==>
              r.outputFile == Join(outputPath, ReportFileName(savedAt))
              && r.message == "Successfully exported state to " + r.outputFile
  {
    if Crashes(s) then ExportFailed("Error exporting state: " + AttributeErrorText)
    else if outputPath == "" then ExportFailed("Error exporting state: " + Host.EmptyPathError)
    else if writeError.Some? then ExportFailed("Error writing to file: " + writeError.value)
    else
      var outputFile := Join(outputPath, ReportFileName(savedAt));
      Exported(outputFile, Unlines(ReportLines(s, generatedAt)), "Successfully exported state to " + outputFile)
  }

  // ---------------------------------------------------------------------
  // Properties

  /** Without a crash or a write error the report is written exactly when
      the output path is not empty, and the file's base name is its stamped
      name, whatever directory it goes to. */
  lemma ReportFile(s: State, outputPath: string, generatedAt: DateTime, savedAt: DateTime)
    requires !Crashes(s)
    ensures var r := SaveReport(s, outputPath, generatedAt, savedAt, None);
            (r.Exported? <==> outputPath != "")
            && (r.Exported? ==> BaseName(r.outputFile) == ReportFileName(savedAt) && EndsWith(r.outputFile, ".md"))
  {
    var stamp := Stamp(savedAt);
    var n := ReportFileName(savedAt);
    StampShape(savedAt);
    assert '/' !in stamp by {
      forall i | 0 <= i < |stamp|
        ensures stamp[i] != '/'
      {
        if i != 8 {
          assert IsDigit(stamp[i]);
        }
      }
    }
    assert '/' !in n by {
      assert '/' !in "analysis_output_version_" && '/' !in ".md";
    }
    BaseNameJoin(outputPath, n);
    EndsWithAppend("analysis_output_version_" + stamp, ".md");
    EndsWithTrans(Join(outputPath, n), n, ".md");
  }

  /** Every record slot holds a record whose printed fields keep to one line. */
  predicate PlainRecords(s: State) {
    (s.requirements.Dict? ==> PlainRequirements(s.requirements.dict.requirements.GetOr([])))
    && (s.dataObjects.Dict? ==> PlainDataObjects(s.dataObjects.dict.dataObjects.GetOr([])))
    && (s.actors.Dict? ==> PlainActors(s.actors.dict))
  }

  /** The `##` titles of the record sections present, in report order. */
  function RecordTitles(s: State): seq<string> {
    (if s.requirements.Dict? then ["Requirements"] else [])
    + (if s.dataObjects.Dict? then ["Data Objects"] else [])
    + (if s.actors.Dict? then ["Actors"] else [])
  }

  /** The `###` headings the record sections should show, in report order. */
  function RecordHeadings(s: State): seq<string> {
    ExpectedHeadings(UserRequirements, Analyst, s) + ExpectedHeadings(DataObjects, Analyst, s)
    + ExpectedHeadings(Actors, Analyst, s)
  }

  lemma ChapterHeadings(title: string, body: seq<string>)
    requires AllNoNewline(body) && NoNewline(title)
    ensures AllNoNewline(Chapter(title, body))
    ensures Headings(H2, Chapter(title, body)) == [title] + Headings(H2, body)
    ensures Headings(H3, Chapter(title, body)) == Headings(H3, body)
  {
    var line := "## " + title;
    var c := Chapter(title, body);
    assert line[..3] == H2 && line[3..] == title;
    assert |line| >= 4 ==> line[..4][2] == ' ';
    assert c == [line] + ([""] + body);
    assert c[1..] == [""] + body;
    assert c[1..][1..] == body;
    assert AllNoNewline(c) by {
      assert NoNewline(line);
    }
  }

  lemma RequirementsChapter(s: State)
    requires !Crashes(s) && PlainRecords(s)
    ensures var c := if s.requirements.Dict? then Chapter("Requirements", RequirementsBlock(s.requirements.dict.requirements.GetOr([]))) else [];
            AllNoNewline(c)
            && Headings(H2, c) == (if s.requirements.Dict? then ["Requirements"] else [])
            && Headings(H3, c) == ExpectedHeadings(UserRequirements, Analyst, s)
  {
    if s.requirements.Dict? {
      var rs := s.requirements.dict.requirements.GetOr([]);
      RequirementsBlockPlain(rs);
      RequirementsBlockHeadings(rs);
      ChapterHeadings("Requirements", RequirementsBlock(rs));
    }
  }

  lemma DataObjectsChapter(s: State)
    requires !Crashes(s) && PlainRecords(s)
    ensures var c := if s.dataObjects.Dict? then Chapter("Data Objects", DataObjectsBlock(s.dataObjects.dict.dataObjects.GetOr([]))) else [];
            AllNoNewline(c)
            && Headings(H2, c) == (if s.dataObjects.Dict? then ["Data Objects"] else [])
            && Headings(H3, c) == ExpectedHeadings(DataObjects, Analyst, s)
  {
    if s.dataObjects.Dict? {
      var ds := s.dataObjects.dict.dataObjects.GetOr([]);
      DataObjectsBlockPlain(ds);
      DataObjectsBlockHeadings(ds);
      ChapterHeadings("Data Objects", DataObjectsBlock(ds));
    }
  }

  lemma ActorsChapter(s: State)
    requires !Crashes(s) && PlainRecords(s)
    ensures var c := if s.actors.Dict? then Chapter("Actors", ActorsSection(s.actors.dict)) else [];
            AllNoNewline(c)
            && Headings(H2, c) == (if s.actors.Dict? then ["Actors"] else [])
            && Headings(H3, c) == ExpectedHeadings(Actors, Analyst, s)
  {
    if s.actors.Dict? {
      ActorsSectionPlain(s.actors.dict);
      ActorsSectionHeadings(s.actors.dict);
      ChapterHeadings("Actors", ActorsSection(s.actors.dict));
    }
  }

  /** The record sections show their titles as `##` headings and their
      records' names as `###` headings, in report order. */
  lemma RecordChaptersHeadings(s: State)
    requires !Crashes(s) && PlainRecords(s)
    ensures AllNoNewline(RecordChapters(s))
    ensures Headings(H2, RecordChapters(s)) == RecordTitles(s)
    ensures Headings(H3, RecordChapters(s)) == RecordHeadings(s)
  {
    var a := if s.requirements.Dict? then Chapter("Requirements", RequirementsBlock(s.requirements.dict.requirements.GetOr([]))) else [];
    var b := if s.dataObjects.Dict? then Chapter("Data Objects", DataObjectsBlock(s.dataObjects.dict.dataObjects.GetOr([]))) else [];
    var c := if s.actors.Dict? then Chapter("Actors", ActorsSection(s.actors.dict)) else [];
    RequirementsChapter(s);
    DataObjectsChapter(s);
    ActorsChapter(s);
    assert RecordChapters(s) == a + b + c;
    AllNoNewlineAppend(a, b);
    AllNoNewlineAppend(a + b, c);
    HeadingsAppend(H2, a, b);
    HeadingsAppend(H2, a + b, c);
    HeadingsAppend(H3, a, b);
    HeadingsAppend(H3, a + b, c);
  }

  /** The use-case chapter as lines without newlines: the analyst's text
      split into its own lines. */
  lemma UseCasesLines(pre: seq<string>, text: string)
    ensures Unlines(pre + UseCasesChapter(text)) == Unlines(pre + Chapter("Use Cases", SplitLines(text) + [""]))
  {
    var head := ["## " + "Use Cases", ""];
    UnlinesAppend(SplitLines(text), [""]);
    UnlinesSplit(text);
    assert Unlines([""]) == "\n" by {
      assert [""][1..] == [];
    }
    assert Unlines([text, ""]) == text + "\n" + Unlines([""]) by {
      assert [text, ""][1..] == [""];
    }
    assert Unlines(SplitLines(text) + [""]) == Unlines([text, ""]);
    UnlinesAppend(head, [text, ""]);
    UnlinesAppend(head, SplitLines(text) + [""]);
    assert pre + UseCasesChapter(text) == pre + (head + [text, ""]);
    assert pre + Chapter("Use Cases", SplitLines(text) + [""]) == pre + (head + (SplitLines(text) + [""]));
    UnlinesAppend(pre, head + [text, ""]);
    UnlinesAppend(pre, head + (SplitLines(text) + [""]));
  }

  /** The lines the saved report splits into. */
  function ReportLinesSplit(s: State, generatedAt: DateTime): seq<string>
    requires !Crashes(s)
  {
    Header(ReportTitle, Display(generatedAt)) + RecordChapters(s)
    + (if s.analystOutput.Some? then Chapter("Use Cases", SplitLines(s.analystOutput.value) + [""]) else [])
  }

  lemma ReportText(s: State, generatedAt: DateTime)
    requires !Crashes(s)
    ensures Unlines(ReportLines(s, generatedAt)) == Unlines(ReportLinesSplit(s, generatedAt))
  {
    var pre := Header(ReportTitle, Display(generatedAt)) + RecordChapters(s);
    if s.analystOutput.Some? {
      UseCasesLines(pre, s.analystOutput.value);
    }
  }

  /** The use-case chapter's headings: its title, then the analyst text's. */
  lemma UseCasesChapterHeadings(text: string)
    ensures AllNoNewline(Chapter("Use Cases", SplitLines(text) + [""]))
    ensures Headings(H2, Chapter("Use Cases", SplitLines(text) + [""])) == ["Use Cases"] + DocumentHeadings(H2, text)
    ensures Headings(H3, Chapter("Use Cases", SplitLines(text) + [""])) == DocumentHeadings(H3, text)
  {
    var tail := SplitLines(text) + [""];
    AllNoNewlineAppend(SplitLines(text), [""]);
    ChapterHeadings("Use Cases", tail);
    HeadingsAppend(H2, SplitLines(text), [""]);
    HeadingsAppend(H3, SplitLines(text), [""]);
  }

  lemma ReportLinesHeadings(s: State, generatedAt: DateTime)
    requires !Crashes(s) && PlainRecords(s)
    ensures var ls := ReportLinesSplit(s, generatedAt);
            var text := s.analystOutput.GetOr("");
            AllNoNewline(ls) && ls[0] == "# " + ReportTitle
            && Headings(H2, ls) == RecordTitles(s) + (if s.analystOutput.Some? then ["Use Cases"] + DocumentHeadings(H2, text) else [])
            && Headings(H3, ls) == RecordHeadings(s) + (if s.analystOutput.Some? then DocumentHeadings(H3, text) else [])
  {
    var header := Header(ReportTitle, Display(generatedAt));
    var body := RecordChapters(s);
    var tail := UseCasesTail(s.analystOutput);
    ReportHeader(generatedAt);
    RecordChaptersHeadings(s);
    UseCasesTailHeadings(s.analystOutput);
    assert ReportLinesSplit(s, generatedAt) == header + body + tail;
    var text := s.analystOutput.GetOr("");
    ReportParts(header, body, tail, RecordTitles(s), RecordHeadings(s),
                if s.analystOutput.Some? then ["Use Cases"] + DocumentHeadings(H2, text) else [],
                if s.analystOutput.Some? then DocumentHeadings(H3, text) else []);
  }

  /** The report's header: the title line first, no section headings. */
  lemma ReportHeader(generatedAt: DateTime)
    ensures var header := Header(ReportTitle, Display(generatedAt));
            AllNoNewline(header) && header != [] && header[0] == "# " + ReportTitle
            && Headings(H2, header) == [] && Headings(H3, header) == []
  {
    DisplayDigits(generatedAt);
    assert NoNewline(ReportTitle);
    HeaderPlain(ReportTitle, Display(generatedAt));
    HeaderHeadings(ReportTitle, Display(generatedAt));
  }

  /** The use-case chapter as the report's last lines, when there is one. */
  function UseCasesTail(o: Option<string>): seq<string> {
    if o.Some? then Chapter("Use Cases", SplitLines(o.value) + [""]) else []
  }

  lemma UseCasesTailHeadings(o: Option<string>)
    ensures AllNoNewline(UseCasesTail(o))
    ensures Headings(H2, UseCasesTail(o)) == (if o.Some? then ["Use Cases"] + DocumentHeadings(H2, o.GetOr("")) else [])
    ensures Headings(H3, UseCasesTail(o)) == (if o.Some? then DocumentHeadings(H3, o.GetOr("")) else [])
  {
    if o.Some? {
      UseCasesChapterHeadings(o.value);
    }
  }

  /** A header without headings, the record chapters and the use-case
      chapter: their headings in that order. */
  lemma ReportParts(header: seq<string>, body: seq<string>, tail: seq<string>,
                    bodyH2: seq<string>, bodyH3: seq<string>, tailH2: seq<string>, tailH3: seq<string>)
    requires AllNoNewline(header) && AllNoNewline(body) && AllNoNewline(tail) && header != []
    requires Headings(H2, header) == [] && Headings(H3, header) == []
    requires Headings(H2, body) == bodyH2 && Headings(H3, body) == bodyH3
    requires Headings(H2, tail) == tailH2 && Headings(H3, tail) == tailH3
    ensures AllNoNewline(header + body + tail) && (header + body + tail)[0] == header[0]
    ensures Headings(H2, header + body + tail) == bodyH2 + tailH2
    ensures Headings(H3, header + body + tail) == bodyH3 + tailH3
  {
    Concat3(header, body, tail, H2);
    Concat3(header, body, tail, H3);
  }

  lemma Concat3(a: seq<string>, b: seq<string>, c: seq<string>, marker: string)
    requires AllNoNewline(a) && AllNoNewline(b) && AllNoNewline(c) && a != []
    ensures AllNoNewline(a + b + c) && (a + b + c)[0] == a[0]
    ensures Headings(marker, a + b + c) == Headings(marker, a) + Headings(marker, b) + Headings(marker, c)
  {
    AllNoNewlineAppend(a, b);
    AllNoNewlineAppend(a + b, c);
    HeadingsAppend(marker, a, b);
    HeadingsAppend(marker, a + b, c);
  }

  /** The saved report read back: its `##` headings are the record sections
      present, in the order requirements, data objects, actors, then "Use
      Cases" followed by whatever `##` headings the analyst's own text
      holds; its `###` headings are the records' names in that order, then
      those of the analyst's text. */
  lemma ReportHeadings(s: State, outputPath: string, generatedAt: DateTime, savedAt: DateTime)
    requires !Crashes(s) && PlainRecords(s)
    ensures var r := SaveReport(s, outputPath, generatedAt, savedAt, None);
            r.Exported? ==>
            var md := r.markdown;
            var text := s.analystOutput.GetOr("");
            SplitLines(md)[0] == "# " + ReportTitle
            && DocumentHeadings(H2, md)
               == RecordTitles(s) + (if s.analystOutput.Some? then ["Use Cases"] + DocumentHeadings(H2, text) else [])
            && DocumentHeadings(H3, md)
               == RecordHeadings(s) + (if s.analystOutput.Some? then DocumentHeadings(H3, text) else [])
  {
    var ls := ReportLinesSplit(s, generatedAt);
    ReportText(s, generatedAt);
    ReportLinesHeadings(s, generatedAt);
    DocumentHeadingsOfLines(H2, ls);
    DocumentHeadingsOfLines(H3, ls);
    SplitUnlines(ls);
  }

  /** Empty text under the requirements key: the requirements exporter
      treats it as missing and succeeds, while the combined report raises. */
  lemma EmptyTextDisagreement(s: State, pkg: Package, directory: string,
                              generatedAt: DateTime, savedAt: DateTime)
    requires s.requirements == Text("")
    ensures Export(UserRequirements, pkg, s, directory, generatedAt, savedAt, None).Exported?
    ensures SaveReport(s, directory, generatedAt, savedAt, None).ExportFailed?
  {
    ExportOutcome(UserRequirements, pkg, s, directory, generatedAt, savedAt, None);
  }
}

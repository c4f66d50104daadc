/** The per-stage exporters: each writes one stage's record from the session
    state as a Markdown document named `<prefix>_output_version_<stamp>.md`.
    Both packages ship a copy of the four exporters; the copies differ only in
    constants (a document title, a placeholder name, message tags, and where
    a blank directory falls back to), so one definition takes the package as a
    parameter and the package modules fix it. */
module StageExport {
  import opened Wrappers
  import opened Strings
  import opened Lines
  import opened Records
  import opened ReportBlocks
  import opened Paths
  import opened Clock

  datatype Stage = UserRequirements | Actors | DataObjects | UseCases

  /** `BA` and `business_analyst`, the two packages holding exporters. */
  datatype Package = Ba | Analyst

  /** The document title; the `business_analyst` use-case exporter reuses
      the data-object title. */
  function Title(stage: Stage, pkg: Package): string {
    match stage
    case UserRequirements => "USER_REQUIREMENTS_OUTPUT"
    case Actors => "ACTOR_OUTPUT"
    case DataObjects => "DATA_OBJECT_OUTPUT"
    case UseCases => if pkg == Ba then "USE_CASE_OUTPUT" else "DATA_OBJECT_OUTPUT"
  }

  /** The one `##` section a non-empty record produces. */
  function SectionTitle(stage: Stage): string {
    match stage
    case UserRequirements => "Requirements"
    case Actors => "ACTOR"
    case DataObjects => "DATA_OBJECT"
    case UseCases => "USE_CASE"
  }

  function FilePrefix(stage: Stage): string {
    match stage
    case UserRequirements => "ur"
    case Actors => "ac"
    case DataObjects => "do"
    case UseCases => "uc"
  }

  function Tag(stage: Stage): string {
    match stage
    case UserRequirements => "UR"
    case Actors => "AC"
    case DataObjects => "DO"
    case UseCases => "UC"
  }

  /** The tag in the success message; `business_analyst` reports use cases
      as "DO". */
  function SuccessTag(stage: Stage, pkg: Package): string {
    if pkg == Analyst && stage == UseCases then "DO" else Tag(stage)
  }

  /** The tag in the export-error message; `business_analyst` says "UR" in
      all four exporters. */
  function FailureTag(stage: Stage, pkg: Package): string {
    if pkg == Analyst then "UR" else Tag(stage)
  }

  function UnnamedUseCase(pkg: Package): string {
    if pkg == Ba then "Unnamed Use Case" else "Unnamed Object"
  }

  /** What `str(e)` says when a stage key holds text and the exporter calls
      `.get` on it. */
  const AttributeErrorText: string := "'str' object has no attribute 'get'"

  /** What the stage contributes below the header: nothing (absent or empty
      entry), its record's blocks, or a crash (non-empty text in the slot). */
  function Section(stage: Stage, pkg: Package, s: State): Lookup<seq<string>> {
    match stage
    case UserRequirements =>
      (match LookupTruthy(s.requirements, (o: RequirementsOutput) => o.Truthy())
       case Skip => Skip
       case Crash => Crash
       case Use(o) => Use(RequirementsBlock(o.requirements.GetOr([]))))
    case Actors =>
      (match LookupTruthy(s.actors, (o: ActorsOutput) => o.Truthy())
       case Skip => Skip
       case Crash => Crash
       case Use(o) => Use(ActorsSection(o)))
    case DataObjects =>
      (match LookupTruthy(s.dataObjects, (o: DataObjectsOutput) => o.Truthy())
       case Skip => Skip
       case Crash => Crash
       case Use(o) => Use(DataObjectsBlock(o.dataObjects.GetOr([]))))
    case UseCases =>
      (match LookupTruthy(s.useCases, (o: UseCasesOutput) => o.Truthy())
       case Skip => Skip
       case Crash => Crash
       case Use(o) => Use(UseCasesBlock(o.useCases.GetOr([]), UnnamedUseCase(pkg))))
  }

  /** The stage's key holds a non-empty string. */
  predicate HoldsText(stage: Stage, s: State) {
    match stage
    case UserRequirements => s.requirements.Text? && s.requirements.text != ""
    case Actors => s.actors.Text? && s.actors.text != ""
    case DataObjects => s.dataObjects.Text? && s.dataObjects.text != ""
    case UseCases => s.useCases.Text? && s.useCases.text != ""
  }

  /** The stage's key holds a non-empty record. */
  predicate HoldsRecord(stage: Stage, s: State) {
    match stage
    case UserRequirements => s.requirements.Dict? && s.requirements.dict.Truthy()
    case Actors => s.actors.Dict? && s.actors.dict.Truthy()
    case DataObjects => s.dataObjects.Dict? && s.dataObjects.dict.Truthy()
    case UseCases => s.useCases.Dict? && s.useCases.dict.Truthy()
  }

  /** The `###` headings the stage's record should show, in order. */
  function ExpectedHeadings(stage: Stage, pkg: Package, s: State): seq<string> {
    match stage
    case UserRequirements =>
      if s.requirements.Dict? then RequirementNames(s.requirements.dict.requirements.GetOr([])) else []
    case Actors =>
      if s.actors.Dict? then
        var o := s.actors.dict;
        ActorNames(o.actors.GetOr([]))
        + (if o.actorHierarchy.Some? then ["Actor Hierarchy"] else [])
        + (if o.stakeholderSummary.Some? then ["Stakeholder Summary"] else [])
      else []
    case DataObjects =>
      if s.dataObjects.Dict? then DataObjectNames(s.dataObjects.dict.dataObjects.GetOr([])) else []
    case UseCases =>
      if s.useCases.Dict? then UseCaseNames(s.useCases.dict.useCases.GetOr([]), UnnamedUseCase(pkg)) else []
  }

  /** Every text of the stage's record that lands in the document keeps to
      one line, and the actor trailer texts are no headings. */
  predicate PlainStage(stage: Stage, s: State) {
    match stage
    case UserRequirements =>
      s.requirements.Dict? ==> PlainRequirements(s.requirements.dict.requirements.GetOr([]))
    case Actors => s.actors.Dict? ==> PlainActors(s.actors.dict)
    case DataObjects =>
      s.dataObjects.Dict? ==> PlainDataObjects(s.dataObjects.dict.dataObjects.GetOr([]))
    case UseCases =>
      s.useCases.Dict? ==> PlainUseCases(s.useCases.dict.useCases.GetOr([]))
  }

  datatype ExportResult =
    | Exported(outputFile: string, markdown: string, message: string)
    | ExportFailed(message: string)

  function FileName(stage: Stage, savedAt: DateTime): string {
    FilePrefix(stage) + "_output_version_" + Stamp(savedAt) + ".md"
  }

  /** The document's lines: the header, then the stage's section when its
      entry is a non-empty record. */
  function DocumentLines(stage: Stage, pkg: Package, generatedAt: DateTime, section: Lookup<seq<string>>): seq<string> {
    Header(Title(stage, pkg), Display(generatedAt))
    + (if section.Use? then ["## " + SectionTitle(stage), ""] + section.value else [])
  }

  /** One exporter run. `generatedAt` and `savedAt` are the two clock readings
      (document line, file name); `writeError` is the outcome of writing the
      file. */
  function Export(stage: Stage, pkg: Package, s: State, directory: string,
                  generatedAt: DateTime, savedAt: DateTime, writeError: Option<string>): ExportResult
  {
    var section := Section(stage, pkg, s);
    if section.Crash? then
      ExportFailed("Error exporting " + FailureTag(stage, pkg) + " state: " + AttributeErrorText)
    else
      var outputFile := Join(directory, FileName(stage, savedAt));
      if writeError.Some? then ExportFailed("Error writing to file: " + writeError.value)
      else Exported(outputFile, Unlines(DocumentLines(stage, pkg, generatedAt, section)),
                    "Successfully exported " + SuccessTag(stage, pkg) + " state to " + outputFile)
  }

  // ---------------------------------------------------------------------
  // Properties

  /** The section is skipped, used or a crash exactly as the slot is empty,
      a non-empty record or non-empty text. */
  lemma SectionCases(stage: Stage, pkg: Package, s: State)
    ensures Section(stage, pkg, s).Crash? <==> HoldsText(stage, s)
    ensures Section(stage, pkg, s).Use? <==> HoldsRecord(stage, s)
  {
  }

  /** An export fails exactly when the stage's key holds non-empty text or
      the write fails, and a text slot wins over a write error. */
  lemma ExportOutcome(stage: Stage, pkg: Package, s: State, directory: string,
                      generatedAt: DateTime, savedAt: DateTime, writeError: Option<string>)
    ensures var r := Export(stage, pkg, s, directory, generatedAt, savedAt, writeError);
            (r.ExportFailed? <==> HoldsText(stage, s) || writeError.Some?)
            && (HoldsText(stage, s) ==> r.message == "Error exporting " + FailureTag(stage, pkg) + " state: " + AttributeErrorText)
            && (!HoldsText(stage, s) && writeError.Some? ==> r.message == "Error writing to file: " + writeError.value)
  {
    SectionCases(stage, pkg, s);
  }

  lemma FileNameShape(stage: Stage, savedAt: DateTime)
    ensures FileName(stage, savedAt) != [] && '/' !in FileName(stage, savedAt)
    ensures EndsWith(FileName(stage, savedAt), ".md")
  {
    StampShape(savedAt);
    var n := FileName(stage, savedAt);
    var p := FilePrefix(stage) + "_output_version_";
    assert |p| == 18;
    assert forall i :: 0 <= i < |n| ==> n[i] != '/' by {
      forall i | 0 <= i < |n|
        ensures n[i] != '/'
      {
        if i < 18 {
          assert n[i] == p[i];
        } else if i < 33 {
          assert n[i] == Stamp(savedAt)[i - 18];
        } else {
          assert n[i] == ".md"[i - 33];
        }
      }
    }
    assert n[|n| - 3..] == ".md";
  }

  /** A successful export writes into the chosen directory under the stage's
      stamped name; its base name is that name. */
  lemma ExportFile(stage: Stage, pkg: Package, s: State, directory: string,
                   generatedAt: DateTime, savedAt: DateTime, writeError: Option<string>)
    requires Export(stage, pkg, s, directory, generatedAt, savedAt, writeError).Exported?
    ensures var r := Export(stage, pkg, s, directory, generatedAt, savedAt, writeError);
            r.outputFile == Join(directory, FileName(stage, savedAt))
            && BaseName(r.outputFile) == FileName(stage, savedAt)
            && r.message == "Successfully exported " + SuccessTag(stage, pkg) + " state to " + r.outputFile
  {
    FileNameShape(stage, savedAt);
    BaseNameJoin(directory, FileName(stage, savedAt));
  }

  /** The facts about the stage's section lines the document lemmas need. */
  lemma SectionLines(stage: Stage, pkg: Package, s: State)
    requires Section(stage, pkg, s).Use?
    requires PlainStage(stage, s)
    ensures AllNoNewline(Section(stage, pkg, s).value)
    ensures Headings(H2, Section(stage, pkg, s).value) == []
    ensures Headings(H3, Section(stage, pkg, s).value) == ExpectedHeadings(stage, pkg, s)
  {
    match stage
    case UserRequirements =>
      var rs := s.requirements.dict.requirements.GetOr([]);
      RequirementsBlockPlain(rs);
      RequirementsBlockHeadings(rs);
    case Actors =>
      var o := s.actors.dict;
      ActorsSectionPlain(o);
      ActorsSectionHeadings(o);
    case DataObjects =>
      var xs := s.dataObjects.dict.dataObjects.GetOr([]);
      DataObjectsBlockPlain(xs);
      DataObjectsBlockHeadings(xs);
    case UseCases =>
      var xs := s.useCases.dict.useCases.GetOr([]);
      UseCasesBlockPlain(xs, UnnamedUseCase(pkg));
      UseCasesBlockHeadings(xs, UnnamedUseCase(pkg));
  }

  lemma TitledHeaderPlain(stage: Stage, pkg: Package, generatedAt: DateTime)
    ensures AllNoNewline(Header(Title(stage, pkg), Display(generatedAt)))
  {
    DisplayDigits(generatedAt);
    assert NoNewline(Title(stage, pkg));
    HeaderPlain(Title(stage, pkg), Display(generatedAt));
  }

  lemma SectionHeadLines(stage: Stage)
    ensures AllNoNewline(["## " + SectionTitle(stage), ""])
    ensures Headings(H2, ["## " + SectionTitle(stage), ""]) == [SectionTitle(stage)]
    ensures Headings(H3, ["## " + SectionTitle(stage), ""]) == []
  {
    SectionHead(SectionTitle(stage));
  }

  /** The exported document read back as lines: its `##` headings are the
      stage's section title exactly when the entry is a non-empty record,
      and its `###` headings are the record's names in order. */
  lemma ExportHeadings(stage: Stage, pkg: Package, s: State, directory: string,
                       generatedAt: DateTime, savedAt: DateTime, writeError: Option<string>)
    requires PlainStage(stage, s)
    requires Export(stage, pkg, s, directory, generatedAt, savedAt, writeError).Exported?
    ensures var md := Export(stage, pkg, s, directory, generatedAt, savedAt, writeError).markdown;
            SplitLines(md)[0] == "# " + Title(stage, pkg)
            && DocumentHeadings(H2, md) == (if HoldsRecord(stage, s) then [SectionTitle(stage)] else [])
            && DocumentHeadings(H3, md) == (if HoldsRecord(stage, s) then ExpectedHeadings(stage, pkg, s) else [])
  {
    SectionCases(stage, pkg, s);
    var section := Section(stage, pkg, s);
    var header := Header(Title(stage, pkg), Display(generatedAt));
    var ls := DocumentLines(stage, pkg, generatedAt, section);
    TitledHeaderPlain(stage, pkg, generatedAt);
    HeaderHeadings(Title(stage, pkg), Display(generatedAt));
    if section.Use? {
      var head := ["## " + SectionTitle(stage), ""];
      SectionLines(stage, pkg, s);
      SectionHeadLines(stage);
      AllNoNewlineAppend(head, section.value);
      AllNoNewlineAppend(header, head + section.value);
      HeadingsAppend(H2, head, section.value);
      HeadingsAppend(H3, head, section.value);
      HeadingsAppend(H2, header, head + section.value);
      HeadingsAppend(H3, header, head + section.value);
    } else {
      assert ls == header;
    }
    DocumentHeadingsOfLines(H2, ls);
    DocumentHeadingsOfLines(H3, ls);
    SplitUnlines(ls);
  }

  /** A successful export's text is the document's lines joined. */
  lemma ExportedMarkdown(stage: Stage, pkg: Package, s: State, directory: string,
                         generatedAt: DateTime, savedAt: DateTime, writeError: Option<string>)
    requires Export(stage, pkg, s, directory, generatedAt, savedAt, writeError).Exported?
    ensures Export(stage, pkg, s, directory, generatedAt, savedAt, writeError).markdown
            == Unlines(DocumentLines(stage, pkg, generatedAt, Section(stage, pkg, s)))
  {
  }

  lemma RequirementsSection(pkg: Package, s: State)
    requires HoldsRecord(UserRequirements, s)
    ensures Section(UserRequirements, pkg, s) == Use(RequirementsBlock(s.requirements.dict.requirements.GetOr([])))
  {
    assert LookupTruthy(s.requirements, (o: RequirementsOutput) => o.Truthy()) == Use(s.requirements.dict);
  }

  /** A requirements export read back block by block gives every
      requirement with its fields as shown, in order. */
  lemma ExportRequirementsRoundTrip(pkg: Package, s: State, directory: string,
                                    generatedAt: DateTime, savedAt: DateTime, writeError: Option<string>)
    requires PlainStage(UserRequirements, s)
    requires HoldsRecord(UserRequirements, s)
    requires Export(UserRequirements, pkg, s, directory, generatedAt, savedAt, writeError).Exported?
    ensures var md := Export(UserRequirements, pkg, s, directory, generatedAt, savedAt, writeError).markdown;
            var ls := SplitLines(md);
            |ls| >= 6 && ls[4] == "## Requirements"
            && ReadRequirements(ls[6..]) == ShownAll(s.requirements.dict.requirements.GetOr([]))
  {
    var rs := s.requirements.dict.requirements.GetOr([]);
    ExportedMarkdown(UserRequirements, pkg, s, directory, generatedAt, savedAt, writeError);
    RequirementsSection(pkg, s);
    var header := Header(Title(UserRequirements, pkg), Display(generatedAt));
    var head := ["## Requirements", ""];
    RequirementsDocumentLines(pkg, generatedAt, RequirementsBlock(rs));
    TitledHeaderPlain(UserRequirements, pkg, generatedAt);
    RequirementsDocument(header, head, rs);
  }

  /** A requirements document is its header, the section heading and the
      blocks. */
  lemma RequirementsDocumentLines(pkg: Package, generatedAt: DateTime, block: seq<string>)
    ensures DocumentLines(UserRequirements, pkg, generatedAt, Use(block))
            == Header(Title(UserRequirements, pkg), Display(generatedAt)) + (["## Requirements", ""] + block)
  {
    assert "## " + SectionTitle(UserRequirements) == "## Requirements";
  }

  lemma RequirementsDocument(header: seq<string>, head: seq<string>, rs: seq<Requirement>)
    requires |header| == 4 && AllNoNewline(header)
    requires head == ["## Requirements", ""]
    requires PlainRequirements(rs)
    ensures var ls := SplitLines(Unlines(header + (head + RequirementsBlock(rs))));
            |ls| >= 6 && ls[4] == "## Requirements"
            && ReadRequirements(ls[6..]) == ShownAll(rs)
  {
    RequirementsBlockPlain(rs);
    assert AllNoNewline(head);
    SplitAfterHead(header, head, RequirementsBlock(rs));
    ReadRequirementsBlock(rs, [""]);
  }

  /** A four-line header and a two-line section head, then a block, split
      back into lines: the block follows the sixth line. */
  lemma SplitAfterHead(header: seq<string>, head: seq<string>, block: seq<string>)
    requires |header| == 4 && |head| == 2
    requires AllNoNewline(header) && AllNoNewline(head) && AllNoNewline(block)
    ensures var ls := SplitLines(Unlines(header + (head + block)));
            |ls| >= 6 && ls[4] == head[0] && ls[6..] == block + [""]
  {
    var ls := header + (head + block);
    assert AllNoNewline(ls) by {
      AllNoNewlineAppend(head, block);
      AllNoNewlineAppend(header, head + block);
    }
    SplitUnlines(ls);
    var front := header + head;
    assert ls + [""] == front + (block + [""]) by {
      ConcatAssoc(header, head, block);
      ConcatAssoc(front, block, [""]);
    }
    DropPrefix(front, block + [""]);
    assert (front + (block + [""]))[4] == front[4] == head[0];
  }

  lemma UnlinesHeader(title: string, generatedOn: string)
    ensures Unlines(Header(title, generatedOn)) == "# " + title + "\n\nGenerated on: " + generatedOn + "\n\n"
  {
    var t, g := "# " + title, "Generated on: " + generatedOn;
    Unlines4(t, "", g, "");
    calc {
      t + "\n" + "" + "\n" + g + "\n" + "" + "\n";
      { assert t + "\n" + "" == t + "\n"; ConcatAssoc(t, "\n", "\n"); }
      t + "\n\n" + g + "\n" + "" + "\n";
      { assert t + "\n\n" + g + "\n" + "" == t + "\n\n" + g + "\n";
        ConcatAssoc(t + "\n\n" + g, "\n", "\n"); }
      t + "\n\n" + g + "\n\n";
      { ConcatAssoc(t + "\n\n", "Generated on: ", generatedOn);
        ConcatAssoc(t, "\n\n", "Generated on: "); }
      t + "\n\nGenerated on: " + generatedOn + "\n\n";
      { ConcatAssoc("# ", title, "\n\nGenerated on: "); }
      "# " + title + "\n\nGenerated on: " + generatedOn + "\n\n";
    }
  }

  /** With nothing to export the document is the bare four-line header. */
  lemma ExportEmpty(stage: Stage, pkg: Package, s: State, directory: string,
                    generatedAt: DateTime, savedAt: DateTime)
    requires !HoldsText(stage, s) && !HoldsRecord(stage, s)
    ensures Export(stage, pkg, s, directory, generatedAt, savedAt, None)
            == Exported(Join(directory, FileName(stage, savedAt)),
                        "# " + Title(stage, pkg) + "\n\nGenerated on: " + Display(generatedAt) + "\n\n",
                        "Successfully exported " + SuccessTag(stage, pkg) + " state to " + Join(directory, FileName(stage, savedAt)))
  {
    SectionCases(stage, pkg, s);
    UnlinesHeader(Title(stage, pkg), Display(generatedAt));
    assert DocumentLines(stage, pkg, generatedAt, Section(stage, pkg, s)) == Header(Title(stage, pkg), Display(generatedAt));
  }

  /** The two packages write the same document for requirements, actors and
      data objects; for use cases they differ in the title and in the name
      shown for an unnamed use case. */
  lemma PackagesAgree(stage: Stage, s: State, directory: string,
                      generatedAt: DateTime, savedAt: DateTime, writeError: Option<string>)
    ensures var a := Export(stage, Ba, s, directory, generatedAt, savedAt, writeError);
            var b := Export(stage, Analyst, s, directory, generatedAt, savedAt, writeError);
            a.Exported? == b.Exported?
            && (a.Exported? ==> a.outputFile == b.outputFile)
            && (a.Exported? && stage != UseCases ==> a.markdown == b.markdown)
            && (a.Exported? && stage == UseCases ==> a.markdown != b.markdown)
  {
    var a := Export(stage, Ba, s, directory, generatedAt, savedAt, writeError);
    var b := Export(stage, Analyst, s, directory, generatedAt, savedAt, writeError);
    ExportOutcome(stage, Ba, s, directory, generatedAt, savedAt, writeError);
    ExportOutcome(stage, Analyst, s, directory, generatedAt, savedAt, writeError);
    if a.Exported? {
      ExportFile(stage, Ba, s, directory, generatedAt, savedAt, writeError);
      ExportFile(stage, Analyst, s, directory, generatedAt, savedAt, writeError);
      ExportedMarkdown(stage, Ba, s, directory, generatedAt, savedAt, writeError);
      ExportedMarkdown(stage, Analyst, s, directory, generatedAt, savedAt, writeError);
      var sa := Section(stage, Ba, s);
      var sb := Section(stage, Analyst, s);
      if stage == UseCases {
        var la := DocumentLines(stage, Ba, generatedAt, sa);
        var lb := DocumentLines(stage, Analyst, generatedAt, sb);
        DocumentFirstLine(stage, Ba, generatedAt, sa);
        DocumentFirstLine(stage, Analyst, generatedAt, sb);
        assert la[0][2] == 'U' && lb[0][2] == 'D';
        TitleLineDiffers(la, lb);
      } else {
        SectionSharedOutsideUseCases(stage, s);
      }
    }
  }

  /** Outside use cases the packages read the same section and title. */
  lemma SectionSharedOutsideUseCases(stage: Stage, s: State)
    requires stage != UseCases
    ensures Section(stage, Ba, s) == Section(stage, Analyst, s)
    ensures Title(stage, Ba) == Title(stage, Analyst)
  {
  }

  /** A document opens with its `#` title line. */
  lemma DocumentFirstLine(stage: Stage, pkg: Package, generatedAt: DateTime, section: Lookup<seq<string>>)
    ensures DocumentLines(stage, pkg, generatedAt, section) != []
    ensures DocumentLines(stage, pkg, generatedAt, section)[0] == "# " + Title(stage, pkg)
  {
  }

  /** Documents whose first lines differ in the third character differ. */
  lemma TitleLineDiffers(la: seq<string>, lb: seq<string>)
    requires la != [] && lb != []
    requires |la[0]| > 2 && |lb[0]| > 2 && la[0][2] != lb[0][2]
    ensures Unlines(la) != Unlines(lb)
  {
    assert Unlines(la) == la[0] + "\n" + Unlines(la[1..]);
    assert Unlines(la)[2] == la[0][2];
    assert Unlines(lb) == lb[0] + "\n" + Unlines(lb[1..]);
    assert Unlines(lb)[2] == lb[0][2];
  }
}

/** The document tools of the `business_analyst` package
    (`business_analyst/tools/file.py`): list the PDF and Markdown files of a
    directory, save the files attached to the user's message, and read one
    document into the session state. `read_file.py` repeats the listing tool
    unchanged. */
module AnalystFile {
  import opened Wrappers
  import opened Strings
  import opened Lines
  import opened Records
  import opened Paths
  import opened Host
  import opened Documents
  import opened ReportBlocks

  // ---------------------------------------------------------------------
  // Finding documents

  /** `name.lower().endswith(('.pdf', '.md'))`. */
  predicate IsDocumentName(name: string) {
    EndsWith(Lower(name), ".pdf") || EndsWith(Lower(name), ".md")
  }

  /** The listed names that are documents, joined to the directory, in
      listing order. */
  function DocumentPaths(directory: string, names: seq<string>): seq<string> {
    if names == [] then []
    else (if IsDocumentName(names[0]) then [Join(directory, names[0])] else [])
         + DocumentPaths(directory, names[1..])
  }

  /** A path is listed exactly when some document name joins to it. */
  lemma {:induction false} DocumentPathsMembers(directory: string, names: seq<string>, p: string)
    ensures p in DocumentPaths(directory, names)
            <==> exists i :: 0 <= i < |names| && IsDocumentName(names[i]) && p == Join(directory, names[i])
    decreases |names|
  {
    if names != [] {
      DocumentPathsMembers(directory, names[1..], p);
      if p in DocumentPaths(directory, names[1..]) {
        var i :| 0 <= i < |names[1..]| && IsDocumentName(names[1..][i]) && p == Join(directory, names[1..][i]);
        assert names[i + 1] == names[1..][i];
      }
      if exists i :: 0 <= i < |names| && IsDocumentName(names[i]) && p == Join(directory, names[i]) {
        var i :| 0 <= i < |names| && IsDocumentName(names[i]) && p == Join(directory, names[i]);
        if i > 0 {
          assert names[1..][i - 1] == names[i];
        }
      }
    }
  }

  datatype FindResult = FindResult(status: Status, message: string, docFiles: seq<string>)

  /** `find_document_files_tool`. A path that is a file, not a directory,
      makes the listing raise. */
  function FindDocuments(fs: FileSystem, s: State, directory: string): (out: (FindResult, State))
    ensures out.0.status == Success <==> directory in fs.dirs && DocumentPaths(directory, fs.dirs[directory]) != []
    ensures out.0.status == Success ==>
              out.0.docFiles == DocumentPaths(directory, fs.dirs[directory])
              && out.1 == s.(availableDocFiles := Some(out.0.docFiles))
              && out.0.message == "Found " + NatToString(|out.0.docFiles|) + " document file(s) in " + directory
    ensures out.0.status != Success ==> out.1 == s && out.0.status == Error && out.0.docFiles == []
    ensures !fs.Exists(directory) ==> out.0.message == "Directory not found: " + directory
  {
    if !fs.Exists(directory) then
      (FindResult(Error, "Directory not found: " + directory, []), s)
    else if directory !in fs.dirs then
      (FindResult(Error, "Error finding document files: [Errno 20] Not a directory: " + ReprString(directory), []), s)
    else
      var docs := DocumentPaths(directory, fs.dirs[directory]);
      if docs == [] then
        (FindResult(Error, "No PDF or MD files found in " + directory, []), s)
      else
        (FindResult(Success, "Found " + NatToString(|docs|) + " document file(s) in " + directory, docs),
         s.(availableDocFiles := Some(docs)))
  }

  // ---------------------------------------------------------------------
  // Saving attachments

  /** An attachment the tool accepts: a MIME type under `application/`,
      `image/` or `text/`, and some data. */
  predicate Accepted(b: Blob) {
    b.mimeType.Some?
    && (StartsWith(b.mimeType.value, "application/") || StartsWith(b.mimeType.value, "image/")
        || StartsWith(b.mimeType.value, "text/"))
    && b.data != []
  }

  predicate AcceptedPart(p: Part) {
    p.inlineData.Some? && Accepted(p.inlineData.value)
  }

  /** Index of the first `c` in `s`. */
  function FirstIndex(s: string, c: char): (k: nat)
    requires c in s
    ensures k < |s| && s[k] == c && c !in s[..k]
  {
    if s[0] == c then 0
    else
      assert c in s[1..] by {
        var j :| 0 <= j < |s| && s[j] == c;
        assert s[1..][j - 1] == c;
      }
      var k := 1 + FirstIndex(s[1..], c);
      assert s[..k] == [s[0]] + s[1..][..k - 1];
      k
  }

  /** `mime.split("/")[1]` for a MIME type with a slash: the text between the
      first slash and the next one (or the end). */
  function Subtype(mime: string): (r: string)
    requires '/' in mime
    ensures '/' !in r
    ensures var rest := mime[FirstIndex(mime, '/') + 1..];
            StartsWith(rest, r) && (|r| == |rest| || rest[|r|] == '/')
  {
    var rest := mime[FirstIndex(mime, '/') + 1..];
    if '/' in rest then
      var r := rest[..FirstIndex(rest, '/')];
      assert StartsWith(rest, r) by { assert rest[..|r|] == r; }
      r
    else
      assert StartsWith(rest, rest) by { assert rest[..|rest|] == rest; }
      rest
  }

  const DefaultUploadName: string := "uploaded_file"

  /** The attachment's own name, or `uploaded_file` when it has none. */
  function UploadBase(b: Blob): string {
    if b.fileName.Some? && b.fileName.value != "" then b.fileName.value else DefaultUploadName
  }

  /** The extension added to a name that has none: `.pdf` for
      `application/pdf`, `.<subtype>` for images, nothing otherwise. */
  function AddedExtension(mime: string): (e: string)
    ensures mime == "application/pdf" ==> e == ".pdf"
    ensures StartsWith(mime, "image/") ==> mime[5] == '/' && e == "." + Subtype(mime)
    ensures !StartsWith(mime, "image/") && mime != "application/pdf" ==> e == ""
  {
    if mime == "application/pdf" then
      assert mime[0] != "image/"[0];
      ".pdf"
    else if StartsWith(mime, "image/") then
      assert mime[5] == '/';
      "." + Subtype(mime)
    else ""
  }

  /** The name a saved attachment gets: its own name or `uploaded_file`,
      with an extension added for PDFs and images when it has none. A name
      that already has an extension is kept as it is. */
  function UploadName(b: Blob): (r: string)
    requires Accepted(b)
    ensures StartsWith(r, UploadBase(b))
    ensures SplitExt(UploadBase(b)).1 != "" ==> r == UploadBase(b)
    ensures SplitExt(UploadBase(b)).1 == "" ==> r == UploadBase(b) + AddedExtension(b.mimeType.value)
  {
    var name := UploadBase(b);
    if SplitExt(name).1 != "" then name else name + AddedExtension(b.mimeType.value)
  }

  /** The `k`-th path tried for `path`: the path itself, then
      `<base>_<k><ext>` with `(base, ext)` the `splitext` of `path`. */
  function Candidate(path: string, k: nat): string {
    if k == 0 then path else SplitExt(path).0 + "_" + NatToString(k) + SplitExt(path).1
  }

  lemma CandidateLength(path: string, k: nat)
    ensures |Candidate(path, k)| == |path| + (if k == 0 then 0 else 1 + |NatToString(k)|)
  {
  }

  /** No two tries produce the same path. */
  lemma CandidateInjective(path: string, j: nat, k: nat)
    ensures Candidate(path, j) == Candidate(path, k) ==> j == k
  {
    if Candidate(path, j) == Candidate(path, k) {
      CandidateLength(path, j);
      CandidateLength(path, k);
      if j != 0 && k != 0 {
        var base := SplitExt(path).0;
        var nj, nk := NatToString(j), NatToString(k);
        assert Candidate(path, j)[|base| + 1..|base| + 1 + |nj|] == nj;
        assert Candidate(path, k)[|base| + 1..|base| + 1 + |nk|] == nk;
        NatToStringInjective(j, k);
      }
    }
  }

  /** The paths tried before the `k`-th. */
  ghost function Tried(path: string, k: nat): set<string> {
    if k == 0 then {} else Tried(path, k - 1) + {Candidate(path, k - 1)}
  }

  /** A try is not among the ones before it. */
  lemma {:induction false} TriedNotYet(path: string, k: nat, m: nat)
    requires k <= m
    ensures Candidate(path, m) !in Tried(path, k)
    decreases k
  {
    if k > 0 {
      TriedNotYet(path, k - 1, m);
      CandidateInjective(path, k - 1, m);
    }
  }

  lemma {:induction false} TriedSize(path: string, k: nat)
    ensures |Tried(path, k)| == k
    decreases k
  {
    if k > 0 {
      TriedSize(path, k - 1);
      TriedNotYet(path, k - 1, k - 1);
    }
  }

  lemma {:induction false} TriedWithin(path: string, k: nat, taken: set<string>)
    requires forall j :: 0 <= j < k ==> Candidate(path, j) in taken
    ensures Tried(path, k) <= taken
    decreases k
  {
    if k > 0 {
      TriedWithin(path, k - 1, taken);
    }
  }

  lemma SubsetSize<T>(a: set<T>, b: set<T>)
    requires a <= b
    ensures |a| <= |b|
  {
    if a != {} {
      var x :| x in a;
      SubsetSize(a - {x}, b - {x});
    }
  }

  /** The first try of `path` not in `taken`, and its index. The tries are
      pairwise distinct and `taken` is finite, so the search ends. */
  method FreePath(taken: set<string>, path: string) returns (r: string, k: nat)
    ensures r == Candidate(path, k) && r !in taken
    ensures forall j :: 0 <= j < k ==> Candidate(path, j) in taken
  {
    r, k := path, 0;
    while r in taken
      invariant r == Candidate(path, k)
      invariant forall j :: 0 <= j < k ==> Candidate(path, j) in taken
      decreases |taken| - k
    {
      TriedWithin(path, k + 1, taken);
      TriedSize(path, k + 1);
      SubsetSize(Tried(path, k + 1), taken);
      k := k + 1;
      r := SplitExt(path).0 + "_" + NatToString(k) + SplitExt(path).1;
    }
  }

  /** What became of one message part. */
  datatype PartOutcome =
    | Skipped                                 // not an accepted attachment
    | Saved(path: string, tries: nat)
    | WriteFailed(path: string, tries: nat)   // opening the file raised

  /** The paths of the saved parts, in message order. */
  function SavedPaths(outcomes: seq<PartOutcome>): seq<string> {
    if outcomes == [] then []
    else SavedPaths(outcomes[..|outcomes| - 1])
         + (if outcomes[|outcomes| - 1].Saved? then [outcomes[|outcomes| - 1].path] else [])
  }

  function OnDisk(fs: FileSystem): set<string> {
    fs.dirs.Keys + fs.files.Keys
  }

  /** Where an accepted attachment is meant to go. */
  function Target(directory: string, p: Part): string
    requires AcceptedPart(p)
  {
    Join(directory, UploadName(p.inlineData.value))
  }

  /** `o` is what the tool does with part `p` when `earlier` are the outcomes
      of the parts before it: skip it unless it is accepted, otherwise take
      the first try of its target that exists neither on disk nor among the
      files saved so far, and save it there unless the path is unwritable. */
  predicate OutcomeOf(fs: FileSystem, directory: string, unwritable: set<string>,
                      p: Part, earlier: seq<PartOutcome>, o: PartOutcome)
  {
    (o.Skipped? <==> !AcceptedPart(p))
    && (!o.Skipped? ==>
          var taken := OnDisk(fs) + (set q | q in SavedPaths(earlier));
          o.path == Candidate(Target(directory, p), o.tries)
          && o.path !in taken
          && (forall j :: 0 <= j < o.tries ==> Candidate(Target(directory, p), j) in taken)
          && (o.Saved? <==> o.path !in unwritable))
  }

  /** `outcomes` are the outcomes of the first `|outcomes|` parts. */
  predicate OutcomesOf(fs: FileSystem, directory: string, unwritable: set<string>,
                       parts: seq<Part>, outcomes: seq<PartOutcome>)
  {
    |outcomes| <= |parts|
    && forall n :: 0 <= n < |outcomes| ==>
         OutcomeOf(fs, directory, unwritable, parts[n], outcomes[..n], outcomes[n])
  }

  lemma OutcomesSnoc(fs: FileSystem, directory: string, unwritable: set<string>,
                     parts: seq<Part>, outcomes: seq<PartOutcome>, o: PartOutcome)
    requires OutcomesOf(fs, directory, unwritable, parts, outcomes) && |outcomes| < |parts|
    requires OutcomeOf(fs, directory, unwritable, parts[|outcomes|], outcomes, o)
    ensures OutcomesOf(fs, directory, unwritable, parts, outcomes + [o])
  {
    var xs := outcomes + [o];
    forall n | 0 <= n < |xs|
      ensures OutcomeOf(fs, directory, unwritable, parts[n], xs[..n], xs[n])
    {
      if n < |outcomes| {
        assert xs[..n] == outcomes[..n] && xs[n] == outcomes[n];
      } else {
        assert xs[..n] == outcomes;
      }
    }
  }

  lemma SavedPathsSnoc(outcomes: seq<PartOutcome>, o: PartOutcome)
    ensures SavedPaths(outcomes + [o]) == SavedPaths(outcomes) + (if o.Saved? then [o.path] else [])
  {
    assert (outcomes + [o])[..|outcomes|] == outcomes;
  }

  datatype SaveResult = SaveResult(status: Status, message: string, savedPaths: seq<string>)

  const NoFileMessage: string := "No file found in the current message. Please upload a file and try again."

  /** The parts of the message, or none when it has no content or no parts. */
  function MessageParts(content: Option<Content>): seq<Part> {
    if content.Some? && content.value.parts.Some? then content.value.parts.value else []
  }

  /** The tool creates the directory once the message has parts; the empty
      directory cannot be created, and the catch-all handler reports it. */
  predicate DirectoryFails(content: Option<Content>, directory: string) {
    MessageParts(content) != [] && directory == ""
  }

  const DirectoryFailedMessage: string := "An unexpected error occurred: " + EmptyPathError

  /** `save_document_files_tool`. Every part gets the outcome `OutcomeOf`
      describes; the saved paths are added to the end of the session's list
      of saved files. */
  method SaveDocuments(fs: FileSystem, s: State, content: Option<Content>, directory: string,
                       unwritable: set<string>)
    returns (r: SaveResult, s2: State, outcomes: seq<PartOutcome>)
    ensures DirectoryFails(content, directory) ==>
              r == SaveResult(Error, DirectoryFailedMessage, []) && s2 == s && outcomes == []
    ensures !DirectoryFails(content, directory) ==>
              |outcomes| == |MessageParts(content)|
              && OutcomesOf(fs, directory, unwritable, MessageParts(content), outcomes)
    ensures r.savedPaths == SavedPaths(outcomes)
    ensures r.status == Success <==> r.savedPaths != []
    ensures r.status == Success ==>
              r.message == "Successfully saved " + NatToString(|r.savedPaths|) + " file(s)."
              && s2 == s.(savedFiles := Some(s.savedFiles.GetOr([]) + r.savedPaths))
    ensures r.status != Success ==>
              r.status == Error && s2 == s
              && r.message == (if DirectoryFails(content, directory) then DirectoryFailedMessage else NoFileMessage)
  {
    if DirectoryFails(content, directory) {
      return SaveResult(Error, DirectoryFailedMessage, []), s, [];
    }
    var parts := MessageParts(content);
    outcomes := [];
    var saved: seq<string> := [];
    var i := 0;
    while i < |parts|
      invariant 0 <= i <= |parts| && |outcomes| == i
      invariant saved == SavedPaths(outcomes)
      invariant OutcomesOf(fs, directory, unwritable, parts, outcomes)
    {
      var outcome: PartOutcome;
      if AcceptedPart(parts[i]) {
        var path, tries := FreePath(OnDisk(fs) + (set q | q in saved), Target(directory, parts[i]));
        if path in unwritable {
          outcome := WriteFailed(path, tries);
        } else {
          outcome := Saved(path, tries);
        }
      } else {
        outcome := Skipped;
      }
      OutcomesSnoc(fs, directory, unwritable, parts, outcomes, outcome);
      SavedPathsSnoc(outcomes, outcome);
      if outcome.Saved? {
        saved := saved + [outcome.path];
      }
      outcomes := outcomes + [outcome];
      i := i + 1;
    }
    if saved != [] {
      r := SaveResult(Success, "Successfully saved " + NatToString(|saved|) + " file(s).", saved);
      s2 := s.(savedFiles := Some(s.savedFiles.GetOr([]) + saved));
    } else {
      r := SaveResult(Error, NoFileMessage, []);
      s2 := s;
    }
  }

  predicate Distinct(xs: seq<string>) {
    forall i, j :: 0 <= i < j < |xs| ==> xs[i] != xs[j]
  }

  predicate Avoids(xs: seq<string>, outside: set<string>) {
    forall i :: 0 <= i < |xs| ==> xs[i] !in outside
  }

  /** The paths saved in one call are pairwise distinct, and none of them
      was on disk before the call: no upload overwrites a file. */
  lemma {:induction false} SavedPathsFresh(fs: FileSystem, directory: string, unwritable: set<string>,
                                           parts: seq<Part>, outcomes: seq<PartOutcome>)
    requires OutcomesOf(fs, directory, unwritable, parts, outcomes)
    ensures Distinct(SavedPaths(outcomes)) && Avoids(SavedPaths(outcomes), OnDisk(fs))
    decreases |outcomes|
  {
    if outcomes != [] {
      var init := outcomes[..|outcomes| - 1];
      var last := outcomes[|outcomes| - 1];
      OutcomesPrefix(fs, directory, unwritable, parts, outcomes);
      SavedPathsFresh(fs, directory, unwritable, parts, init);
      assert SavedPaths(outcomes) == SavedPaths(init) + (if last.Saved? then [last.path] else []);
      if last.Saved? {
        LastOutcome(fs, directory, unwritable, parts, outcomes);
        DistinctSnoc(SavedPaths(init), last.path, OnDisk(fs));
      }
    }
  }

  lemma LastOutcome(fs: FileSystem, directory: string, unwritable: set<string>,
                    parts: seq<Part>, outcomes: seq<PartOutcome>)
    requires OutcomesOf(fs, directory, unwritable, parts, outcomes) && outcomes != []
    requires outcomes[|outcomes| - 1].Saved?
    ensures outcomes[|outcomes| - 1].path !in OnDisk(fs)
    ensures outcomes[|outcomes| - 1].path !in SavedPaths(outcomes[..|outcomes| - 1])
  {
    var n := |outcomes| - 1;
    assert OutcomeOf(fs, directory, unwritable, parts[n], outcomes[..n], outcomes[n]);
  }

  lemma DistinctSnoc(xs: seq<string>, x: string, outside: set<string>)
    requires Distinct(xs) && Avoids(xs, outside)
    requires x !in xs && x !in outside
    ensures Distinct(xs + [x]) && Avoids(xs + [x], outside)
  {
  }

  lemma OutcomesPrefix(fs: FileSystem, directory: string, unwritable: set<string>,
                       parts: seq<Part>, outcomes: seq<PartOutcome>)
    requires OutcomesOf(fs, directory, unwritable, parts, outcomes) && outcomes != []
    ensures OutcomesOf(fs, directory, unwritable, parts, outcomes[..|outcomes| - 1])
  {
    var init := outcomes[..|outcomes| - 1];
    forall n | 0 <= n < |init|
      ensures OutcomeOf(fs, directory, unwritable, parts[n], init[..n], init[n])
    {
      assert init[..n] == outcomes[..n] && init[n] == outcomes[n];
    }
  }

  // ---------------------------------------------------------------------
  // Reading a document

  datatype ReadResult = ReadResult(status: Status, message: string, preview: string, totalLength: nat)

  /** What opening a path raises when it names a directory. */
  function IsADirectoryText(path: string): string {
    "[Errno 21] Is a directory: " + ReprString(path)
  }

  /** The text a document yields, or the message of the error reading it
      raises; `None` for a path that is neither `.pdf` nor `.md`. */
  function Extract(fs: FileSystem, path: string): Option<Result<string>>
    requires fs.Exists(path)
  {
    if EndsWith(Lower(path), ".pdf") then
      if path !in fs.files then Some(Fail(IsADirectoryText(path)))
      else match fs.files[path].pdfPages
           case Fail(e) => Some(Fail(e))
           case Ok(pages) => Some(Ok(PagesText(pages, 1)))
    else if EndsWith(Lower(path), ".md") then
      if path !in fs.files then Some(Fail(IsADirectoryText(path)))
      else if "utf-8" in fs.files[path].decodings then Some(Ok(fs.files[path].decodings["utf-8"]))
      else Some(Fail(fs.files[path].decodeError))
    else None
  }

  /** `read_document_content_tool`: the text goes to `extracted_content` and
      the document is marked processed; nothing else in the state changes,
      and on any error nothing changes at all. */
  function ReadDocument(fs: FileSystem, s: State, path: string): (out: (ReadResult, State))
    ensures !fs.Exists(path) ==> out == (ReadResult(Error, "File not found: " + path, "", 0), s)
    ensures out.0.status == Success ==>
              fs.Exists(path) && Extract(fs, path).Some? && Extract(fs, path).value.Ok?
              && out.1 == s.(extractedContent := Some(Extract(fs, path).value.value), documentProcessed := true)
              && out.0.totalLength == |Extract(fs, path).value.value|
              && out.0.preview == ShortPreview(Extract(fs, path).value.value)
    ensures out.0.status != Success ==> out.0.status == Error && out.1 == s
    ensures fs.Exists(path) && Extract(fs, path).Some? && Extract(fs, path).value.Ok? ==> out.0.status == Success
  {
    if !fs.Exists(path) then (ReadResult(Error, "File not found: " + path, "", 0), s)
    else match Extract(fs, path)
      case None => (ReadResult(Error, "Unsupported file type: " + path, "", 0), s)
      case Some(Fail(e)) => (ReadResult(Error, "Error reading document content: " + e, "", 0), s)
      case Some(Ok(content)) =>
        (ReadResult(Success, "Successfully extracted content from " + path, ShortPreview(content), |content|),
         s.(extractedContent := Some(content), documentProcessed := true))
  }

  /** A PDF's pages, as the reader stores them, can be told apart again,
      unless a page holds a line that reads as the next page's marker. */
  lemma ReadPdfPages(fs: FileSystem, s: State, path: string)
    requires path in fs.files && EndsWith(Lower(path), ".pdf") && fs.files[path].pdfPages.Ok?
    requires MarkerFree(fs.files[path].pdfPages.value, 1)
    ensures var out := ReadDocument(fs, s, path);
            out.0.status == Success && out.1.extractedContent.Some?
            && ReadPages(SplitLines(out.1.extractedContent.value)[1..], 1) == fs.files[path].pdfPages.value
  {
    PagesRoundTrip(fs.files[path].pdfPages.value);
  }
}

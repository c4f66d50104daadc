/** The document tools of the `BA` package (`BA/tools/file.py`): list the
    PDF, Markdown and text files of a working directory, save the files
    attached to the user's message under generated names, and read one
    document with page markers, an encoding fallback and a two-ended
    preview. The fresh directory the working-directory lookup falls back to is
    an input. */
module BaFile {
  import opened Wrappers
  import opened Strings
  import opened Records
  import opened Paths
  import opened Clock
  import opened Host
  import opened Formatting
  import opened ReportBlocks

  // ---------------------------------------------------------------------
  // Finding documents

  /** `file_path.suffix.lower() in {'.pdf', '.md', '.txt'}`. */
  predicate IsDocumentSuffix(name: string) {
    var suffix := Lower(Suffix(name));
    suffix == ".pdf" || suffix == ".md" || suffix == ".txt"
  }

  /** The regular files of the listing with a document suffix, as paths, in
      listing order. */
  function DocumentFiles(fs: FileSystem, directory: string, names: seq<string>): seq<string> {
    if names == [] then []
    else (if fs.IsFile(Join(directory, names[0])) && IsDocumentSuffix(names[0]) then [Join(directory, names[0])] else [])
         + DocumentFiles(fs, directory, names[1..])
  }

  /** A path is listed exactly when it is a regular file of the directory
      with a document suffix. */
  lemma {:induction false} DocumentFilesMembers(fs: FileSystem, directory: string, names: seq<string>, p: string)
    ensures p in DocumentFiles(fs, directory, names)
            <==> exists i :: 0 <= i < |names| && p == Join(directory, names[i])
                             && fs.IsFile(p) && IsDocumentSuffix(names[i])
  {
    if p in DocumentFiles(fs, directory, names) {
      var i := DocumentFilesSource(fs, directory, names, p);
    }
    if exists i :: 0 <= i < |names| && p == Join(directory, names[i]) && fs.IsFile(p) && IsDocumentSuffix(names[i]) {
      var i :| 0 <= i < |names| && p == Join(directory, names[i]) && fs.IsFile(p) && IsDocumentSuffix(names[i]);
      DocumentFilesListed(fs, directory, names, i);
    }
  }

  /** Every listed path comes from a name of the listing. */
  lemma {:induction false} DocumentFilesSource(fs: FileSystem, directory: string, names: seq<string>, p: string)
    returns (i: nat)
    requires p in DocumentFiles(fs, directory, names)
    ensures i < |names| && p == Join(directory, names[i]) && fs.IsFile(p) && IsDocumentSuffix(names[i])
    decreases |names|
  {
    if p in DocumentFiles(fs, directory, names[1..]) {
      var j := DocumentFilesSource(fs, directory, names[1..], p);
      assert names[j + 1] == names[1..][j];
      i := j + 1;
    } else {
      i := 0;
    }
  }

  /** Every regular document file of the listing is listed. */
  lemma {:induction false} DocumentFilesListed(fs: FileSystem, directory: string, names: seq<string>, i: nat)
    requires i < |names| && fs.IsFile(Join(directory, names[i])) && IsDocumentSuffix(names[i])
    ensures Join(directory, names[i]) in DocumentFiles(fs, directory, names)
    decreases i
  {
    if i > 0 {
      assert names[1..][i - 1] == names[i];
      DocumentFilesListed(fs, directory, names[1..], i - 1);
      assert Join(directory, names[i]) in DocumentFiles(fs, directory, names[1..]);
    }
  }

  /** The find tool's reply. `directory` is the directory it looked at; the
      error reply of the listing does not report it (BA/tools/file.py:95-98),
      so it is meaningful only in the warning and success replies. */
  datatype FindResult = FindResult(status: Status, message: string, docFiles: seq<string>, directory: string)

  /** `get_working_directory`. The stored working directory is reused while
      it exists. Otherwise `tempDir` is used: the directory `tempfile.mkdtemp`
      makes, or, when that fails, one of its two fallbacks. It is created
      when absent, as an empty directory, and stored in the session. */
  function WorkingDirectory(fs: FileSystem, s: State, tempDir: string): (out: (string, State, FileSystem))
    ensures out.1 == s.(workingDirectory := Some(out.0))
    ensures out.2.Exists(out.0)
    ensures out.2 == fs || (!fs.Exists(out.0) && out.2 == fs.(dirs := fs.dirs[out.0 := []]))
  {
    if s.workingDirectory.Some? && fs.Exists(s.workingDirectory.value) then (s.workingDirectory.value, s, fs)
    else (tempDir, s.(workingDirectory := Some(tempDir)),
          if fs.Exists(tempDir) then fs else fs.(dirs := fs.dirs[tempDir := []]))
  }

  /** The call changes neither the session nor the file system exactly when
      the stored working directory still exists, and then returns it; a
      second call reuses whatever the first one returned. */
  lemma WorkingDirectoryReuse(fs: FileSystem, s: State, tempDir: string, later: string)
    ensures var out := WorkingDirectory(fs, s, tempDir);
            (out.1 == s && out.2 == fs <==> s.workingDirectory.Some? && fs.Exists(s.workingDirectory.value))
            && (s.workingDirectory.Some? && fs.Exists(s.workingDirectory.value) ==> out.0 == s.workingDirectory.value)
            && (!(s.workingDirectory.Some? && fs.Exists(s.workingDirectory.value)) ==> out.0 == tempDir)
            && WorkingDirectory(out.2, out.1, later) == out
  {
    var out := WorkingDirectory(fs, s, tempDir);
    if out.1 == s && out.2 == fs {
      assert s.workingDirectory == Some(out.0);
    }
  }

  /** The directory a tool works in, with the session and file system after
      choosing it: the requested directory, or, when that is blank, the
      working directory. */
  function ResolveDirectory(fs: FileSystem, s: State, requested: string, tempDir: string): (string, State, FileSystem) {
    if IsBlank(requested) then WorkingDirectory(fs, s, tempDir) else (requested, s, fs)
  }

  /** `find_document_files_tool`. A missing directory is created (creation
      is assumed to succeed) and reported as a warning; a path that is a file
      makes the listing raise with `listError`. */
  function FindDocuments(fs: FileSystem, s: State, directory: string, tempDir: string,
                         listError: string): (out: (FindResult, State))
  {
    var w := ResolveDirectory(fs, s, directory, tempDir);
    var d := w.0;
    var s1 := w.1;
    var fs1 := w.2;
    if !fs1.Exists(d) then
      (FindResult(Warning, "Directory " + d + " created. No files found yet.", [], d), s1)
    else if d !in fs1.dirs then
      (FindResult(Error, "Error listing directory contents: " + listError, [], d), s1)
    else
      var names := fs1.dirs[d];
      var docs := DocumentFiles(fs1, d, names);
      if docs == [] then
        var message := if names == [] then "Directory " + d + " is empty."
                       else "No PDF, MD, or TXT files found in " + d + ". Directory contains "
                            + NatToString(|names|) + " other files.";
        (FindResult(Warning, message, [], d), s1)
      else
        (FindResult(Success, "Found " + NatToString(|docs|) + " document file(s) in " + d, docs, d),
         s1.(availableDocFiles := Some(docs), workingDirectory := Some(d)))
  }

  /** Finding nothing is a warning, not an error: the only error is a path
      that is not a directory, and a blank request never gets the
      created-directory warning. Success lists the documents and makes the
      directory the working directory. Any other outcome leaves the session
      as the working-directory lookup left it: untouched for a requested
      directory. */
  lemma FindOutcome(fs: FileSystem, s: State, directory: string, tempDir: string, listError: string)
    ensures var w := ResolveDirectory(fs, s, directory, tempDir);
            var d := w.0;
            var fs1 := w.2;
            var out := FindDocuments(fs, s, directory, tempDir, listError);
            out.0.directory == d
            && (IsBlank(directory) ==> fs1.Exists(d) && w.1 == s.(workingDirectory := Some(d)))
            && (!IsBlank(directory) ==> d == directory && fs1 == fs && w.1 == s)
            && (out.0.status == Error <==> fs1.Exists(d) && d !in fs1.dirs)
            && (out.0.status == Success <==> d in fs1.dirs && DocumentFiles(fs1, d, fs1.dirs[d]) != [])
            && (out.0.status == Warning <==> !fs1.Exists(d) || (d in fs1.dirs && DocumentFiles(fs1, d, fs1.dirs[d]) == []))
            && (out.0.status == Success ==>
                  out.0.docFiles == DocumentFiles(fs1, d, fs1.dirs[d])
                  && out.1 == s.(availableDocFiles := Some(out.0.docFiles), workingDirectory := Some(d)))
            && (out.0.status != Success ==> out.1 == w.1 && out.0.docFiles == [])
  {
    var w := ResolveDirectory(fs, s, directory, tempDir);
    var d := w.0;
    var fs1 := w.2;
    if fs1.Exists(d) && d in fs1.dirs {
      var docs := DocumentFiles(fs1, d, fs1.dirs[d]);
      if docs == [] {
        assert FindDocuments(fs, s, directory, tempDir, listError).0.status == Warning;
      } else {
        assert FindDocuments(fs, s, directory, tempDir, listError).0.docFiles == docs;
      }
    }
  }

  /** The warning tells an empty directory from one holding only other
      entries, and counts those entries. */
  lemma FindWarnings(fs: FileSystem, s: State, directory: string, tempDir: string, listError: string)
    requires var w := ResolveDirectory(fs, s, directory, tempDir);
             w.0 in w.2.dirs && DocumentFiles(w.2, w.0, w.2.dirs[w.0]) == []
    ensures var w := ResolveDirectory(fs, s, directory, tempDir);
            var d := w.0;
            var names := w.2.dirs[d];
            var out := FindDocuments(fs, s, directory, tempDir, listError);
            out.0.status == Warning
            && (names == [] ==> out.0.message == "Directory " + d + " is empty.")
            && (names != [] ==>
                  out.0.message == "No PDF, MD, or TXT files found in " + d + ". Directory contains "
                                   + NatToString(|names|) + " other files.")
  {
  }

  // ---------------------------------------------------------------------
  // Saving attachments

  /** The MIME types the tool saves, with their extensions. */
  function MimeExtension(mime: Option<string>): (e: string)
    ensures e != "" <==> mime == Some("application/pdf") || mime == Some("text/markdown") || mime == Some("text/plain")
    ensures e != "" ==> e[0] == '.' && '.' !in e[1..] && '/' !in e
  {
    if mime == Some("application/pdf") then ".pdf"
    else if mime == Some("text/markdown") then ".md"
    else if mime == Some("text/plain") then ".txt"
    else ""
  }

  /** `document_<stamp>_<index><ext>`. */
  function DocumentName(at: DateTime, index: nat, extension: string): string {
    "document_" + Stamp(at) + "_" + NatToString(index) + extension
  }

  /** What became of one message part. */
  datatype BaOutcome =
    | NoData                                        // no inline data, or empty data
    | Unsupported(index: nat, mime: Option<string>) // an error entry
    | Saved(name: string, path: string, size: string, mimeType: string)
    | WriteFailed(name: string)                     // an error entry

  /** The outcome of part `i`. `clock(i)` is the clock reading taken for that
      part; writing to a path in `unwritable` raises. */
  function PartOutcome(directory: string, i: nat, p: Part, clock: nat -> DateTime,
                       unwritable: set<string>): BaOutcome
  {
    if p.inlineData.None? || p.inlineData.value.data == [] then NoData
    else
      var blob := p.inlineData.value;
      var extension := MimeExtension(blob.mimeType);
      if extension == "" then Unsupported(i, blob.mimeType)
      else
        var name := DocumentName(clock(i), i, extension);
        var path := Join(directory, name);
        if path in unwritable then WriteFailed(name)
        else Saved(name, path, SizeText(|blob.data|), blob.mimeType.value)
  }

  function Outcomes(directory: string, parts: seq<Part>, clock: nat -> DateTime,
                    unwritable: set<string>): (r: seq<BaOutcome>)
    ensures |r| == |parts|
    ensures forall i :: 0 <= i < |parts| ==> r[i] == PartOutcome(directory, i, parts[i], clock, unwritable)
  {
    seq(|parts|, i requires 0 <= i < |parts| => PartOutcome(directory, i, parts[i], clock, unwritable))
  }

  function SavedPaths(outcomes: seq<BaOutcome>): seq<string> {
    if outcomes == [] then []
    else (if outcomes[0].Saved? then [outcomes[0].path] else []) + SavedPaths(outcomes[1..])
  }

  datatype SaveResult = SaveResult(status: Status, message: string, outcomes: seq<BaOutcome>)

  /** `save_document_files_tool`. The directory is chosen (and, when blank,
      the working directory looked up) before the message is examined, so
      every reply leaves at least that lookup's session. The saved paths
      replace the session's list of saved files. */
  function SaveDocuments(fs: FileSystem, s: State, content: Option<Content>, directory: string, tempDir: string,
                         clock: nat -> DateTime, unwritable: set<string>): (out: (SaveResult, State))
    ensures var s1 := ResolveDirectory(fs, s, directory, tempDir).1;
            content.None? ==> out == (SaveResult(Error, "No user content found.", []), s1)
    ensures var s1 := ResolveDirectory(fs, s, directory, tempDir).1;
            content.Some? && (content.value.parts.None? || content.value.parts.value == []) ==>
              out == (SaveResult(Error, "No file parts found.", []), s1)
  {
    var w := ResolveDirectory(fs, s, directory, tempDir);
    var d := w.0;
    var s1 := w.1;
    if content.None? then (SaveResult(Error, "No user content found.", []), s1)
    else if content.value.parts.None? || content.value.parts.value == [] then
      (SaveResult(Error, "No file parts found.", []), s1)
    else
      var outcomes := Outcomes(d, content.value.parts.value, clock, unwritable);
      var saved := SavedPaths(outcomes);
      if saved != [] then
        (SaveResult(Success, "Saved " + NatToString(|saved|) + " file(s) to " + d, outcomes),
         s1.(savedFiles := Some(saved), workingDirectory := Some(d)))
      else (SaveResult(Error, "No valid files were saved.", outcomes), s1)
  }

  /** Save succeeds exactly when some part was saved, and then the session's
      saved files are exactly the paths saved by this call. A failure leaves
      the session as the working-directory lookup left it: untouched for a
      requested directory. */
  lemma SaveOutcome(fs: FileSystem, s: State, content: Option<Content>, directory: string, tempDir: string,
                    clock: nat -> DateTime, unwritable: set<string>)
    requires content.Some? && content.value.parts.Some? && content.value.parts.value != []
    ensures var w := ResolveDirectory(fs, s, directory, tempDir);
            var d := w.0;
            var out := SaveDocuments(fs, s, content, directory, tempDir, clock, unwritable);
            var saved := SavedPaths(out.0.outcomes);
            (IsBlank(directory) ==> w.1 == s.(workingDirectory := Some(d)))
            && (!IsBlank(directory) ==> d == directory && w.1 == s)
            && out.0.outcomes == Outcomes(d, content.value.parts.value, clock, unwritable)
            && (out.0.status == Success <==> saved != [])
            && (out.0.status == Success ==>
                  out.0.message == "Saved " + NatToString(|saved|) + " file(s) to " + d
                  && out.1 == s.(savedFiles := Some(saved), workingDirectory := Some(d)))
            && (out.0.status != Success ==>
                  out.0.status == Error && out.0.message == "No valid files were saved." && out.1 == w.1)
  {
  }

  /** A part is saved only with one of the three MIME types, and its name
      carries the matching extension and the part's index. */
  lemma SavedPartShape(directory: string, i: nat, p: Part, clock: nat -> DateTime, unwritable: set<string>)
    requires PartOutcome(directory, i, p, clock, unwritable).Saved?
    ensures var o := PartOutcome(directory, i, p, clock, unwritable);
            p.inlineData.Some? && p.inlineData.value.data != []
            && p.inlineData.value.mimeType.Some?
            && o.name == DocumentName(clock(i), i, MimeExtension(p.inlineData.value.mimeType))
            && o.path == Join(directory, o.name)
            && o.size == SizeText(|p.inlineData.value.data|)
            && EndsWith(o.name, MimeExtension(p.inlineData.value.mimeType))
  {
    var o := PartOutcome(directory, i, p, clock, unwritable);
    var e := MimeExtension(p.inlineData.value.mimeType);
    assert o.name[|o.name| - |e|..] == e;
  }

  /** The length of the leading run of digits. */
  function DigitRun(s: string): (k: nat)
    ensures k <= |s|
  {
    if s == [] || !IsDigit(s[0]) then 0 else 1 + DigitRun(s[1..])
  }

  lemma {:induction false} DigitRunPrefix(a: string, e: string)
    requires forall i :: 0 <= i < |a| ==> IsDigit(a[i])
    requires e != [] && !IsDigit(e[0])
    ensures DigitRun(a + e) == |a|
    decreases |a|
  {
    if a == [] {
      assert a + e == e;
    } else {
      assert (a + e)[1..] == a[1..] + e;
      DigitRunPrefix(a[1..], e);
    }
  }

  /** Digits followed by an extension determine the digits. */
  lemma IndexExtensionInjective(i: nat, j: nat, e1: string, e2: string)
    requires e1 != [] && e1[0] == '.' && e2 != [] && e2[0] == '.'
    requires NatToString(i) + e1 == NatToString(j) + e2
    ensures i == j
  {
    var a, b := NatToString(i), NatToString(j);
    DigitRunPrefix(a, e1);
    DigitRunPrefix(b, e2);
    assert (a + e1)[..|a|] == a;
    assert (b + e2)[..|b|] == b;
    NatToStringInjective(i, j);
  }

  /** Different parts never get the same name, whatever the clock reads:
      the index sits between the stamp and the extension. */
  lemma DocumentNamesDistinct(t: DateTime, u: DateTime, i: nat, j: nat, e1: string, e2: string)
    requires e1 != [] && e1[0] == '.' && e2 != [] && e2[0] == '.'
    requires i != j
    ensures DocumentName(t, i, e1) != DocumentName(u, j, e2)
  {
    if DocumentName(t, i, e1) == DocumentName(u, j, e2) {
      var n := DocumentName(t, i, e1);
      StampShape(t);
      StampShape(u);
      assert n == ("document_" + Stamp(t) + "_") + (NatToString(i) + e1);
      assert n == ("document_" + Stamp(u) + "_") + (NatToString(j) + e2);
      assert n[25..] == NatToString(i) + e1;
      assert n[25..] == NatToString(j) + e2;
      IndexExtensionInjective(i, j, e1, e2);
    }
  }

  lemma JoinInjective(d: string, a: string, b: string)
    requires a != [] && a[0] != '/' && b != [] && b[0] != '/'
    requires Join(d, a) == Join(d, b)
    ensures a == b
  {
    assert !StartsWith(a, "/") && !StartsWith(b, "/");
    var pre := if d == [] || d[|d| - 1] == '/' then d else d + "/";
    assert Join(d, a) == pre + a && Join(d, b) == pre + b;
    assert a == Join(d, a)[|pre|..];
  }

  /** Two parts of one message are never saved to the same path. */
  lemma SavedPathsDistinct(directory: string, parts: seq<Part>, clock: nat -> DateTime,
                           unwritable: set<string>, i: nat, j: nat)
    requires i < j < |parts|
    requires PartOutcome(directory, i, parts[i], clock, unwritable).Saved?
    requires PartOutcome(directory, j, parts[j], clock, unwritable).Saved?
    ensures Outcomes(directory, parts, clock, unwritable)[i].path
            != Outcomes(directory, parts, clock, unwritable)[j].path
  {
    var os := Outcomes(directory, parts, clock, unwritable);
    SavedPartShape(directory, i, parts[i], clock, unwritable);
    SavedPartShape(directory, j, parts[j], clock, unwritable);
    var e1 := MimeExtension(parts[i].inlineData.value.mimeType);
    var e2 := MimeExtension(parts[j].inlineData.value.mimeType);
    DocumentNamesDistinct(clock(i), clock(j), i, j, e1, e2);
    if os[i].path == os[j].path {
      JoinInjective(directory, os[i].name, os[j].name);
    }
  }

  // ---------------------------------------------------------------------
  // Reading a document

  const NoPageText: string := "[No extractable text on this page]"

  /** The text of a PDF: each page behind its marker, an empty page shown as
      a placeholder. */
  function PdfText(pages: seq<string>, first: nat): string {
    if pages == [] then ""
    else "\n--- Page " + NatToString(first) + " ---\n" + (if pages[0] == "" then NoPageText else pages[0])
         + PdfText(pages[1..], first + 1)
  }

  /** Every page contributes its marker, so the text is blank only when the
      PDF has no pages: the tool's "no extractable text" warning is reached
      only for a PDF without pages. */
  lemma PdfTextBlank(pages: seq<string>, first: nat)
    ensures IsBlank(PdfText(pages, first)) <==> pages == []
  {
    if pages != [] {
      var t := PdfText(pages, first);
      assert t[1] == '-';
    }
  }

  /** The encodings tried, in order. */
  const Encodings: seq<string> := ["utf-8", "latin-1", "cp1252", "iso-8859-1"]

  /** The first encoding that decodes the file, with the text. */
  function FirstDecoding(decodings: map<string, string>, encodings: seq<string>): (r: Option<(string, string)>)
    ensures r.Some? ==> r.value.0 in encodings && r.value.0 in decodings && r.value.1 == decodings[r.value.0]
    ensures r.None? <==> forall k :: 0 <= k < |encodings| ==> encodings[k] !in decodings
    ensures r.Some? ==> exists k :: 0 <= k < |encodings| && encodings[k] == r.value.0
                                    && forall j :: 0 <= j < k ==> encodings[j] !in decodings
  {
    if encodings == [] then None
    else if encodings[0] in decodings then Some((encodings[0], decodings[encodings[0]]))
    else
      var r := FirstDecoding(decodings, encodings[1..]);
      if r.Some? then
        ghost var k :| 0 <= k < |encodings[1..]| && encodings[1..][k] == r.value.0
                       && forall j :: 0 <= j < k ==> encodings[1..][j] !in decodings;
        assert encodings[k + 1] == r.value.0;
        assert forall j :: 0 <= j < k + 1 ==> encodings[j] !in decodings by {
          forall j | 0 <= j < k + 1
            ensures encodings[j] !in decodings
          {
            if j > 0 {
              assert encodings[j] == encodings[1..][j - 1];
            }
          }
        }
        r
      else
        assert forall k :: 0 <= k < |encodings| ==> encodings[k] !in decodings by {
          forall k | 0 <= k < |encodings|
            ensures encodings[k] !in decodings
          {
            if k > 0 {
              assert encodings[k] == encodings[1..][k - 1];
            }
          }
        }
        r
  }

  /** `str(encodings)` as the error message prints it. */
  const EncodingsText: string := "['utf-8', 'latin-1', 'cp1252', 'iso-8859-1']"

  /** A Python slice bound: negative counts from the end; clamped. */
  function SliceBound(length: nat, k: int): (r: nat)
    ensures r <= length
    ensures 0 <= k <= length ==> r == k
  {
    if k < 0 then (if length + k < 0 then 0 else length + k)
    else if k > length then length else k
  }

  /** `content[:half] + note + content[-half:]` when the content is longer
      than `limit`, the content otherwise; `half` is `limit // 2` (Python
      rounds down, also for a negative limit). */
  function TwoEndedPreview(content: string, limit: int): string {
    if |content| > limit then
      var half := FloorDiv2(limit);
      content[..SliceBound(|content|, half)] + OmittedNote(|content| - limit)
      + content[SliceBound(|content|, -half)..]
    else content
  }

  /** Python's `n // 2`. */
  function FloorDiv2(n: int): (r: int)
    ensures 2 * r <= n < 2 * r + 2
  {
    n / 2
  }

  function OmittedNote(count: int): string {
    "\n\n[... " + IntToString(count) + " characters omitted ...]\n\n"
  }

  /** With a limit of at least 2, the two slices are plain prefix and
      suffix of `limit // 2` characters each. */
  lemma PreviewHalves(content: string, limit: int)
    requires limit >= 2 && |content| > limit
    ensures var half := FloorDiv2(limit);
            1 <= half <= |content|
            && TwoEndedPreview(content, limit)
                 == content[..half] + OmittedNote(|content| - limit) + content[|content| - half..]
  {
    var half := FloorDiv2(limit);
    assert SliceBound(|content|, half) == half;
    assert SliceBound(|content|, -half) == |content| - half;
  }

  /** With an even limit of at least 2, the preview shows the first and the
      last `limit / 2` characters and the note counts exactly the characters
      left out. */
  lemma PreviewEven(content: string, limit: int)
    requires limit >= 2 && limit % 2 == 0 && |content| > limit
    ensures var half := limit / 2;
            TwoEndedPreview(content, limit)
              == content[..half] + OmittedNote(|content| - limit) + content[|content| - half..]
            && |content| - |content[..half]| - |content[|content| - half..]| == |content| - limit
  {
    PreviewHalves(content, limit);
    assert FloorDiv2(limit) == limit / 2;
  }

  /** With an odd limit of at least 3 the preview leaves out one character
      more than its note says. */
  lemma PreviewOdd(content: string, limit: int)
    requires limit >= 3 && limit % 2 == 1 && |content| > limit
    ensures var half := (limit - 1) / 2;
            TwoEndedPreview(content, limit)
              == content[..half] + OmittedNote(|content| - limit) + content[|content| - half..]
            && |content| - 2 * half == (|content| - limit) + 1
  {
    PreviewHalves(content, limit);
    assert FloorDiv2(limit) == (limit - 1) / 2;
  }

  /** With a limit of 0 or 1, `limit // 2` is 0 and `content[-0:]` is the
      whole text: the "preview" ends with all of the content. */
  lemma PreviewTinyLimit(content: string, limit: int)
    requires 0 <= limit <= 1 && |content| > limit
    ensures TwoEndedPreview(content, limit) == OmittedNote(|content| - limit) + content
  {
    assert FloorDiv2(limit) == 0;
    assert SliceBound(|content|, 0) == 0;
    assert content[..0] == [] && content[0..] == content;
  }

  lemma PreviewShort(content: string, limit: int)
    requires |content| <= limit
    ensures TwoEndedPreview(content, limit) == content
  {
  }

  datatype ReadResult = ReadResult(status: Status, message: string, preview: string)

  /** The text read from a path with a supported suffix, as the tool gets it,
      or the result that ends the read early. */
  function ReadText(data: FileData, path: string, suffix: string): Result<string>
    requires suffix == ".pdf" || suffix == ".md" || suffix == ".txt"
  {
    if suffix == ".pdf" then
      match data.pdfPages
      case Fail(e) => Fail("Error parsing PDF file: " + e)
      case Ok(pages) => Ok(PdfText(pages, 1))
    else
      match FirstDecoding(data.decodings, Encodings)
      case None => Fail("Could not decode file with any of the attempted encodings: " + EncodingsText)
      case Some((_, text)) => Ok(text)
  }

  /** `read_document_content_tool`. Warnings and errors leave the state
      alone; success stores the text, marks the document processed and
      records the file. */
  function ReadDocument(fs: FileSystem, s: State, path: string, limit: int): (out: (ReadResult, State))
    ensures !fs.Exists(path) ==> out == (ReadResult(Error, "File not found: " + path, ""), s)
    ensures fs.Exists(path) && !fs.IsFile(path) ==> out == (ReadResult(Error, "Path is not a file: " + path, ""), s)
    ensures out.0.status != Success ==> out.1 == s
  {
    if !fs.Exists(path) then (ReadResult(Error, "File not found: " + path, ""), s)
    else if !fs.IsFile(path) then (ReadResult(Error, "Path is not a file: " + path, ""), s)
    else
      var suffix := Lower(Suffix(BaseName(path)));
      if suffix != ".pdf" && suffix != ".md" && suffix != ".txt" then
        (ReadResult(Error, "Unsupported file type: " + Suffix(BaseName(path)), ""), s)
      else
        match ReadText(fs.files[path], path, suffix)
        case Fail(message) => (ReadResult(Error, message, ""), s)
        case Ok(content) =>
          if IsBlank(content) then
            if suffix == ".pdf" then
              (ReadResult(Warning, "PDF file " + path + " appears to be empty or contains no extractable text.",
                          "[No extractable text found in PDF]"), s)
            else (ReadResult(Warning, "File " + path + " appears to be empty.", "[Empty file]"), s)
          else
            (ReadResult(Success, "Successfully extracted content from " + BaseName(path), TwoEndedPreview(content, limit)),
             s.(extractedContent := Some(content), documentProcessed := true, currentFile := Some(path)))
  }

  /** A text file is read with the first encoding of utf-8, latin-1,
      cp1252, iso-8859-1 that decodes it; the read fails only when none
      does. */
  lemma ReadTextFallback(fs: FileSystem, s: State, path: string, limit: int)
    requires path in fs.files
    requires var suffix := Lower(Suffix(BaseName(path))); suffix == ".md" || suffix == ".txt"
    ensures var out := ReadDocument(fs, s, path, limit);
            var r := FirstDecoding(fs.files[path].decodings, Encodings);
            (out.0.status == Error <==> r.None?)
            && (r.Some? && !IsBlank(r.value.1) ==>
                  out.0.status == Success && out.1.extractedContent == Some(r.value.1)
                  && out.1.currentFile == Some(path) && out.1.documentProcessed)
            && (r.Some? && IsBlank(r.value.1) ==> out.0.status == Warning && out.0.preview == "[Empty file]")
  {
    var suffix := Lower(Suffix(BaseName(path)));
    assert suffix != ".pdf";
  }

  /** Any file latin-1 can decode is read without error, whatever utf-8
      makes of it. */
  lemma Latin1NeverFails(decodings: map<string, string>)
    requires "latin-1" in decodings
    ensures FirstDecoding(decodings, Encodings).Some?
    ensures "utf-8" in decodings ==> FirstDecoding(decodings, Encodings) == Some(("utf-8", decodings["utf-8"]))
    ensures "utf-8" !in decodings ==> FirstDecoding(decodings, Encodings) == Some(("latin-1", decodings["latin-1"]))
  {
    assert Encodings[1] == "latin-1";
  }

  /** A PDF that parses is read successfully exactly when it has a page, and
      its stored text puts each page behind its marker. */
  lemma ReadPdf(fs: FileSystem, s: State, path: string, limit: int)
    requires path in fs.files && Lower(Suffix(BaseName(path))) == ".pdf"
    requires fs.files[path].pdfPages.Ok?
    ensures var out := ReadDocument(fs, s, path, limit);
            var pages := fs.files[path].pdfPages.value;
            (out.0.status == Success <==> pages != [])
            && (out.0.status == Success ==> out.1.extractedContent == Some(PdfText(pages, 1)))
            && (out.0.status != Success ==> out.0.status == Warning)
  {
    PdfTextBlank(fs.files[path].pdfPages.value, 1);
  }
}

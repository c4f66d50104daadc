/** The second copy of the `business_analyst` document tools
    (`tools/read_file.py`). Its listing tool is the one of `tools/file.py`
    word for word, and so is its combined report; its reader differs in one
    line: it stores the extracted text under the requirements key instead of
    `extracted_content`, where the exporters expect a record. */
module AnalystReadFile {
  import opened Wrappers
  import opened Records
  import opened Host
  import opened Clock
  import opened Documents
  import opened StageExport
  import opened AnalystFile
  import opened AnalysisReport

  /** `read_document_content_tool` of this file: the text goes into the
      requirements slot as raw text. */
  function ReadIntoRequirements(fs: FileSystem, s: State, path: string): (out: (ReadResult, State))
    ensures !fs.Exists(path) ==> out == (ReadResult(Error, "File not found: " + path, "", 0), s)
    ensures out.0.status == Success ==>
              fs.Exists(path) && Extract(fs, path).Some? && Extract(fs, path).value.Ok?
              && out.1 == s.(requirements := Text(Extract(fs, path).value.value), documentProcessed := true)
    ensures out.0.status != Success ==> out.0.status == Error && out.1 == s
  {
    if !fs.Exists(path) then (ReadResult(Error, "File not found: " + path, "", 0), s)
    else match Extract(fs, path)
      case None => (ReadResult(Error, "Unsupported file type: " + path, "", 0), s)
      case Some(Fail(e)) => (ReadResult(Error, "Error reading document content: " + e, "", 0), s)
      case Some(Ok(content)) =>
        (ReadResult(Success, "Successfully extracted content from " + path, ShortPreview(content), |content|),
         s.(requirements := Text(content), documentProcessed := true))
  }

  /** The two readers answer alike; on success they store the same text,
      under different keys. */
  lemma ReadersAgree(fs: FileSystem, s: State, path: string)
    ensures ReadIntoRequirements(fs, s, path).0 == ReadDocument(fs, s, path).0
    ensures ReadDocument(fs, s, path).0.status == Success ==>
              ReadDocument(fs, s, path).1.extractedContent == Some(Extract(fs, path).value.value)
              && ReadIntoRequirements(fs, s, path).1.requirements == Text(Extract(fs, path).value.value)
  {
  }

  /** After this reader succeeds the combined report cannot be written: the
      requirements slot holds text. The requirements exporter fails too,
      unless the text is empty, which it treats as no requirements. */
  lemma ReadThenExport(fs: FileSystem, s: State, path: string, pkg: Package, directory: string,
                       generatedAt: DateTime, savedAt: DateTime, writeError: Option<string>)
    requires ReadIntoRequirements(fs, s, path).0.status == Success
    ensures var s2 := ReadIntoRequirements(fs, s, path).1;
            SaveReport(s2, directory, generatedAt, savedAt, writeError)
              == ExportFailed("Error exporting state: " + AttributeErrorText)
            && (Export(UserRequirements, pkg, s2, directory, generatedAt, savedAt, writeError).ExportFailed?
                <==> Extract(fs, path).value.value != "" || writeError.Some?)
  {
    var s2 := ReadIntoRequirements(fs, s, path).1;
    ExportOutcome(UserRequirements, pkg, s2, directory, generatedAt, savedAt, writeError);
  }
}

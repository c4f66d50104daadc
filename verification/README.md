# Business-analyst document tools, modelled in Dafny

The repository wires LLM agents into a business-analysis pipeline. Its only
deterministic code is a set of tool functions. Those functions read documents
into the session state, render the agents' structured outputs (requirements,
actors, data objects, use cases) as Markdown reports, and turn uploaded files
into Markdown summaries. This project models those tools as pure functions
and proves what their results are.

Modules follow the source files:

| module | models |
|---|---|
| `JsonMarkdown` | `json_to_markdown` / `_convert_value` in `business_analyst/tools/markdown.py` |
| `StageExport`, `ReportBlocks` | the four per-stage report writers, shared by both packages |
| `BaSaveOutput` | `BA/tools/save_agent_output.py` |
| `AnalystSaveOutput` | `business_analyst/tools/save_agent_ouput.py` |
| `AnalystFile`, `Documents` | find, save, read in `business_analyst/tools/file.py`; `find_document_files_tool` in `business_analyst/tools/read_file.py` is the same code, so `AnalystFile.FindDocuments` covers it too |
| `AnalysisReport` | `save_to_markdown_tool`; the same code appears in `business_analyst/tools/file.py` and `business_analyst/tools/read_file.py` |
| `AnalystReadFile` | the reader of `business_analyst/tools/read_file.py` |
| `BaFile` | find, save, read in `BA/tools/file.py` |
| `Parsing` | `parse_file` in `business_analyst/tools/parsing.py` |

Shared modules:

- `Strings`, `Paths`, `Lines`, `Clock` and `Formatting` give Python's string, `os.path`, `split("\n")`, `strftime` and `:.Nf` behaviour.
- `Records` holds the agents' record shapes and the session state.
- `Host` holds the file system as data.
- `Wrappers` holds `Option` and `Result`.

How the model treats the outside world:

- Reports are lists of lines joined by `Unlines`. Every `+=` in the source ends in a newline, so this string is identical to the source's output.
- Reading a report back uses `SplitLines`. It is Python's `split("\n")`, and the model proves it is the inverse of `Unlines`.
- The session state is a record. Each key the tools use holds a `Slot`: absent, a raw text, or a record. `read_file.py` stores a string where the exporters expect a dict, so the text slot matters.
- The file system is data: a directory map, per-file PDF pages and per-encoding decodings.
- Clock readings, write failures and library results are parameters.

## Model

| member | source | states |
|---|---|---|
| `JsonMarkdown.JsonToMarkdownShape` | business_analyst/tools/markdown.py:15-17 | The document is the "Generated on" line, a blank line, then exactly the depth-0 rendering of the data. |
| `JsonMarkdown.ParseConvertScalar` | business_analyst/tools/markdown.py:25-33 | Every scalar (null, bool, int, string) is recovered from its rendering by a reader of backticked literals and unescaped text. So a boolean never renders as a number, and null, the booleans and the integers are told apart. |
| `JsonMarkdown.ConvertScalarInjective` | business_analyst/tools/markdown.py:25-30 | Distinct scalars never render alike. |
| `JsonMarkdown.EscapeValueSpec` | business_analyst/tools/markdown.py:31-33 | The three chained `replace` calls equal the reference escape: exactly one backslash before every `*`, `_` and backtick, all other characters copied. Length grows by the number of those characters. Unescaping restores the value. |
| `JsonMarkdown.EscapeKeySpec` | business_analyst/tools/markdown.py:46 | Keys escape only `*` and `_`, so a backtick passes through. Length grows by their count, and unescaping restores the key. |
| `JsonMarkdown.EscapeNewline` | business_analyst/tools/markdown.py:32 | Escaping neither adds nor removes a newline. |
| `JsonMarkdown.Indent` | business_analyst/tools/markdown.py:22-23 | The indent is 2·depth spaces. |
| `JsonMarkdown.ArrayRendering` | business_analyst/tools/markdown.py:37-40 | A non-empty list is an empty line followed by one `<indent>- <item at depth+1>` line per element, in order. |
| `JsonMarkdown.ScalarArrayRoundTrip` | business_analyst/tools/markdown.py:34-40 | A list of one-line scalars (empty or not) is read back, element by element and in order, from its rendering at any depth. The empty list is read back from `*(empty array)*`. |
| `JsonMarkdown.ObjectRendering` | business_analyst/tools/markdown.py:44-48 | A non-empty dict is an empty line followed by one `<indent>**<escaped key>**: <value>` line per entry, in insertion order. |
| `JsonMarkdown.EscapedKeyThenSep` | business_analyst/tools/markdown.py:46-47 | The first `**: ` after an escaped key is the separator written after it, because every star of the key is escaped. |
| `JsonMarkdown.FlatObjectRoundTrip` | business_analyst/tools/markdown.py:41-48 | A dict of one-line keys and scalar values is read back, keys unescaped and entries in order, from its rendering. The empty dict is read back from `*(empty object)*`. |
| `Paths.ChooseDirectory` | BA/tools/save_agent_output.py:18-20 | A blank or whitespace-only directory is replaced by the fallback; any other is kept as given. The same guard chooses the directory in the analyst package's saver. In `BA/tools/file.py` it decides whether the working directory is looked up (`BaFile.ResolveDirectory`). |
| `StageExport.FileNameShape` | BA/tools/save_agent_output.py:42 | The file name `<stage>_output_version_<stamp>.md` is a single non-empty path component ending in `.md`. |
| `StageExport.ExportOutcome` | BA/tools/save_agent_output.py:44-64 | An export fails exactly when the stage's key holds non-empty text (a `.get` on a string) or the write fails, and each failure has its own message. |
| `StageExport.ExportFile` | BA/tools/save_agent_output.py:40-52 | On success the output file is the chosen directory joined with the file name, its base name is that file name, and the message quotes it. |
| `StageExport.ExportEmpty` | BA/tools/save_agent_output.py:21-29 | With the stage's key absent or empty, the document is only the title and "Generated on" lines, with no `##` section. |
| `StageExport.ExportHeadings` | BA/tools/save_agent_output.py:86-121 | The first line is the stage title. The `##` headings are the section title when the record is present, otherwise none. The `###` headings are the record names in order (unnamed ones defaulted), plus Actor Hierarchy and Stakeholder Summary after all actors, each present only when its key is. |
| `StageExport.ExportRequirementsRoundTrip` | BA/tools/save_agent_output.py:28-37 | After `## Requirements`, every requirement is read back, in order, as its name (default `Unnamed Requirement`) and its five fields (default `N/A`). |
| `StageExport.PackagesAgree` | business_analyst/tools/save_agent_ouput.py:200-232 | The two packages' exporters succeed and fail together and write the same file name. Their documents agree for three stages and differ for use cases, whose title the analyst copy writes as `DATA_OBJECT_OUTPUT`. |
| `ReportBlocks.RequirementsBlockHeadings` | BA/tools/save_agent_output.py:30-32 | N requirements give exactly N `###` headings, their names in order, and no `##` heading. |
| `ReportBlocks.ReadRequirementsBlock` | BA/tools/save_agent_output.py:31-37 | Reading requirement lines back yields each requirement's shown name and fields, in order, and then continues with the lines that follow. |
| `ReportBlocks.ActorsSectionHeadings` | BA/tools/save_agent_output.py:89-121 | An actors section has one `###` heading per actor, in order, then the hierarchy and summary headings, each at most once and only when present. |
| `ReportBlocks.ActorSubsections` | BA/tools/save_agent_output.py:93-111 | An actor's `####` subsections are Responsibilities, Permissions and Interactions, in that order, each present exactly when the actor carries that key. |
| `ReportBlocks.BulletsSpec` | BA/tools/save_agent_output.py:95-96 | A list subsection has one `- item` bullet per element, in order. |
| `ReportBlocks.InteractionLinesSpec` | BA/tools/save_agent_output.py:107-110 | Each interaction gives exactly three lines, Target, Type and Description, in order. |
| `ReportBlocks.DataObjectsBlockHeadings` | BA/tools/save_agent_output.py:172-175 | Data objects give one `###` heading each, in order (default `Unnamed Object`). |
| `ReportBlocks.UseCasesBlockHeadings` | BA/tools/save_agent_output.py:226-232 | Use cases give one `###` heading each, in order, with the package's default name. |
| `BaSaveOutput.Save` | BA/tools/save_agent_output.py:6-64 | The BA writers fall back to `assets/output/agent`, fail exactly on a text-valued key or a write error, and tag their messages UR, AC, DO or UC. |
| `AnalystSaveOutput.Save` | business_analyst/tools/save_agent_ouput.py:6-63 | The analyst writers fall back to the session's working directory and report every crash as "UR". Their use-case writer reports success as "DO". |
| `AnalystFile.DocumentPathsMembers` | business_analyst/tools/file.py:29-31 | A path is listed iff it joins the directory with an entry whose lower-cased name ends in `.pdf` or `.md` (not `.txt`). |
| `AnalystFile.FindDocuments` | business_analyst/tools/file.py:20-45 | Success happens iff the directory exists and has a match. It lists the matches in order and stores them in state. A missing directory and no matches are both errors that leave state alone. |
| `AnalystFile.Subtype` | business_analyst/tools/file.py:81 | The image subtype is the slash-free text that starts after the first `/` and runs to the next `/` or to the end. |
| `AnalystFile.AddedExtension` | business_analyst/tools/file.py:77-82 | `.pdf` for `application/pdf`, `.<subtype>` for `image/*`, nothing otherwise. |
| `AnalystFile.UploadName` | business_analyst/tools/file.py:75-82 | The name (default `uploaded_file`) gets an extension only when it has none. |
| `AnalystFile.CandidateInjective` | business_analyst/tools/file.py:84-89 | Distinct counters give distinct candidate paths `<base>_<k><ext>`. |
| `AnalystFile.FreePath` | business_analyst/tools/file.py:84-89 | The chosen path is not taken, and every earlier candidate was taken, so k is the smallest free counter. |
| `AnalystFile.SaveDocuments` | business_analyst/tools/file.py:57-147 | A message with parts and an empty directory fails when the directory is created: the catch-all error quotes `[Errno 2] No such file or directory: ''`, no part is handled and state is left alone. Otherwise every part gets its outcome. The reply is success iff some file was saved, and then `saved_files` is extended, never replaced. Otherwise the "No file found" error leaves state alone. |
| `AnalystFile.SavedPathsFresh` | business_analyst/tools/file.py:84-108 | Paths saved in one call are pairwise distinct and none was on disk before. |
| `AnalystFile.ReadDocument` | business_analyst/tools/file.py:159-195 | A missing file is an error. Success stores the text under `extracted_content`, sets `document_processed`, and reports the length and the short preview. Any failure leaves state alone. |
| `AnalystFile.ReadPdfPages` | business_analyst/tools/file.py:168-175 | The stored PDF text splits back into the page texts, in page order, when no page holds a line equal to the next page's marker. Pages may span many lines. |
| `Documents.PagesRoundTrip` | business_analyst/tools/file.py:173-175 | Page-marker concatenation is decoded back into the pages: each page is the lines between its marker and the next page's marker, joined again. This holds whenever no page holds a line equal to the next page's marker. |
| `ReportBlocks.ReprLineSeparator` | business_analyst/tools/file.py:47-51 | `repr`, as quoted in an OS error message, escapes a line separator as `\u2028`. |
| `ReportBlocks.ReprZeroWidthSpace` | business_analyst/tools/file.py:47-51 | `repr` escapes a zero-width space, a format character, as `\u200b`. |
| `ReportBlocks.HexReadBack` | business_analyst/tools/file.py:47-51 | The hex digits of an escape read back as the number written, for every number that fits the width. Every digit is one of `0123456789abcdef`. |
| `ReportBlocks.ReprCharTwoDigits` | business_analyst/tools/file.py:47-51 | Every unprintable Latin-1 character other than `\n`, `\r` and `\t` becomes `\x` and two hex digits. The digits read back as its code point. |
| `ReportBlocks.ReprCharFourDigits` | business_analyst/tools/file.py:47-51 | Every unprintable character from U+0100 to U+FFFF becomes `\u` and four hex digits. The digits read back as its code point. |
| `ReportBlocks.ReprCharEightDigits` | business_analyst/tools/file.py:47-51 | Every unprintable character beyond U+FFFF becomes `\U` and eight hex digits. The digits read back as its code point. |
| `ReportBlocks.ReprPrintableKept` | business_analyst/tools/file.py:47-51 | `repr` keeps a printable non-ASCII letter as it is. |
| `Documents.PagesTextEmpty` | business_analyst/tools/file.py:172-175 | The marker concatenation is empty iff the PDF has no pages, and is never blank otherwise. |
| `Documents.ShortPreview` | business_analyst/tools/file.py:193 | The preview is the content when it has at most 500 characters. Otherwise it is the first 500 characters followed by `...`. |
| `AnalysisReport.SaveReport` | business_analyst/tools/read_file.py:107-219 | The combined report fails iff some record key holds a string, the output path is empty (creating it raises `[Errno 2] No such file or directory: ''`), or the write fails. Each failure has the source's message, in that order of precedence. On success it is written to `analysis_output_version_<stamp>.md` in the output directory. |
| `AnalysisReport.ReportFile` | business_analyst/tools/file.py:290-304 | Without a crash or write error the report is written iff the output path is not empty. Its base name is then the stamped `.md` name. |
| `AnalysisReport.ReportHeadings` | business_analyst/tools/file.py:218-288 | In a written report, the `##` chapters are Requirements, Data Objects, Actors, Use Cases, in this order, each iff its key is present. Their `###` headings are the records' headings. The use-case chapter copies the stored text and its headings verbatim. |
| `AnalysisReport.EmptyTextDisagreement` | business_analyst/tools/read_file.py:126-128 | An empty string under the requirements key exports fine, because the exporter treats it as falsy, but crashes the combined report. |
| `AnalystReadFile.ReadIntoRequirements` | business_analyst/tools/read_file.py:63-99 | This reader stores the text under `user_requirements_extraction` and sets `document_processed`. A missing file is an error, and failures leave state alone. |
| `AnalystReadFile.ReadersAgree` | business_analyst/tools/read_file.py:90-92 | The two readers give the same reply. They store the same text, under different keys. |
| `AnalystReadFile.ReadThenExport` | business_analyst/tools/read_file.py:91-128 | After a successful read the combined report always fails. The requirements exporter fails unless the text is empty or a write error occurs. |
| `BaFile.DocumentFilesMembers` | BA/tools/file.py:71-73 | A path is listed iff it is a regular file in the directory whose lower-cased suffix is `.pdf`, `.md` or `.txt`. |
| `BaFile.WorkingDirectory` | BA/tools/file.py:11-30 | The working directory ends up stored in the session, and nothing else there changes. It exists afterwards. The file system gains at most that directory, as an empty one, when it was absent. |
| `BaFile.WorkingDirectoryReuse` | BA/tools/file.py:11-30 | The lookup changes neither session nor file system iff the stored directory still exists, and then returns it. Otherwise it returns the new temporary directory. A second lookup returns what the first returned and changes nothing. |
| `BaFile.FindOutcome` | BA/tools/file.py:43-130 | A blank request uses the working directory, which then exists and is stored. A requested directory leaves state and file system alone. Error iff the path exists but is no directory. Success iff there are matches, and then they and the directory are stored. Warning iff the directory is missing or has no match. No other outcome touches state beyond the lookup. |
| `BaFile.FindWarnings` | BA/tools/file.py:101-117 | No matches gives a warning whose message tells an empty directory from one holding N other files. |
| `BaFile.MimeExtension` | BA/tools/file.py:179-185 | Exactly `application/pdf`, `text/markdown` and `text/plain` have an extension, and it is a single dotted suffix. |
| `BaFile.SaveOutcome` | BA/tools/file.py:150-245 | A blank request uses the working directory and stores it. A requested directory leaves state alone. Each part gets its outcome. Success iff some file was saved, and then the saved paths and the directory are stored. Otherwise the error "No valid files were saved." changes nothing beyond the lookup. |
| `BaFile.SavedPartShape` | BA/tools/file.py:173-219 | A saved part had data and a mapped MIME type. It is named `document_<stamp>_<i><ext>` in the directory, with the size as KB/MB text. |
| `BaFile.DocumentNamesDistinct` | BA/tools/file.py:194-196 | Different part indices give different names, whatever the clock says. |
| `BaFile.SavedPathsDistinct` | BA/tools/file.py:194-197 | Two saved parts of one call never share a path. |
| `BaFile.PdfTextBlank` | BA/tools/file.py:292-308 | The PDF text is blank iff the PDF has no pages, so the empty-PDF warning needs zero pages. |
| `BaFile.FirstDecoding` | BA/tools/file.py:320-333 | The decoding used is the first encoding in the list that succeeds. There is none iff all fail. |
| `BaFile.Latin1NeverFails` | BA/tools/file.py:320-327 | When latin-1 succeeds, the result is utf-8 if that succeeds and latin-1 otherwise. |
| `BaFile.ReadTextFallback` | BA/tools/file.py:317-341 | A text file is an error iff no encoding decodes it. Blank content gives the `[Empty file]` warning. Otherwise the text is stored with the current file. |
| `BaFile.ReadPdf` | BA/tools/file.py:286-308 | A loaded PDF succeeds iff it has pages, storing the page-marker text. Otherwise it is a warning. |
| `BaFile.ReadDocument` | BA/tools/file.py:265-281 | A missing path and a non-file path are errors, and no failure touches state. |
| `BaFile.PreviewShort` | BA/tools/file.py:360-365 | Content no longer than the limit is its own preview. |
| `BaFile.PreviewEven` | BA/tools/file.py:360-363 | For an even limit the preview is the first and last limit/2 characters around a note that counts exactly the characters left out. |
| `BaFile.PreviewOdd` | BA/tools/file.py:360-363 | For an odd limit the note's count is one less than the characters actually left out. |
| `BaFile.PreviewTinyLimit` | BA/tools/file.py:362-363 | For a limit of 0 or 1, `content[-0:]` is the whole text, so the preview is the note followed by all of the content. |
| `Parsing.FirstInlineAt` | business_analyst/tools/parsing.py:42-49 | The part used is the first one carrying inline data. None is used when no part has any. |
| `Parsing.FirstInlineIgnoresRest` | business_analyst/tools/parsing.py:42-49 | Parts after the first inline one do not change the choice. |
| `Parsing.FileName` | business_analyst/tools/parsing.py:33 | The stripped name, or `uploaded_file` when it is blank. |
| `Parsing.MimeText` | business_analyst/tools/parsing.py:88 | The shown type is `Unknown` iff the type is missing, empty or literally `Unknown`, and otherwise the type itself. |
| `Parsing.DispatchOrder` | business_analyst/tools/parsing.py:61-77 | For every type and name: the content is read as PDF iff the type is `application/pdf`, whatever the name. It is read as text iff it is not a PDF and the type is `text/plain` or the name ends in `.txt` or `.md`. The ending is matched with its case, so a name ending in `.TXT` or `.MD` with any other type is unsupported. |
| `Parsing.CaseVariantUnsupported` | business_analyst/tools/parsing.py:74 | A name ending in any other letter-case spelling of `.txt` or `.md` does not make an upload text. |
| `Parsing.PdfContentBlank` | business_analyst/tools/parsing.py:68-73 | A loaded PDF whose pages are all blank gives `[No text content found in PDF]`. |
| `Parsing.PdfContentText` | business_analyst/tools/parsing.py:71 | A PDF with some non-blank page gives its non-empty pages joined by blank lines, and the result is not blank. |
| `Parsing.AnalysisBlockReadBack` | business_analyst/tools/parsing.py:85-97 | The summary's first line is `## File Analysis: <name>`. A `text` fence opens on line 7 and closes five lines before the end, and between the fences lies exactly the stripped content. |
| `Parsing.OutputPathShape` | business_analyst/tools/parsing.py:100-110 | The output is `/home/juhan/` joined with `<stem>_<stamp>.md`. Its base name is that name, and it splits into the stem-stamp part and `.md`. |
| `Parsing.ParseFile` | business_analyst/tools/parsing.py:29-118 | No parts gives "No content found", and no inline data gives "No file found". A file is written iff there is an upload and the write succeeds. A write error gives the source's message. Success returns the path and writes the summary of the dispatched content. |
| `Parsing.LaterPartsIgnored` | business_analyst/tools/parsing.py:42-49 | Appending parts after an inline part never changes the tool's result. |
| `Clock.StampInjective` | BA/tools/save_agent_output.py:41 | Valid distinct times give distinct `%Y%m%d_%H%M%S` stamps. |
| `Formatting.RoundedUnits` | business_analyst/tools/parsing.py:82-86 | The size in hundredths of a kilobyte that `:.2f` prints is the exact quotient rounded to nearest: twice the rounding error is at most one unit in either direction. |
| `Formatting.FixedPointReadBack` | business_analyst/tools/parsing.py:83-87 | The `:.2f` text of size/1024 reads back as exactly the quotient rounded to hundredths, ties to even. The rounding stays within half a hundredth of the exact value. |

## Left out

- The LLM agents, prompts and agent orchestration are framework declarations and instruction text. The record datatypes take their shapes from the agents' output schemas.
- File I/O is not performed. Directory listings, file contents, PDF page texts and per-encoding decodings are inputs. A write failure is a parameter (`writeError`, `unwritable`).
- `os.makedirs` fails in the model only on the empty path, where the combined report and the analyst saver take that path from their caller unchanged. Its other failures (a file in the way, missing permissions) are not modelled. The exporters replace a blank directory by a fallback first, and the BA tools' working directory is never empty, so they always create it.
- `datetime.now()` readings are parameters of type `DateTime`.
- `get_working_directory` is modelled as `BaFile.WorkingDirectory`. The directory its chain yields is the input `tempDir`, which is never empty. Which step of the chain yields it (`mkdtemp`, `temp_docs`, or the current directory) is not modelled. The analyst exporters import `get_working_directory` from a module that does not define it, so there the working directory is an input.
- The mkdir-failure branch of the BA listing tool is not modelled: creating a missing directory always succeeds. The listing's `except` branch is modelled only for a path that is a file, whose error text is the input `listError`. Listing an existing directory always succeeds, so permission errors and the fallback message of the "other files" count are not modelled.
- `file_details` (sizes and modification times of listed files) is not stored.
- `BaFile.FindDocuments`: the model's reply always carries `directory`. The source's listing-error reply has only status and message, so that field means nothing there.
- Base64 and `str` upload data are left out. Uploaded data is bytes, saved as given.
- `print` diagnostics, the `%PDF` header check and the `getsize` check after writing are left out. A write that does not fail is taken to leave a non-empty file.
- PDF parsing (pypdf, PDFPlumber) and character decoding are inputs: `Result` values and per-encoding maps.
- Python floats are not modelled. Sizes use exact round-half-even fixed-point arithmetic, which matches `:.1f`/`:.2f` for these exact ratios. Floats in JSON are not modelled; numbers are integers.
- Unicode case folding and whitespace beyond ASCII are not modelled. Lower-casing is ASCII. Stripping removes ASCII whitespace and the few other code points the model lists.
- `pathlib` path normalisation (`.`/`..`, duplicate slashes) is not modelled. Paths are joined as `os.path.join` joins a relative name.
- Whether an inline blob carries a `filename` attribute is up to the framework's blob type, which is not part of this model. The source reads it with `getattr`, so `Blob.fileName` is optional. The analyst saver uses it when present and non-empty, and `uploaded_file` otherwise (`AnalystFile.UploadBase`).
- `save_markdown_file` and `convert_and_save_json` in `markdown.py` only do I/O.
- `parse_file`'s `local_markdown_path` argument is ignored by the source, so it is not a parameter. Its outer "Error: ..." handler, reachable only with a non-string name, is not modelled.
- The catch-all `except Exception` handlers of the tools are modelled only where a reachable error reaches them: the `.get` on a string in the exporters and the combined report, and the PDF and decoding failures.
- `JsonMarkdown.ScalarArrayRoundTrip`: nested and multi-line items are rendered but not read back. The round trip is stated for lists of one-line scalars.
- `JsonMarkdown.FlatObjectRoundTrip`: likewise for dicts with one-line keys and scalar values.
- `StageExport.ExportHeadings`: stated for records whose texts hold no newline and whose free texts are no heading lines. Other texts change the document's line structure.
- `AnalysisReport.ReportHeadings`: same condition as `StageExport.ExportHeadings`.
- `StageExport.ExportRequirementsRoundTrip`: stated for requirements whose printed fields hold no newline (`PlainStage`). A newline in a field shifts the eight-line blocks, and the block reader does not regroup them.
- `ReportBlocks.ReprString`: escapes controls, the separators, the format characters of Unicode 15 and private-use characters, as Python's `repr` does. Unassigned code points (category Cn), which `repr` also escapes, are kept as they are, because the set depends on Python's Unicode version.

/** What the tools see of the machine and the chat: a file system of
    directories and files, and the message the user just sent with its
    attached parts. Neither is read by the model; both are inputs. */
module Host {
  import opened Wrappers
  import opened Paths

  /** What a file yields to the readers the tools use. `pdfPages` is what
      the PDF parser returns for it: the text of each page, or the error it
      raises. `decodings` maps an encoding name to the file's text under that
      encoding, for the encodings that decode it; `decodeError` is the text
      of the error a failing decode raises. */
  datatype FileData = FileData(
    pdfPages: Result<seq<string>>,
    decodings: map<string, string>,
    decodeError: string)

  /** Directories with the names they list, in listing order, and files.
      Paths are compared as written: they are not normalised. */
  datatype FileSystem = FileSystem(dirs: map<string, seq<string>>, files: map<string, FileData>)
  {
    predicate Exists(path: string) {
      path in dirs || path in files
    }

    predicate IsFile(path: string) {
      path in files
    }
  }

  /** The error `os.makedirs(path, exist_ok=True)` raises for the empty
      path. Every other directory a tool creates is taken to exist
      afterwards. */
  const EmptyPathError: string := "[Errno 2] No such file or directory: ''"

  /** `Blob`: an attachment's MIME type (None when unset), its bytes, and its
      display name. */
  datatype Blob = Blob(mimeType: Option<string>, data: seq<bv8>, fileName: Option<string>)

  /** A message part; only attachments (`inline_data`) matter here. */
  datatype Part = Part(inlineData: Option<Blob>)

  /** The user's message: `parts` is None when the message has no parts
      attribute. */
  datatype Content = Content(parts: Option<seq<Part>>)

  /** The three statuses a tool result carries. */
  datatype Status = Success | Warning | Error
}

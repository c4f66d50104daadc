/** The optional value used wherever the source reads a dictionary with
    `.get(key, default)` or tests `key in record`: `None` is a missing key. */
module Wrappers {

  datatype Option<+T> = None | Some(value: T) {

    /** The value, or `default` when absent (Python's `d.get(key, default)`). */
    function GetOr(default: T): T {
      match this
      case Some(v) => v
      case None => default
    }
  }

  /** The outcome of a call into code the model does not contain (a PDF
      parser, a decoder): its value, or the text of the exception it raised. */
  datatype Result<+T> = Ok(value: T) | Fail(error: string)
}

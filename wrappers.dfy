/** Option and Result values for the lookups and error returns of the system. */
module Wrappers {

  /** A value that may be absent: SQL NULL, a JavaScript `undefined`/`null`, a missing row. */
  datatype Option<+T> = None | Some(value: T) {
    function GetOr(default: T): T {
      match this
      case Some(v) => v
      case None => default
    }
  }

  /** The outcome of an operation that either succeeds with a value or fails with an error. */
  datatype Result<+T, +E> = Ok(value: T) | Err(error: E)
}

/** Failure-compatible wrappers shared by the whole model. */
module Wrappers {

  /** A value that may be absent (Python's `None`, TypeScript's `undefined`). */
  datatype Option<+T> = None | Some(value: T) {
    function GetOr(default: T): T {
      if Some? then value else default
    }
  }

  /** The outcome of an operation that either yields a value or fails with an error. */
  datatype Result<+T, +E> = Success(value: T) | Failure(error: E)
}

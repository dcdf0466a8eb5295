/** The Option and Result datatypes shared by every module. */
module Wrappers {

  /** A value that may be absent (a JavaScript `null`/`undefined`). */
  datatype Option<+T> = None | Some(value: T)

  /** The outcome of an operation that either yields a value or reports why it did not. */
  datatype Result<+R, +E> = Success(value: R) | Failure(error: E)
}

/** Failure-compatible wrappers used throughout the model. */
module Wrappers {

  /** A value that may be absent (JavaScript `undefined`). */
  datatype Option<+T> = None | Some(value: T)

  /** The outcome of an operation that can throw: its value or the error it raised. */
  datatype Result<+T, +E> = Success(value: T) | Failure(error: E)
}

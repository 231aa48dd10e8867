/** Option and Result, standing for C#'s nullable references and thrown exceptions. */
module Wrappers {

  /** A value that may be absent: `None` is C#'s `null`. */
  datatype Option<+T> = None | Some(value: T)

  /** The outcome of an operation that may throw: `Failure` carries the exception's kind. */
  datatype Result<+T, +E> = Success(value: T) | Failure(error: E)
}

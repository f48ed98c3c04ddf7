/** Failure-carrying result types used across the model. */
module Wrappers {

  /** Either a value or an error, the Dafny form of Go's `(T, error)` pair. */
  datatype Result<+T, +E> = Success(value: T) | Failure(error: E)

  /** Go's bare `error` return: nil (Pass) or an error (Fail). */
  datatype Outcome<+E> = Pass | Fail(error: E)

  datatype Option<+T> = None | Some(value: T)
}

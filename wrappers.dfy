/** Failure-carrying result types shared by every module of the model. */
module Wrappers {

  /** A value that may be absent (Go's nil / comma-ok lookups). */
  datatype Option<T> = None | Some(value: T)

  /** A value or an error (Go's `(T, error)` return pair). */
  datatype Result<T, E> = Success(value: T) | Failure(error: E)

  /** An error or nothing (Go's bare `error` return). */
  datatype Outcome<E> = Pass | Fail(error: E)
}

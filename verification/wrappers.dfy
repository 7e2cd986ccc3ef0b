/** Failure-carrying wrappers shared by the other modules. */
module Wrappers {

  /** An optional value: the Go idiom of a value plus an `ok` flag. */
  datatype Option<+T> = None | Some(value: T)

  /** A value or an error: the Go idiom of a `(value, error)` pair where exactly one is meaningful. */
  datatype Result<+R, +E> = Success(value: R) | Failure(error: E)
}

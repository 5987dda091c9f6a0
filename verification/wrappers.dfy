/** Option and Result, the two failure-carrying shapes used across the model. */
module Wrappers {

  /** A value that may be absent: Go's nil pointer or SQL NULL. */
  datatype Option<+T> = None | Some(value: T)

  /** Either a value or the error a Go function returns beside it. */
  datatype Result<+T, +E> = Success(value: T) | Failure(error: E)
}

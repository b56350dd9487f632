/** Failure-carrying wrappers used across the model. */
module Wrappers {

  /** A value that may be absent (a nil pointer, a zero value left unset). */
  datatype Option<+T> = None | Some(value: T)

  /** The outcome of an operation that can abort (the source's `log.Fatal`). */
  datatype Result<+R, +E> = Success(value: R) | Failure(error: E)
}

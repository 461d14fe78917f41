/** Failure-carrying values shared by every layer of the model. */
module Wrappers {

  /** A value that may be absent: Python's `T | None`. */
  datatype Option<+T> = None | Some(value: T)

  /** The outcome of an operation that either yields a value or raises. */
  datatype Result<+T, +E> = Success(value: T) | Failure(error: E)
}

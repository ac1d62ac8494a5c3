/** Failure-carrying values shared by the modules of this model. */
module Wrappers {

  /** A value that may be absent (the source's `null`). */
  datatype Option<+T> = None | Some(value: T)

  /** The outcome of an operation that either yields a value or reports why it did not. */
  datatype Result<+R, +E> = Success(value: R) | Failure(error: E)
}

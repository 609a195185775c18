/** Failure-compatible wrappers shared by the other modules. */
module Wrappers {

  /** A value that may be missing. */
  datatype Option<+T> = None | Some(value: T)

  /** The value of an operation that may fail with an error instead. */
  datatype Result<+R, +E> = Success(value: R) | Failure(error: E)
}

/** Failure-carrying values shared by the models. */
module Wrappers {

  /** A value that may be missing: JavaScript's null or undefined. */
  datatype Option<+T> = None | Some(value: T)

  /** The outcome of a call that may throw. */
  datatype Result<+R, +E> = Success(value: R) | Failure(error: E)
}

/** The Option and Result datatypes used across the model. */
module Wrappers {

  /** A value that may be absent (a missing JSON key, a volume not yet created). */
  datatype Option<+T> = None | Some(value: T)

  /** The outcome of an operation that either produces a value or fails with an error. */
  datatype Result<+R, +E> = Success(value: R) | Failure(error: E)
}

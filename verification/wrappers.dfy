/** Failure-carrying wrappers used across the model. */
module Wrappers {

  /** An optional value: JavaScript's `null` (or an absent value) versus a present one. */
  datatype Option<+T> = None | Some(value: T)

  /** The outcome of an operation that either yields a value or fails with an error. */
  datatype Result<+R, +E> = Success(value: R) | Failure(error: E)
}

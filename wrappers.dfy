/** Failure-compatible wrappers used across the model. */
module Wrappers {

  /** An optional value; a PHP `null` or absent array key. */
  datatype Option<+T> = None | Some(value: T)

  /** The outcome of an operation that may throw. */
  datatype Result<+R, +E> = Success(value: R) | Failure(error: E)
}

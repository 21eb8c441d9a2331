/** Failure-compatible wrappers used across the model. */
module Wrappers {

  /** A value that may be absent: a JavaScript property lookup that finds nothing, a regular
      expression alternative that does not match. */
  datatype Option<+T> = None | Some(value: T)

  /** The outcome of an operation that can throw. */
  datatype Result<+T, +E> = Success(value: T) | Failure(error: E)
}

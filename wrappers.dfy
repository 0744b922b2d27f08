/** Failure-compatible wrappers used across the model. */
module Wrappers {
  /** An optional value; `None` stands for Python's `None` where a column may be empty. */
  datatype Option<+T> = None | Some(value: T)

  /** The result of an operation that either yields a value or raises an error. */
  datatype Result<+T, +E> = Success(value: T) | Failure(error: E)

  /** The result of an operation that either completes or raises an error. */
  datatype Outcome<+E> = Pass | Fail(error: E)
}

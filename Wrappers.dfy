/** Option and Result: Python's `None`/value and raise/return, as values. */
module Wrappers {

  /** A value that may be missing (Python `None`). */
  datatype Option<+T> = None | Some(value: T)

  /** The outcome of an operation that either returns a value or raises an error. */
  datatype Result<+R, +E> = Success(value: R) | Failure(error: E)
}

/** Failure-carrying result types shared by the other modules. */
module Wrappers {

  /** A value that may be absent, as Python's `X | None`. */
  datatype Option<+T> = None | Some(value: T)

  /** Either a value or the error a Python function would raise instead. */
  datatype Result<+R, +E> = Success(value: R) | Failure(error: E)
}

/** Failure-carrying datatypes shared by the backend and the form models. */
module Wrappers {

  /** A value that may be absent; `None` stands for JavaScript's `null`,
      `undefined` and `NaN` wherever the source tests for those. */
  datatype Option<+T> = None | Some(value: T)

  /** The outcome of an operation that can be refused with an error. */
  datatype Result<+R, +E> = Success(value: R) | Failure(error: E)
}

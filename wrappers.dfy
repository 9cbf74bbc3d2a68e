/** Failure-carrying result types used throughout the model in place of
    exceptions and null references. */
module Wrappers {

  /** A value that may be absent: the model of a nullable reference or array. */
  datatype Option<+T> = None | Some(value: T)

  /** The result of an operation that either returns a value or raises. */
  datatype Result<+R, +E> = Success(value: R) | Failure(error: E)

  /** The result of an operation that returns nothing or raises. */
  datatype Outcome<+E> = Pass | Fail(error: E)
}

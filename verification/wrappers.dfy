/** Failure-carrying result types: the model's stand-in for Python exceptions. */
module Wrappers {

  datatype Option<+T> = None | Some(value: T)

  /** A computation that either produced `value` or raised `error`. */
  datatype Result<+T, +E> = Success(value: T) | Failure(error: E)

  /** A check that either passed or failed with `error`. */
  datatype Outcome<+E> = Pass | Fail(error: E)
}

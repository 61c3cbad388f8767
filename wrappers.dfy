/** Failure-carrying value types shared by the state machine and the invariant checker. */
module Wrappers {

  /** An optional value: the caller may omit a terms mapping. */
  datatype Option<+T> = None | Some(value: T)

  /** The outcome of an operation that returns a value or raises an error. */
  datatype Result<+T, +E> = Success(value: T) | Failure(error: E)

  /** The outcome of a check that returns nothing or raises an error. */
  datatype Outcome<+E> = Pass | Fail(error: E)
}

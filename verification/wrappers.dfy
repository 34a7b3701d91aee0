/** Failure-carrying wrappers: Python's "attribute may be absent" and
    "call may raise" become explicit values here. */
module Wrappers {

  /** An optional value: an absent data element, a missing directory listing. */
  datatype Option<+T> = None | Some(value: T)

  /** A computation that either yields a value or stops with an error. */
  datatype Result<+R, +E> = Success(value: R) | Failure(error: E)

  /** A computation with effects already recorded elsewhere that either
      finished or stopped with an error. */
  datatype Outcome<+E> = Pass | Fail(error: E)
}

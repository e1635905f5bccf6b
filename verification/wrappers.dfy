/** Failure-carrying result types used throughout the model in place of
    Java's `null` and checked exceptions. */
module Wrappers {

  /** A value that may be absent; `None` stands for a Java `null`. */
  datatype Option<+T> = None | Some(value: T)

  /** The outcome of an operation that either yields a value or fails. */
  datatype Result<+R, +E> = Success(value: R) | Failure(error: E)

  /** The outcome of a check that yields nothing on success (a `void`
      method that may throw). */
  datatype Outcome<+E> = Pass | Fail(error: E)
}

/** Failure-carrying result types shared by the whole model. */
module Wrappers {

  /** A value that may be absent (JavaScript's `undefined`/falsy cases). */
  datatype Option<+T> = None | Some(value: T)

  /** The outcome of a check that either passes or fails with a reason
      (a `throw` caught by the caller's `try`/`catch`). */
  datatype Outcome<+E> = Pass | Fail(error: E)

  /** A value or the reason there is none. */
  datatype Result<+T, +E> = Success(value: T) | Failure(error: E)
}

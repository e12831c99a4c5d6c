/** Option and Result values used across the model. */
module Wrappers {

  /** A value that may be missing (JavaScript's null/undefined where only one of them occurs). */
  datatype Option<+T> = None | Some(value: T) {
    function GetOr(default: T): T {
      match this
      case Some(v) => v
      case None => default
    }
  }

  /** The outcome of an operation that may fail with an error instead of a value. */
  datatype Result<+T, +E> = Success(value: T) | Failure(error: E)

  /** The outcome of an operation that returns nothing or fails with an error. */
  datatype Outcome<+E> = Pass | Fail(error: E)
}

/** Failure-compatible wrappers used across the model: an optional value
    (Java's null / Guava's Optional), a result with an error value, and a
    pass/fail outcome for operations that return nothing. */
module Wrappers {

  datatype Option<+T> = None | Some(value: T) {
    /** Guava's `Optional.or`: the held value, or the default when absent. */
    function GetOr(default: T): T {
      match this
      case Some(v) => v
      case None => default
    }
  }

  datatype Result<+R, +E> = Success(value: R) | Failure(error: E)

  datatype Outcome<+E> = Pass | Fail(error: E)
}

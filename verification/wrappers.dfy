/** Failure-compatible wrappers used across the model: `Option` for a value
    that may be absent (a field that could not be read, a cell that is empty)
    and `Result` for an operation that may fail with an error value. */
module Wrappers {

  datatype Option<+T> = None | Some(value: T) {

    /** The value when present, otherwise `default`. */
    function GetOr(default: T): (v: T)
      ensures this.Some? ==> v == value
      ensures this.None? ==> v == default
    {
      match this
      case Some(v) => v
      case None => default
    }
  }

  datatype Result<+R, +E> = Success(value: R) | Failure(error: E) {

    predicate IsFailure() {
      Failure?
    }

    function PropagateFailure<U>(): Result<U, E>
      requires Failure?
    {
      Failure(error)
    }

    function Extract(): R
      requires Success?
    {
      value
    }
  }
}

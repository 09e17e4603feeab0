/** Failure-compatible wrappers shared by every module of the model. */
module Wrappers {

  /** An optional value: Python's `None` versus a present value. */
  datatype Option<+T> = None | Some(value: T) {

    /** The value if present, otherwise `default` (Python's `x if x is not None else d`). */
    function GetOr(default: T): T {
      match this
      case Some(v) => v
      case None => default
    }
  }

  /** Python truthiness of an optional string: present and non-empty. */
  predicate Truthy(s: Option<string>) {
    s.Some? && s.value != ""
  }

  /** A value or the exception a Python call would have raised instead. */
  datatype Result<+R, +E> = Success(value: R) | Failure(error: E) {

    predicate IsFailure() {
      Failure?
    }

    function PropagateFailure<U>(): Result<U, E>
      requires Failure?
    {
      Failure(error)
    }

    function Extract(): R
      requires Success?
    {
      value
    }
  }
}

/** Option and Result values used in place of Python's `None` and exceptions. */
module Wrappers {

  /** `None` or a present value (Python's `Optional[T]`). */
  datatype Option<+T> = None | Some(value: T) {

    /** The present value, or `default` when absent (Python's `dict.get(key, default)`). */
    function GetOr(default: T): T {
      match this
      case Some(v) => v
      case None => default
    }
  }

  /** The normal return value of an operation, or the message of the exception it raised. */
  datatype Result<+R, +E> = Success(value: R) | Failure(error: E)
}

/** Failure-carrying values used throughout the model: Python's `None` for an
    optional value, and an exception raised by an operation. */
module Wrappers {

  /** An optional value: `None` stands for Python's `None` (an unset
      environment variable, an omitted argument). */
  datatype Option<+T> = None | Some(value: T) {

    /** The value, or `default` when there is none. */
    function GetOr(default: T): T
    {
      match this
      case Some(v) => v
      case None => default
    }
  }

  /** The outcome of an operation that either returns `value` or raises `error`. */
  datatype Result<+R, +E> = Success(value: R) | Failure(error: E)
}

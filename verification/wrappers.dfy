/** Failure-compatible result types shared by every module of the model. */
module Wrappers {

  /** A value that may be missing: `undefined` on the JavaScript side. */
  datatype Option<+T> = None | Some(value: T) {

    /** The value, or `default` when it is missing. */
    function GetOr(default: T): T {
      match this
      case Some(v) => v
      case None => default
    }
  }

  /** The outcome of an operation that may throw: the returned value or the raised error. */
  datatype Result<+T, +E> = Success(value: T) | Failure(error: E)
}

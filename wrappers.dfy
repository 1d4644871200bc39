/** Optional values and results shared by every module of the model. */
module Wrappers {

  /** A value that may be absent: `undefined` or `null` in the source. */
  datatype Option<+T> = None | Some(value: T) {
    /** The value, or `default` when absent (the source's `??` on one level). */
    function GetOr(default: T): T {
      match this
      case Some(v) => v
      case None => default
    }
  }

  /** The outcome of an operation that either returns a value or raises an error. */
  datatype Result<+T, +E> = Success(value: T) | Failure(error: E)
}

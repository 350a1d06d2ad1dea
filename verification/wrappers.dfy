/** Optional values and results, standing in for Python's `dict.get(key, default)`
    and for exceptions raised by code outside the model. */
module Wrappers {

  /** A JSON key that may be absent. */
  datatype Option<+T> = None | Some(value: T) {

    /** The value when present, otherwise `default` (Python's `d.get(k, default)`). */
    function GetOr(default: T): T {
      match this
      case Some(v) => v
      case None => default
    }
  }

  /** The outcome of a step that may raise: a value, or the error it raised. */
  datatype Result<+T, +E> = Success(value: T) | Failure(error: E)
}

/** Option and Result, the two failure-carrying shapes the model uses in
    place of Python's `None` defaults and raised exceptions. */
module Wrappers {

  /** A value that may be absent, like a key missing from a feed entry. */
  datatype Option<+T> = None | Some(value: T) {

    /** The value when present, `default` otherwise (Python's `dict.get(key, default)`). */
    function GetOr(default: T): T {
      match this
      case Some(v) => v
      case None => default
    }
  }

  /** The outcome of a call that either returns a value or raises an error. */
  datatype Result<+R, +E> = Success(value: R) | Failure(error: E)
}

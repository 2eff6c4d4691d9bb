/** Failure-carrying datatypes shared by the other modules. */
module Wrappers {

  /** A value that may be missing: an absent dictionary key, a failed request. */
  datatype Option<+T> = None | Some(value: T) {

    /** The wrapped value, or `default` when there is none (Python's `d.get(k, default)`). */
    function GetOr(default: T): T {
      match this
      case Some(v) => v
      case None => default
    }
  }

  /** The outcome of a computation that can raise. */
  datatype Result<+T, +E> = Success(value: T) | Failure(error: E)
}

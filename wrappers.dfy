/** Failure-carrying results shared by every module of the model. */
module Wrappers {

  datatype Option<T> = None | Some(value: T) {
    /** The value, or `default` when there is none (Python's `dict.get(key, default)`). */
    function GetOr(default: T): T {
      match this
      case Some(v) => v
      case None => default
    }
  }

  /** A value, or the exception the source raises instead of returning one. */
  datatype Result<T, E> = Ok(value: T) | Err(error: E)
}

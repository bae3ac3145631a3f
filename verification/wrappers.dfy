/** Failure-carrying results shared by the whole model. */
module Wrappers {

  /** A value that may be absent: a missing dictionary key, a NULL column, an unset session entry. */
  datatype Option<+T> = None | Some(value: T) {
    function GetOr(default: T): T {
      match this
      case Some(v) => v
      case None => default
    }
  }

  /** The outcome of an endpoint or task that can fail. */
  datatype Result<+R, +E> = Success(value: R) | Failure(error: E)
}

/** Failure-carrying values used across the import model. */
module Wrappers {

  /** A value that may be absent: a missing dictionary key, a failed step. */
  datatype Option<+T> = None | Some(value: T) {
    function GetOr(default: T): T {
      match this
      case Some(v) => v
      case None => default
    }
  }

  /** Either a value or the error that stopped the computation. */
  datatype Result<+R, +E> = Success(value: R) | Failure(error: E)
}

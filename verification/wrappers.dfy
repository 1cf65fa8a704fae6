/** Optional values and success/failure results used throughout the ledger model. */
module Wrappers {

  /** A value that may be absent: an optional request field or a lookup that found nothing. */
  datatype Option<+T> = None | Some(value: T) {

    /** The wrapped value, or `default` when absent. */
    function GetOr(default: T): T {
      match this
      case Some(v) => v
      case None => default
    }
  }

  /** The outcome of a handler: a response body, or the error it reports. */
  datatype Result<+R, +E> = Ok(value: R) | Err(error: E)
}

/** Optional values and outcomes of calls that may throw. */
module Wrappers {

  /** `null` / a missing value (None) or a present one. */
  datatype Option<+T> = None | Some(value: T) {
    function GetOr(default: T): T {
      match this
      case Some(v) => v
      case None => default
    }
  }

  /** The outcome of an awaited call: a value, or an exception the caller catches. */
  datatype Result<+T> = Success(value: T) | Failure
}

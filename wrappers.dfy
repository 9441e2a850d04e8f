/** Optional values and success/failure results, used wherever the bot returns `null`,
    an `{ ok, error }` object, or lets a promise reject. */
module Wrappers {

  datatype Option<+T> = None | Some(value: T) {
    function GetOr(default: T): T {
      match this
      case Some(v) => v
      case None => default
    }
  }

  datatype Result<+R, +E> = Ok(value: R) | Err(error: E)
}

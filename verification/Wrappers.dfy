/** Optional values and outcomes, used where the sources return None or raise. */
module Wrappers {
  datatype Option<+T> = None | Some(value: T) {
    function GetOr(otherwise: T): T {
      match this
      case None => otherwise
      case Some(v) => v
    }
  }

  datatype Result<+T, +E> = Success(value: T) | Failure(error: E)
}

/** Optional values (SQL NULL, Python None) and results with an error value (Python exceptions). */
module Wrappers {

  datatype Option<+T> = None | Some(value: T) {
    /** Python's `x or default` / SQL's `coalesce(x, default)`. */
    function GetOr(default: T): T {
      match this
      case Some(v) => v
      case None => default
    }
  }

  datatype Result<+R, +E> = Success(value: R) | Failure(error: E)
}

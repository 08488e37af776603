/** Optional values and results with an error channel, used across the model
    for nullable columns (`None` in Python, `null` in SQL) and for the places
    where the source raises instead of returning. */
module Wrappers {

  datatype Option<+T> = None | Some(value: T) {

    /** The value, or `default` when absent (Python's `x or default` on a
        nullable column whose present values are all truthy). */
    function GetOr(default: T): T {
      match this
      case Some(v) => v
      case None => default
    }
  }

  datatype Result<+R, +E> = Success(value: R) | Failure(error: E)
}

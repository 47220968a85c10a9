/** Option and Result: the model's stand-ins for Python's None and for raised exceptions. */
module Outcomes {

  datatype Option<+T> = None | Some(value: T) {
    /** The value, or the default for None (Python's `x if x else default` on a list) */
    function GetOr(default: T): T {
      match this
      case Some(v) => v
      case None => default
    }
  }

  datatype Result<+R, +E> = Success(value: R) | Failure(error: E)
}

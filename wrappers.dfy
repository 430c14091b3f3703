/** Option and Result, used for Python's None / missing values and for raised errors. */
module Wrappers {

  datatype Option<+T> = None | Some(value: T) {

    /** The value, or `default` when there is none (Python's `x if x is not None else default`). */
    function GetOr(default: T): T {
      if Some? then value else default
    }
  }

  /** A value, or the error that the source would raise instead of returning. */
  datatype Result<+R, +E> = Success(value: R) | Failure(error: E)
}

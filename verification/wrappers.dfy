/** Optional values and success/failure results, used for JavaScript's
    `null`/`undefined` and for operations that throw. */
module Wrappers {

  /** `None` stands for a missing value, `null` and `undefined` alike. The
      view count, where the two behave differently, has a datatype of its own. */
  datatype Option<+T> = None | Some(value: T) {

    /** The nullish-coalescing operator `x ?? default`. */
    function GetOr(default: T): T {
      match this
      case Some(v) => v
      case None => default
    }
  }

  /** The outcome of code that either produces a value or throws. */
  datatype Result<+R, +E> = Success(value: R) | Failure(error: E)
}

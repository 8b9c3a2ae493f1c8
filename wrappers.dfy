/** Optional values and success/failure results used throughout the model. */
module Wrappers {

  /** An optional value. In the model `None` stands for a JavaScript
      `undefined` or `null`, which the source treats alike. */
  datatype Option<+T> = None | Some(value: T) {

    /** The wrapped value, or `default` when there is none. */
    function GetOr(default: T): T {
      match this
      case Some(v) => v
      case None => default
    }
  }

  /** A value or the error an operation throws instead of returning it. */
  datatype Result<+R, +E> = Success(value: R) | Failure(error: E)
}

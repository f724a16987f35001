/** Failure-carrying values used throughout the model. */
module Wrappers {

  /** An optional value; `None` plays the role of Python's "not found". */
  datatype Option<+T> = None | Some(value: T) {

    /** The carried value, or `default` when there is none. */
    function GetOr(default: T): T {
      match this
      case Some(v) => v
      case None => default
    }
  }

  /** Either a value or the reason the computation gave up. */
  datatype Result<+R, +E> = Success(value: R) | Failure(error: E)
}

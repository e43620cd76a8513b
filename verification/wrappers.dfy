/** Failure-carrying values used throughout the model: an optional value and a
    result that is either a value or an error tag. */
module Wrappers {

  /** A value that may be absent (JavaScript `undefined` / `null`). */
  datatype Option<+T> = None | Some(value: T) {

    /** The value, or `default` when absent (JavaScript `x || default` on objects). */
    function GetOr(default: T): T {
      match this
      case Some(v) => v
      case None => default
    }
  }

  /** Either a successful value or an error tag. */
  datatype Result<+T, +E> = Ok(value: T) | Err(error: E)
}

/** Failure-compatible wrappers used throughout the model: `Option` stands for
    JavaScript's `undefined`/`null`-able values, `Result` for a call that either
    returns a value or throws an error carrying a message. */
module Wrappers {

  datatype Option<+T> = None | Some(value: T) {

    /** The value, or `default` when absent (JavaScript's `x ?? default`). */
    function GetOr(default: T): T {
      match this
      case Some(v) => v
      case None => default
    }
  }

  datatype Result<+R, +E> = Success(value: R) | Failure(error: E)
}

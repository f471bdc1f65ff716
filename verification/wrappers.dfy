/** Option and Result, the two wrappers the model uses for JavaScript's missing
    object keys and for the ways a parse can stop. */
module Wrappers {

  /** A value that may be absent, as a key that may be missing from an object. */
  datatype Option<+T> = None | Some(value: T) {

    /** The wrapped value, or `default` when absent (JavaScript's `x || default`). */
    function GetOr(default: T): T {
      match this
      case Some(v) => v
      case None => default
    }
  }

  /** The outcome of a computation that either succeeds or stops with an error. */
  datatype Result<+R, +E> = Success(value: R) | Failure(error: E)
}

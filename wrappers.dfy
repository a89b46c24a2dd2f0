/** Option and Result, the two failure-carrying wrappers the model uses. */
module Wrappers {

  datatype Option<+T> = None | Some(value: T) {
    function GetOr(default: T): T {
      match this
      case Some(v) => v
      case None => default
    }
  }

  /** A computation that either delivers a value or raises an exception `error`. */
  datatype Result<+T, +E> = Success(value: T) | Failure(error: E)
}

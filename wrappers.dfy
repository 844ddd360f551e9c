/** Optional values (a JavaScript `undefined`) and results of operations that can throw. */
module Wrappers {

  /** A value that may be absent: `None` stands for JavaScript's `undefined`. */
  datatype Option<+T> = None | Some(value: T) {

    /** The value, or `default` when absent (a JavaScript default parameter). */
    function GetOr(default: T): T {
      match this
      case Some(v) => v
      case None => default
    }
  }

  /** The outcome of an operation that either returns a value or throws an error. */
  datatype Result<+T, +E> = Success(value: T) | Failure(error: E)
}

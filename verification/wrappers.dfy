/** Option and Result: JavaScript's `undefined`/`null` and rejected promises. */
module Wrappers {

  /** A value that may be absent (`undefined` or `null` in the source). */
  datatype Option<+T> = None | Some(value: T) {
    function GetOr(default: T): T {
      match this
      case Some(v) => v
      case None => default
    }
  }

  /** The outcome of an operation that may reject. */
  datatype Result<+R, +E> = Success(value: R) | Failure(error: E)
}

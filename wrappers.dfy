/** Optional values and the outcome of a step that may reject. */
module Wrappers {

  /** A value that may be absent (`undefined` in the source). */
  datatype Option<+T> = None | Some(value: T) {
    function GetOr(default: T): T {
      match this
      case Some(v) => v
      case None => default
    }
  }

  /** The settled state of an awaited call that yields a value. */
  datatype Result<+T, +E> = Success(value: T) | Failure(error: E)

  /** The settled state of an awaited call whose value is not used. */
  datatype Outcome<+E> = Pass | Fail(error: E)
}

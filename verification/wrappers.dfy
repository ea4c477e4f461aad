/** Optional values and results with an error message. */
module Wrappers {

  datatype Option<+T> = None | Some(value: T) {
    function GetOr(default: T): T {
      match this
      case Some(v) => v
      case None => default
    }
  }

  /** The outcome of an operation whose Python original can raise: `Failure`
      carries the name of the exception. */
  datatype Result<+T> = Success(value: T) | Failure(error: string)
}

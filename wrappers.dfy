/** Failure-carrying datatypes shared by every module of the model. */
module Wrappers {

  /** A value that may be absent (JavaScript's `undefined` / `null` where the source tests for it). */
  datatype Option<+T> = None | Some(value: T)
  {
    function GetOr(default: T): T
    {
      match this
      case Some(v) => v
      case None => default
    }
  }

  /** The value a JavaScript function returns, or the exception it throws. */
  datatype Result<+R, +E> = Success(value: R) | Failure(error: E)

  /** A check that either passes or throws. */
  datatype Outcome<+E> = Pass | Fail(error: E)
}

/** Failure-compatible result types shared by every module of the model. */
module Wrappers {

  datatype Option<+T> = None | Some(value: T) {
    function GetOr(default: T): T
    {
      match this
      case Some(v) => v
      case None => default
    }
  }

  /** The C++ operations return 0 on success and 1 (after printing a message) on
      failure; a `Failure` carries which check rejected the call. */
  datatype Result<+T, +E> = Success(value: T) | Failure(error: E)
}

/** `Option` for null references and `Result` for calls that may throw, shared by the string extensions and the worker. */
module Wrappers {

  /** A value that may be missing; `None` stands for a .NET `null` reference. */
  datatype Option<+T> = None | Some(value: T) {

    /** The wrapped value, or `default` when there is none (C#'s `??`). */
    function GetOr(default: T): T {
      match this
      case Some(v) => v
      case None => default
    }
  }

  /** Either a value or the exception that replaced it. */
  datatype Result<+T, +E> = Success(value: T) | Failure(error: E)
}

/** Failure-carrying values shared by every module of the model:
    `Option` stands for Python's `None`-or-value, `Result` for a return
    value or a raised `ValueError`. */
module Wrappers {

  datatype Option<+T> = None | Some(value: T) {

    /** The wrapped value, or `default` when there is none. */
    function GetOr(default: T): T {
      match this
      case Some(v) => v
      case None => default
    }
  }

  datatype Result<+R, +E> = Success(value: R) | Failure(error: E)
}

/** Option and Result types shared by the model.  `None` stands for a value that
    the original computes as NaN or infinity; `Failure` stands for an assertion
    or exception that aborts the call. */
module Wrappers {

  datatype Option<+T> = None | Some(value: T) {
    /** The value, or `default` when there is none (numpy's nan_to_num). */
    function GetOr(default: T): T {
      match this
      case Some(v) => v
      case None => default
    }
  }

  datatype Result<+T, +E> = Success(value: T) | Failure(error: E)
}

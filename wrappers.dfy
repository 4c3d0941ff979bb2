/** Option and Result, used for the absent values and the error returns of the model. */
module Wrappers {

  datatype Option<+T> = None | Some(value: T) {
    /** The JavaScript/PHP `x ?? d` operator. */
    function GetOr(d: T): T {
      match this
      case Some(v) => v
      case None => d
    }
  }

  datatype Result<+T, +E> = Ok(value: T) | Err(error: E)
}

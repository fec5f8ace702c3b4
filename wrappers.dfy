/** Option and Result values for absent fields and for the error paths of the
    handlers (exceptions raised by the backend, crashes caught by the frontend). */
module Wrappers {

  datatype Option<+T> = None | Some(value: T) {
    function GetOr(default: T): T {
      match this
      case Some(v) => v
      case None => default
    }
  }

  datatype Result<+R, +E> = Ok(value: R) | Err(error: E)
}

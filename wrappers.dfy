/** Optional values and success/failure results shared by every module. */
module Wrappers {

  /** An optional value: `undefined`/`null` in the source is `None`. */
  datatype Option<+T> = None | Some(value: T) {
    function GetOr(default: T): T {
      match this
      case Some(v) => v
      case None => default
    }
  }

  /** A result that is either a value or an error message. */
  datatype Result<+R> = Ok(value: R) | Err(message: string)
}

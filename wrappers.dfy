/** Option, Result and Outcome: the error paths of the metadata tool, which the
    Python code expresses with None and exceptions. */
module Wrappers {

  datatype Option<+T> = None | Some(value: T) {
    function GetOr(default: T): T {
      match this
      case Some(v) => v
      case None => default
    }
  }

  /** A value or the message of the exception the source would raise. */
  datatype Result<+T> = Ok(value: T) | Err(error: string)

  /** Success, or failure carrying the exception's message. */
  datatype Outcome = Pass | Fail(error: string)
}

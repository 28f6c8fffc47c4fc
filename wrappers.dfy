/** Option and Result types shared by the whole model. */
module Wrappers {

  /** A value that may be absent: a missing JSON field, `undefined`, `null`, or a query with no row. */
  datatype Option<+T> = None | Some(value: T) {
    function GetOr(default: T): T {
      match this
      case Some(v) => v
      case None => default
    }
  }

  /** The outcome of an operation that may throw: a value, or the message of the thrown error. */
  datatype Result<+T> = Ok(value: T) | Err(message: string)
}

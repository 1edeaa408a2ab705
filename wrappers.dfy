/** Option and Result values shared by the dashboard model. */
module Wrappers {

  /** A value that may be absent: JavaScript's `undefined`, a missing field, or NaN. */
  datatype Option<+T> = None | Some(value: T) {
    function GetOr(default: T): T {
      match this
      case Some(v) => v
      case None => default
    }
  }

  /** The exceptions the modelled code can throw. */
  datatype Error =
    | RangeError  // `toISOString` on an invalid Date ("Invalid time value")
    | TypeError   // reading `.value` of an undefined array element or field

  /** A value, or the exception that escaped while computing it. */
  datatype Result<+T> = Ok(value: T) | Err(error: Error)
}

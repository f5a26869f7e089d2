/**
 * Option and Result datatypes used throughout the model.
 *
 * `Option` doubles as the model of a JavaScript value that may be `null` or
 * `undefined`: `None` is the missing value, `Some(v)` a present one.
 */
module Wrappers {

  datatype Option<+T> = None | Some(value: T) {

    /** Returns the value held in `Some`, or `default` when there is none. */
    function GetOr(default: T): T {
      match this
      case Some(v) => v
      case None => default
    }
  }

  /** An operation that either produced a value or raised an error. */
  datatype Result<+T, +E> = Ok(value: T) | Err(error: E)
}

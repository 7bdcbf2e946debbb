/** Option and Result values: a Python `None` or a missing dictionary key, and an operation
    that either succeeds or raises. */
module Wrappers {

  datatype Option<+T> = None | Some(value: T) {
    /** The value, or `default` when there is none (Python's `d.get(key, default)`). */
    function GetOr(default: T): T {
      match this
      case Some(v) => v
      case None => default
    }
  }

  /** `Err(message)` stands for a `ValueError` raised with that message argument. */
  datatype Result<+T> = Ok(value: T) | Err(error: string)
}

/** Absent-or-present values and success-or-failure values, used for the
    optional fields of the upstream JSON and for thrown exceptions. */
module Wrappers {

  /** A JSON field that may be absent (`undefined`) or present. */
  datatype Option<+T> = None | Some(value: T) {
    function GetOr(default: T): T {
      match this
      case Some(v) => v
      case None => default
    }
  }

  /** A computation that either produces a value or throws an error. */
  datatype Result<+T, +E> = Ok(value: T) | Err(error: E)
}

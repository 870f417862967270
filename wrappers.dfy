/** Failure-carrying wrappers: the model's stand-in for `undefined` values and thrown errors. */
module Wrappers {

  /** An optional value: `None` is JavaScript's absent/`undefined`. */
  datatype Option<+T> = None | Some(value: T) {
    function GetOr(default: T): T {
      match this
      case Some(v) => v
      case None => default
    }
  }

  /** The outcome of an operation that may throw: `Err` carries what was thrown. */
  datatype Result<+T, +E> = Ok(value: T) | Err(error: E)
}

/** Optional values and success/failure outcomes shared by every module. */
module Wrappers {

  /** A value that may be absent: `null`/`undefined` in the program. */
  datatype Option<+T> = None | Some(value: T) {
    function GetOr(default: T): T {
      match this
      case Some(v) => v
      case None => default
    }
  }

  /** The `Result` of the `neverthrow` library: `ok(value)` or `err(error)`. */
  datatype Result<+T, +E> = Ok(value: T) | Err(error: E)
}

/** Option and Result values used across the model: `Option` for the source's
    `T | null | undefined` returns, `Result` for calls into the trackers that
    succeed or throw. */
module Wrappers {

  datatype Option<+T> = None | Some(value: T) {
    /** The value, or `default` when absent (the source's `x ?? default`). */
    function GetOr(default: T): T {
      match this
      case Some(v) => v
      case None => default
    }
  }

  datatype Result<+T> = Ok(value: T) | Failure(reason: string)
}

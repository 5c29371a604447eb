/** Option and Result values for the program's `Option<T>` and `Result<T, ServerFnError>`. */
module Wrappers {

  datatype Option<+T> = None | Some(value: T) {
    /** The value, or `default` when there is none (Rust's `unwrap_or`). */
    function GetOr(default: T): T {
      match this
      case Some(v) => v
      case None => default
    }
  }

  /** A server-function result: a value, or the error message the caller sees. */
  datatype Result<+T> = Success(value: T) | Failure(error: string)
}

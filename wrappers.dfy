/** Optional values and results with an error, shared by every module of the model. */
module Wrappers {

  /** Rust's `Option<T>`, Go's nil-able pointer. */
  datatype Option<+T> = None | Some(value: T) {
    function GetOr(default: T): T {
      match this
      case Some(v) => v
      case None => default
    }

    /** Rust's `a.or(b)`: the first of the two that is present. */
    function Or(other: Option<T>): Option<T> {
      if Some? then this else other
    }
  }

  /** Rust's `Result<T, E>`. */
  datatype Result<+T, +E> = Ok(value: T) | Err(error: E)
}

/** Option and Result, the two failure-carrying shapes the Rust code uses. */
module Wrappers {

  datatype Option<+T> = None | Some(value: T) {
    function GetOr(default: T): T {
      match this
      case Some(v) => v
      case None => default
    }

    /** Rust's `a.or(b)`: the first of the two that is `Some`. */
    function Or(other: Option<T>): Option<T> {
      if Some? then this else other
    }
  }

  datatype Result<+T, +E> = Ok(value: T) | Err(error: E)

  /**
   * The result of a step that may `panic!`: either it completes with a
   * value, or the process aborts with the given message.
   */
  datatype Outcome<+T> = Done(value: T) | Panic(message: string)
}

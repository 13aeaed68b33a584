/** Failure-compatible wrappers shared by every module of the model. */
module Wrappers {

  /** An optional value: Rust's `Option<T>`. */
  datatype Option<+T> = None | Some(value: T)

  /** A value or an error: Rust's `Result<T, E>`. */
  datatype Result<+T, +E> = Success(value: T) | Failure(error: E)

  /** Ordered choice: the first alternative that matched. */
  function OrElse<X>(a: Option<X>, b: Option<X>): Option<X>
  {
    if a.Some? then a else b
  }
}

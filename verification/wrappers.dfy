/** Failure-carrying datatypes mirroring Rust's `Option` and `Result`. */
module Wrappers {

  datatype Option<+T> = None | Some(value: T)

  /** Rust's `Result<T, E>`: `Ok(value)` or `Err(error)`. */
  datatype Result<+T, +E> = Ok(value: T) | Err(error: E)
}

/** Option and Result, the two failure-carrying types the Rust code returns. */
module Wrappers {

  datatype Option<+T> = None | Some(value: T)

  /** `Result<R, E>`: `Ok` carries the value, `Err` the error (or the rejected input). */
  datatype Result<+R, +E> = Ok(value: R) | Err(error: E)
}

/** Option and Result, the failure-carrying wrappers used across the model. */
module Wrappers {

  /** A value that may be absent (JavaScript's `undefined`). */
  datatype Option<+T> = None | Some(value: T)

  /** A value, or the reason the computation producing it threw. */
  datatype Result<+T, +E> = Ok(value: T) | Err(error: E)
}

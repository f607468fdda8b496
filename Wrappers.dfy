/** Option and Result values used across the model. */
module Wrappers {

  /** A value that may be missing (JavaScript `undefined`/`null`, Python `None`). */
  datatype Option<+T> = None | Some(value: T)

  /** The outcome of an operation that can raise. */
  datatype Result<+T, +E> = Ok(value: T) | Err(error: E)
}

/** Option and Result, the stock failure-carrying wrappers used across the model. */
module Wrappers {

  datatype Option<+T> = None | Some(value: T)

  /** The outcome of an operation whose source counterpart throws on failure. */
  datatype Result<+T, +E> = Ok(value: T) | Err(error: E)
}

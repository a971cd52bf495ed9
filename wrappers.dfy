/** Option and Result, the two failure-carrying wrappers the model uses for Rust's
    `Option` and for the panics and error returns of the source. */
module Wrappers {

  datatype Option<+T> = None | Some(value: T)

  datatype Result<+T, +E> = Ok(value: T) | Err(error: E)
}

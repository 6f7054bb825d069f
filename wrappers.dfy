/** Option and Result, the two failure-carrying shapes Rust's `Option` and
    `io::Result` take in this model. */
module Wrappers {

  datatype Option<+T> = None | Some(value: T)

  datatype Result<+T, +E> = Ok(value: T) | Err(error: E)
}

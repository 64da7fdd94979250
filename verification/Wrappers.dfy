/** The two failure-carrying datatypes the models share. */
module Wrappers {
  datatype Option<+T> = None | Some(value: T)

  /** The outcome of a Python function that may raise `ValueError`, or of a Rust `Result`. */
  datatype Result<+T, +E> = Ok(value: T) | Err(error: E)
}

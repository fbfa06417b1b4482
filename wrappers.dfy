/** Failure-carrying datatypes shared by the modules of the model. */
module Wrappers {

  /** An optional value: Rust's `Option`. */
  datatype Option<+T> = None | Some(value: T)

  /** A value or an error: Rust's `Result`. */
  datatype Result<+T, +E> = Ok(value: T) | Err(error: E)
}

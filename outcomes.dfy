/** Failure-carrying result types shared by the whole model. */
module Outcomes {

  datatype Option<+T> = None | Some(value: T)

  /** A Rust `Result`: the value of a call that returned, or the error it returned. */
  datatype Result<+T, +E> = Ok(value: T) | Err(error: E)
}

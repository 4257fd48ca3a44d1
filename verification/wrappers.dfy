/** Failure-compatible wrappers shared by the model. */
module Wrappers {

  /** A value that may be missing; `None` stands for JavaScript's `null`/`undefined`. */
  datatype Option<+T> = None | Some(value: T)

  /** Either a value or the error an operation raises. */
  datatype Result<+T, +E> = Ok(value: T) | Err(error: E)
}

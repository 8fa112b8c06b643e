/** Failure-carrying values shared by every module of the model. */
module Wrappers {

  /** A value that may be absent: Go's nil pointer, JavaScript's null. */
  datatype Option<+T> = None | Some(value: T)

  /** The outcome of a Go call that returns a value and an error. */
  datatype Result<+T, +E> = Ok(value: T) | Err(error: E)
}

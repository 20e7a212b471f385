/** Failure-carrying values shared by every module of the model. */
module Wrappers {

  /** A value that may be absent (a Go nil pointer, a missing map entry). */
  datatype Option<+T> = None | Some(value: T)

  /** The (value, error) pair that Go functions return: exactly one side is present. */
  datatype Result<+T> = Ok(value: T) | Err(msg: string)
}

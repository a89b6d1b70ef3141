/** Option and Result, the two ways a step of the program can fail. */
module Wrappers {

  /** A value that may be absent. */
  datatype Option<+T> = None | Some(value: T)

  /** A value, or the error a Go call returned in its place. */
  datatype Result<+T> = Ok(value: T) | Err(error: string)
}

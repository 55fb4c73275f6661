/** Shapes every module shares. */
module Wrappers {
  /** A value that may be absent: a `null`, `undefined` or missing key of the program. */
  datatype Option<+T> = None | Some(value: T)

  /** What a call returns, or the error it throws. */
  datatype Result<+T, +E> = Ok(value: T) | Err(error: E)
}

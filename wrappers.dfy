/** Failure-compatible wrappers shared by the other modules. */
module Wrappers {

  /** A value that may be absent (JavaScript `null`). */
  datatype Option<+T> = None | Some(value: T)

  /** The outcome of an operation that either returns or throws. */
  datatype Result<+T, +E> = Ok(value: T) | Err(error: E)
}

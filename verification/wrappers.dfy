/** Option and Result, the two failure-carrying shapes the record store needs. */
module Wrappers {

  /** A value that may be absent: a file that may not exist, an index that may not be found. */
  datatype Option<+T> = None | Some(value: T)

  /** The outcome of a command: a value, or a human-readable error. */
  datatype Result<+T, +E> = Ok(value: T) | Err(error: E)
}

/** Option and Result values used for parsers that may fail and for operations
    that raise an error in the original program. */
module Wrappers {

  /** A value that may be absent: a failed parse, a null cell, a missing key. */
  datatype Option<+T> = None | Some(value: T)

  /** The outcome of an operation that may throw: its value or the error text. */
  datatype Result<+T, +E> = Ok(value: T) | Err(error: E)
}

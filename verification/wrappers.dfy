/** Option and Result values: a missing value, and an entry point's `{"error": ...}` result. */
module Wrappers {

  datatype Option<+T> = None | Some(value: T)

  /** `Err` carries the message of the error dictionary the entry points return instead of raising. */
  datatype Result<+T> = Ok(value: T) | Err(message: string)
}

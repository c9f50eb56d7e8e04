/** Option and Result, as used by the reader and the instrument model. */
module Wrappers {

  datatype Option<+T> = None | Some(value: T)

  /** `Err` carries why an operation failed (an abort, an access fault). */
  datatype Result<+T, +E> = Ok(value: T) | Err(error: E)
}

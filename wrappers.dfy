/** Option and Result, for the absent values and error returns of the service. */
module Wrappers {

  datatype Option<+T> = None | Some(value: T)

  /** A value, or the error the service returned instead of it. */
  datatype Result<+R, +E> = Ok(value: R) | Err(error: E)
}

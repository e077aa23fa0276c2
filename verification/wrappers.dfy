/** Optional values and error-carrying results used across the model. */
module Wrappers {

  /** A value that may be absent; `None` plays the role of pandas' NaN / NaT / None. */
  datatype Option<+T> = None | Some(value: T)

  /** The outcome of the whole processing step: a value or an error. */
  datatype Result<+T, +E> = Ok(value: T) | Err(error: E)
}

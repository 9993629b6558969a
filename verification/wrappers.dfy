/** Failure-carrying values used across the model. */
module Wrappers {

  /** A value that may be absent; `None` also stands for JavaScript's NaN
      when a stat field does not parse. */
  datatype Option<+T> = None | Some(value: T)

  /** The outcome of an operation that can fail with an error value. */
  datatype Result<+R, +E> = Ok(value: R) | Err(error: E)
}

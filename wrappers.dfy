/** Option and Result: a missing cell and a raised exception, as values. */
module Wrappers {

  /** A value that may be absent (a pandas NaN cell, an unset attribute). */
  datatype Option<+T> = None | Some(value: T)

  /** The outcome of a Python call that either returns `value` or raises `error`. */
  datatype Result<+T, +E> = Ok(value: T) | Err(error: E)

  /** The outcome of a Python call that returns nothing or raises `error`. */
  datatype Outcome<+E> = Pass | Fail(error: E)
}

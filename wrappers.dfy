/** Option and Result: how the model returns "no value" and run-level errors. */
module Wrappers {

  /** Python's `None` or a value. */
  datatype Option<+T> = None | Some(value: T)

  /** A value, or the error that aborts a run. */
  datatype Result<+R, +E> = Success(value: R) | Failure(error: E)
}

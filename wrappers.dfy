/** Option and Result, the failure-carrying values every module of the model returns. */
module Wrappers {

  datatype Option<+T> = None | Some(value: T)

  /** A computation that either produced `value` or stopped with `error`
      (an `Err` return, or a panic of the original program). */
  datatype Result<+T, +E> = Success(value: T) | Failure(error: E)
}

/** Option and Result values used for the missing-price and failed-load cases. */
module Wrappers {

  /** A value that may be missing (a NaN cell in the source's frames). */
  datatype Option<+T> = None | Some(value: T)

  /** The outcome of an operation that can fail with a described error. */
  datatype Result<+R, +E> = Success(value: R) | Failure(error: E)
}

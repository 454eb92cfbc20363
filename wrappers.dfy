/** Absence and failure values used across the model. */
module Wrappers {

  /** A present value, or the absence that the source writes as `null`. */
  datatype Option<+T> = None | Some(value: T)

  /** A successful value, or the error the source throws. */
  datatype Result<+R, +E> = Success(value: R) | Failure(error: E)
}

/** Failure-carrying return values used by the quiz model. */
module Wrappers {

  /** A value that may be absent. */
  datatype Option<+T> = None | Some(value: T)

  /** A successful value or an error. */
  datatype Result<+R, +E> = Success(value: R) | Failure(error: E)
}

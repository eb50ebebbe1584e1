/** Failure-carrying result type used by operations that can reject their input. */
module Wrappers {

  datatype Option<+T> = None | Some(value: T)

  /** Either the computed value or the reason it could not be computed. */
  datatype Result<+R, +E> = Success(value: R) | Failure(error: E)
}

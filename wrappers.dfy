/** Failure-carrying results: the Python exceptions of the modelled code become values. */
module Wrappers {

  datatype Option<+T> = None | Some(value: T)

  datatype Result<+R, +E> = Success(value: R) | Failure(error: E)

  /** A step that returns nothing on success. */
  datatype Outcome<+E> = Pass | Fail(error: E)
}

/** Failure-carrying results used where the loader can throw. */
module Wrappers {

  /** Either a computed value or the error that aborted the computation. */
  datatype Result<+T, +E> = Success(value: T) | Failure(error: E)
}

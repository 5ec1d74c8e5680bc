/** Failure-carrying results for the operations of the model that can raise. */
module Wrappers {

  datatype Option<+T> = None | Some(value: T)

  datatype Result<+T, +E> = Success(value: T) | Failure(error: E)

  /** An operation that either completes or raises, without a value. */
  datatype Outcome<+E> = Pass | Fail(error: E)
}

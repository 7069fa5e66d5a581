/** Failure-carrying result types used across the model. */
module Wrappers {

  /** A value that may be absent; used for an external call that either
      produces output or fails. */
  datatype Option<+T> = None | Some(value: T)

  /** Either a value or an error describing why there is none. */
  datatype Result<+R, +E> = Success(value: R) | Failure(error: E) {

    predicate IsFailure() {
      Failure?
    }

    function PropagateFailure<U>(): Result<U, E>
      requires Failure?
    {
      Failure(error)
    }

    function Extract(): R
      requires Success?
    {
      value
    }
  }
}

/** Failure-compatible wrappers shared by the whole model. */
module Wrappers {

  /** An optional value; the model's stand-in for a nullable reference. */
  datatype Option<+T> = None | Some(value: T)

  /** The outcome of an operation that the original code may abort by throwing. */
  datatype Result<+T, +E> = Success(value: T) | Failure(error: E) {

    predicate IsFailure() {
      Failure?
    }

    function PropagateFailure<U>(): Result<U, E>
      requires Failure?
    {
      Failure(error)
    }

    function Extract(): T
      requires Success?
    {
      value
    }
  }
}

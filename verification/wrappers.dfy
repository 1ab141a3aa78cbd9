/** Failure-compatible datatypes used for the error paths of the model. */
module Wrappers {

  /** Some/None, used for the `None` placeholders of the route queue. */
  datatype Option<+T> = None | Some(value: T)

  /** Success/Failure, used wherever the source raises an exception. */
  datatype Result<+R, +E> = Success(value: R) | Failure(error: E) {

    predicate IsFailure() {
      Failure?
    }

    function PropagateFailure<U>(): Result<U, E>
      requires Failure?
    {
      Failure(error)
    }

    function Extract(): R
      requires Success?
    {
      value
    }
  }
}

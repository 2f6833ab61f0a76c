/** Failure-carrying results for the catalog's operations, which in the source signal
    failure by throwing. */
module Wrappers {

  /** A value that the source may hold as `null`. */
  datatype Option<+T> = None | Some(value: T)

  /** The three exception kinds the core throws. The message is the one the source passes
      to the exception's constructor. */
  datatype Error =
    | IllegalArgument(message: string)
    | IllegalState(message: string)
    | NullPointer(message: string)

  /** The outcome of an operation that returns a value or throws. */
  datatype Result<+R> = Success(value: R) | Failure(error: Error) {
    predicate IsFailure() {
      Failure?
    }

    function PropagateFailure<U>(): Result<U>
      requires Failure?
    {
      Failure(error)
    }

    function Extract(): R
      requires Success?
    {
      value
    }
  }

  /** The outcome of an operation that returns nothing or throws. */
  datatype Outcome = Pass | Fail(error: Error)
}

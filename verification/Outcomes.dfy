/** The result types used for values that may be missing and operations that may throw. */
module Outcomes {
  datatype Option<+T> = None | Some(value: T)

  /** A value, or the exception thrown instead of it. */
  datatype Result<+T> = Success(value: T) | Failure {
    predicate IsFailure() { Failure? }

    function PropagateFailure<U>(): Result<U>
      requires Failure?
    {
      Failure
    }

    function Extract(): T
      requires Success?
    {
      value
    }
  }
}

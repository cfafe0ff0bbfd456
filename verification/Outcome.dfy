// The two result types the other modules share: an optional value for the
// source's `None`, and a failure value for the exceptions it raises.
module Outcome {

  datatype Option<+T> = None | Some(value: T)

  // Failure-compatible, so `:-` propagates an error the way an uncaught
  // exception leaves the function that called.
  datatype Result<+T, +E> = Success(value: T) | Failure(error: E) {

    predicate IsFailure() {
      Failure?
    }

    function PropagateFailure<U>(): Result<U, E>
      requires Failure?
    {
      Failure(error)
    }

    function Extract(): T
      requires Success?
    {
      value
    }
  }
}

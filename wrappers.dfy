/** Option and Result values standing for JavaScript's `null` and for a thrown exception. */
module Wrappers {

  /** `None` is JavaScript's `null` (or a Promise that rejected). */
  datatype Option<+T> = None | Some(value: T)

  /** `Failure` carries the name of the exception a JavaScript call would throw. */
  datatype Result<+T, +E> = Success(value: T) | Failure(error: E) {
    predicate IsFailure() { Failure? }

    function PropagateFailure<U>(): Result<U, E>
      requires Failure?
    {
      Failure(error)
    }

    function Extract(): T
      requires Success?
    {
      value
    }
  }
}

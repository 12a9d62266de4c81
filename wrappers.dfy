/** Failure-compatible result types shared by every sensor model. */
module Wrappers {

  datatype Option<+T> = None | Some(value: T)

  /** A value or the error a Python call would raise instead. */
  datatype Result<+T, +E> = Success(value: T) | Failure(error: E) {
    predicate IsFailure() { Failure? }

    function PropagateFailure<U>(): Result<U, E>
      requires Failure?
    {
      Failure(error)
    }

    function Extract(): T
      requires Success?
    {
      value
    }
  }

  /** Completion of an operation that returns nothing but may raise. */
  datatype Outcome<+E> = Pass | Fail(error: E)

  function Min(a: int, b: int): int { if a <= b then a else b }
}

/** Option and Result, the two failure-carrying shapes the pipeline uses. */
module Wrappers {

  /** A value that may be missing: a Python `None`, an absent dictionary
      key, or a cache miss. */
  datatype Option<+T> = None | Some(value: T) {

    /** The carried value, or `default` when there is none (`d.get(k, default)`). */
    function GetOr(default: T): T {
      match this
      case Some(v) => v
      case None => default
    }
  }

  /** The outcome of a step that may raise: the value, or the error that
      propagates to the caller. */
  datatype Result<+T, +E> = Success(value: T) | Failure(error: E) {

    predicate IsFailure() {
      Failure?
    }

    function PropagateFailure<U>(): Result<U, E>
      requires Failure?
    {
      Failure(error)
    }

    function Extract(): T
      requires Success?
    {
      value
    }
  }

  function Min(a: int, b: int): int {
    if a <= b then a else b
  }
}

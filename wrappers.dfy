/** Optional values, results that may carry an error, and the errors the budget store raises. */
module Wrappers {

  /** A value that may be absent (Python's `None`). */
  datatype Option<+T> = None | Some(value: T) {
    function GetOr(default: T): T {
      if Some? then value else default
    }
  }

  /** The outcome of an operation that may raise. Usable with `:-`. */
  datatype Result<+T, +E> = Success(value: T) | Failure(error: E) {
    predicate IsFailure() {
      Failure?
    }

    function PropagateFailure<U>(): Result<U, E>
      requires Failure?
    {
      Failure(error)
    }

    function Extract(): T
      requires Success?
    {
      value
    }
  }

  /** Every `ValueError` the store raises, by cause. */
  datatype Error =
    | InvalidFormat    // a month string that is not YYYY-MM
    | InvalidAmount    // an amount that float() rejects
    | AmountTooLarge   // an amount whose magnitude exceeds 1e8
    | MissingCategory  // an expense item without a usable category
    | NotFound         // no record saved for the requested month
    | InvalidRange     // a series whose start lies after its end
}

/** Option and Result datatypes: the model's stand-ins for Python's `None`
    and for exceptions raised by the analysis pipeline. */
module Wrappers {

  datatype Option<+T> = None | Some(value: T) {

    /** Returns the encapsulated value, or `default` when absent. */
    function GetOr(default: T): T {
      match this
      case Some(v) => v
      case None => default
    }
  }

  datatype Result<+R, +E> = Success(value: R) | Failure(error: E) {

    /** True if this is a failure. */
    predicate IsFailure() {
      Failure?
    }

    /** Re-types a failure so that it can be propagated with `:-`. */
    function PropagateFailure<U>(): Result<U, E>
      requires Failure?
    {
      Failure(error)
    }

    /** Returns the value of a success. */
    function Extract(): R
      requires Success?
    {
      value
    }
  }
}

/** The failures of the analysis pipeline, one per exception the source can
    raise on a column. */
module Errors {

  datatype Error =
    /** `calculate_optimal_bins` on an empty column: k = 0 is a divisor. */
    | DivisionByZero
    /** `pd.cut` refuses bin edges that repeat (constant column, k >= 2). */
    | DuplicateBinEdges
    /** A quantitative operation was applied to text cells. */
    | NotNumeric
    /** `statistics.mean` and friends on an empty column. */
    | EmptyData
}

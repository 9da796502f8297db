/**
 * Failure-carrying datatypes shared by the model, and the Python exceptions
 * that the modelled code raises.
 */
module Wrappers {

  /** A value that may be missing: Python's `None` or a present value. */
  datatype Option<+T> = None | Some(value: T) {

    /** The value, or `default` when missing (Python's `d.get(key, default)`). */
    function GetOr(default: T): T {
      if Some? then value else default
    }
  }

  /** A computed value or the exception raised instead. */
  datatype Result<+R, +E> = Success(value: R) | Failure(error: E)

  /** An operation that returns nothing, or the exception it raised. */
  datatype Outcome<+E> = Pass | Fail(error: E)

  /** The Python exceptions that the modelled code can raise. */
  datatype PyError =
    | TypeError
    | ValueError
    | KeyError
    | IndexError
    | AttributeError
    | ZeroDivisionError
}

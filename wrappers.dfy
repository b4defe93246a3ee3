/** Option and Result types, and the Python exception classes that the report
    engine can raise. A Failure aborts the whole request: the worker that runs
    the report catches every exception at its top level and only logs it. */
module Wrappers {

  datatype Option<+T> = None | Some(value: T)

  /** The Python exception classes the modelled code can raise. ApiError stands
      for any failure of a call into the Pyrus platform. */
  datatype Exception = ValueError | IndexError | AttributeError | TypeError | ApiError

  datatype Result<+T> = Success(value: T) | Failure(error: Exception) {

    predicate IsFailure() {
      Failure?
    }

    function PropagateFailure<U>(): Result<U>
      requires Failure?
    {
      Failure(error)
    }

    function Extract(): T
      requires Success?
    {
      value
    }
  }

  /** A computation that yields no value but may raise. */
  datatype Outcome = Pass | Fail(error: Exception) {

    predicate IsFailure() {
      Fail?
    }

    function PropagateFailure(): Outcome
      requires Fail?
    {
      this
    }
  }
}

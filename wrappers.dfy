/** Failure-compatible result types, standing in for JavaScript exceptions. */
module Wrappers {

  datatype Option<+T> = None | Some(value: T)

  /** A computation that either produced a value or threw an error with a message. */
  datatype Result<+T> = Success(value: T) | Failure(error: string) {
    predicate IsFailure() {
      Failure?
    }

    function PropagateFailure<U>(): Result<U>
      requires Failure?
    {
      Failure(error)
    }

    function Extract(): T
      requires Success?
    {
      value
    }
  }

  /** A computation run for its effect only: it completed, or it threw. */
  datatype Outcome = Pass | Fail(error: string)
}

/** The few JavaScript values a version can take in the action. */
module Js {

  /** A value that is `null`, `undefined` or a string. */
  datatype Value = Null | Undefined | Str(s: string)

  /** JavaScript truthiness restricted to these values: only a non-empty string is truthy. */
  predicate Truthy(v: Value) {
    v.Str? && v.s != ""
  }
}

/** Failure-compatible result and optional values used across the model. */
module Wrappers {

  /** A value that may be absent: Go's nil pointer (`*string`, `*bool`). */
  datatype Option<+T> = None | Some(value: T)

  /** The Go `(T, error)` pair: either a value or an error message. */
  datatype Result<+T> = Success(value: T) | Failure(error: string) {
    predicate IsFailure() {
      Failure?
    }

    function PropagateFailure<U>(): Result<U>
      requires Failure?
    {
      Failure(error)
    }

    function Extract(): T
      requires Success?
    {
      value
    }
  }
}

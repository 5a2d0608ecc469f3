/** Failure-compatible result types used across the model. */
module Wrappers {

  /** The value of a conversion that may fail without a reason (Go's `(v, err)` where only `err != nil` matters). */
  datatype Option<+T> = None | Some(value: T)

  /** A value or an error; usable with `:-` so that the first error is returned as is. */
  datatype Result<+T, +E> = Ok(value: T) | Err(error: E) {

    predicate IsFailure() {
      Err?
    }

    function PropagateFailure<U>(): Result<U, E>
      requires Err?
    {
      Err(error)
    }

    function Extract(): T
      requires Ok?
    {
      value
    }
  }
}

/** Optional values and results with an error, shared by the other modules. */
module Wrappers {

  /** A value that may be absent (a missing JSON field, an unset depth). */
  datatype Option<+T> = None | Some(value: T)

  /** The value of a computation, or the error it throws. */
  datatype Result<+T, +E> = Ok(value: T) | Err(error: E) {

    predicate IsFailure() {
      Err?
    }

    function PropagateFailure<U>(): Result<U, E>
      requires Err?
    {
      Err(error)
    }

    function Extract(): T
      requires Ok?
    {
      value
    }
  }
}

/** Option and Result, the two failure-carrying types the pipeline returns. */
module Wrappers {

  datatype Option<+T> = None | Some(value: T)

  /** A value or an error; usable with `:-`, which returns the error at once. */
  datatype Result<+T, +E> = Ok(value: T) | Err(error: E) {

    predicate IsFailure() {
      Err?
    }

    function PropagateFailure<U>(): Result<U, E>
      requires Err?
    {
      Err(error)
    }

    function Extract(): T
      requires Ok?
    {
      value
    }
  }
}

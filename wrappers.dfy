/** Failure-compatible wrappers used for the results of parsing and lookup. */
module Wrappers {

  datatype Option<+T> = None | Some(value: T)

  /** A value, or the error the original program would raise instead. */
  datatype Result<+T, +E> = Ok(value: T) | Err(error: E) {
    predicate IsFailure() { Err? }

    function PropagateFailure<U>(): Result<U, E>
      requires Err?
    {
      Err(error)
    }

    function Extract(): T
      requires Ok?
    {
      value
    }
  }

  /** The result of an operation that returns nothing, or fails with an error. */
  datatype Outcome<+E> = Pass | Fail(error: E)
}

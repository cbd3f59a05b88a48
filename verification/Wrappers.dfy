/** Failure-compatible datatypes shared by every component. */
module Wrappers {
  datatype Option<+T> = None | Some(value: T)

  /** The source's `Result`: `:-` plays the part of the `?` operator. */
  datatype Result<+T, +E> = Ok(value: T) | Err(error: E) {
    predicate IsFailure() {
      Err?
    }

    function PropagateFailure<U>(): Result<U, E>
      requires Err?
    {
      Err(error)
    }

    function Extract(): T
      requires Ok?
    {
      value
    }
  }
}

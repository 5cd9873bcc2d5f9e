/** Failure-compatible wrappers used by the analyzer model. */
module Wrappers {

  /** An optional value; models a JavaScript property that may be `undefined`. */
  datatype Option<+T> = None | Some(value: T)

  /** Either a value or the error that a thrown exception would carry. */
  datatype Result<+R, +E> = Ok(value: R) | Err(error: E) {

    predicate IsFailure() {
      Err?
    }

    function PropagateFailure<U>(): Result<U, E>
      requires Err?
    {
      Err(error)
    }

    function Extract(): R
      requires Ok?
    {
      value
    }
  }
}

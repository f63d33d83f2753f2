/** Option and Result, the failure-carrying wrappers the other modules share. */
module Wrappers {

  datatype Option<+T> = None | Some(value: T)

  /** An operation that either yields a value or fails with an error (a thrown exception in the program). */
  datatype Result<+T, +E> = Ok(value: T) | Err(error: E) {
    predicate IsFailure() { Err? }

    function PropagateFailure<U>(): Result<U, E>
      requires Err?
    {
      Err(error)
    }

    function Extract(): T
      requires Ok?
    {
      value
    }
  }
}

/** Failure-carrying results, used for the fallible steps of the parser. */
module Wrappers {

  datatype Option<+T> = None | Some(value: T)

  /** The outcome of a fallible step: a value, or the error that stopped it. */
  datatype Result<+T, +E> = Ok(value: T) | Err(error: E) {

    predicate IsFailure() {
      Err?
    }

    function PropagateFailure<U>(): Result<U, E>
      requires Err?
    {
      Err(error)
    }

    function Extract(): T
      requires Ok?
    {
      value
    }
  }
}

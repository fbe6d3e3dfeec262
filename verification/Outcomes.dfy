/** Values that an operation of the control plane may or may not return. */
module Outcomes {

  datatype Option<+T> = None | Some(value: T) {

    function UnwrapOr(other: T): T {
      if Some? then value else other
    }
  }

  /** A returned value, or the exception that was raised instead. */
  datatype Result<+T, +E> = Ok(value: T) | Err(error: E) {

    predicate IsFailure() {
      Err?
    }

    function PropagateFailure<U>(): Result<U, E>
      requires Err?
    {
      Err(error)
    }

    function Extract(): T
      requires Ok?
    {
      value
    }
  }
}

/** Result types shared by the whole model. */
module Outcomes {

  /** `:-` passes `None` on: what the program does by raising an exception. */
  datatype Option<+T> = None | Some(value: T) {
    predicate IsFailure() {
      None?
    }

    function PropagateFailure<U>(): Option<U>
      requires None?
    {
      None
    }

    function Extract(): T
      requires Some?
    {
      value
    }
  }

  datatype Result<+T, +E> = Ok(value: T) | Err(error: E)

  /** How a durable operation ends.  `Interrupted` stands both for a process that dies at this
      point and for an exception that unwinds the caller: either way the rest of the caller's
      operations do not happen.  Used with `:-`, it makes a method stop where the program would. */
  datatype Outcome = Done | Interrupted {
    predicate IsFailure() {
      Interrupted?
    }

    function PropagateFailure(): Outcome
      requires Interrupted?
    {
      this
    }
  }
}

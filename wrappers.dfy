/** Option, Result and Outcome: how the model writes Java's null references and thrown exceptions. */
module Wrappers {

  /** A reference that may be null. */
  datatype Option<+T> = None | Some(value: T)

  /** A value, or the message of the exception the source throws instead. */
  datatype Result<+T> = Ok(value: T) | Err(error: string) {
    predicate IsFailure() { Err? }

    function PropagateFailure<U>(): Result<U>
      requires Err?
    {
      Err(error)
    }

    function Extract(): T
      requires Ok?
    {
      value
    }
  }

  /** The completion of a void operation: normal, or abrupt with an exception. */
  datatype Outcome = Pass | Fail(error: string)
}

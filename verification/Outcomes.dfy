/** Failures of the JSON library.  A thrown exception becomes an `Err` that keeps
    the exception's family and its numeric id; message texts are not modelled. */
module Outcomes {
  datatype Error =
    | ParseError(id: nat)
    | TypeError(id: nat)
    | OutOfRange(id: nat)
    | OtherError(id: nat)
    | AssertionFailed

  /** How a method without a result ends. */
  datatype Status = Done | Threw(error: Error)

  datatype Result<+T> = Ok(value: T) | Err(error: Error)
  {
    predicate IsFailure() { Err? }

    function PropagateFailure<U>(): Result<U>
      requires Err?
    {
      Err(error)
    }

    function Extract(): T
      requires Ok?
    {
      value
    }
  }
}

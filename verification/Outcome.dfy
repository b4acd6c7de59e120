/** How a call of the driver's code ends: a value, an error return, or a run-time panic. */
module Outcome {
  datatype Error =
    | Eof                // nothing left to read
    | UnexpectedEof      // the input ended inside a value
    | TooLong            // a remark or temperature list over its limit
    | OutOfRange         // a temperature that no byte stands for
    | Unmapped           // a name that no byte stands for
    | BadCategory        // a QueryModulesResponse for an unknown kind of device
    | UnknownOpcode

  datatype Outcome<+T> = Ok(value: T) | Err(error: Error) | Panic {
    predicate IsFailure() { !Ok? }

    function PropagateFailure<U>(): Outcome<U>
      requires IsFailure()
    {
      if Panic? then Panic else Err(error)
    }

    function Extract(): T
      requires Ok?
    {
      value
    }
  }
}

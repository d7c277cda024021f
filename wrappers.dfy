/** Error outcomes of the core. The source throws an `Exception` carrying a message
    (exception.h); each message the modelled code can raise is one constructor of
    `Error`, and a throwing operation returns a `Result`. */
module Wrappers {

  datatype Error =
    | InvalidDuration                  // "Invalid duration!"
    | IllegalVerticalShift(shift: int) // "Vertical shift must be between -6 and 6! ..."
    | InvalidVoiceIndex                // "Invalid voice index!"
    | MoreThanOnePart                  // "More than one part in source!"
    | ZeroStaves                       // "Zero staves found!"
    | NotExactlyOneVoice               // "Part doesn't have exactly one voice!"
    | RecursionLimit                   // the source's recursion would not come back

  datatype Option<+T> = None | Some(value: T)

  datatype Result<+T> = Ok(value: T) | Err(error: Error) {

    predicate IsFailure() {
      Err?
    }

    function PropagateFailure<U>(): Result<U>
      requires Err?
    {
      Err(error)
    }

    function Extract(): T
      requires Ok?
    {
      value
    }
  }
}

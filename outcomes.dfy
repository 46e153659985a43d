/** Outcomes shared by the model: the Java exceptions the modelled code raises become
    `Err` values, and optional values (Java `null`) become `Option`. */
module Outcomes {

  datatype Option<+T> = None | Some(value: T)

  /** The failures the modelled code raises instead of returning. */
  datatype Error =
    | IllegalArgument(message: string)   // IllegalArgumentException
    | NumberFormat(text: string)         // NumberFormatException from Integer.parseInt / Float.parseFloat
    | NullPointer                        // NullPointerException
    | IndexOutOfBounds                   // ArrayIndexOutOfBoundsException
    | NotANumber                         // a float division 0/0 whose NaN a real cannot hold
    | DeviceUnavailable                  // the accelerator platform index does not exist

  datatype Result<+T> = Ok(value: T) | Err(error: Error) {
    predicate IsFailure() { Err? }
    function PropagateFailure<U>(): Result<U>
      requires Err?
    {
      Err(error)
    }
    function Extract(): T
      requires Ok?
    {
      value
    }
  }
}

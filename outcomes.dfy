/** Option, results and the Java exceptions the modelled code can raise. */
module Outcomes {

  datatype Option<+T> = None | Some(value: T)

  /** The runtime exceptions thrown by the modelled Java code. */
  datatype Exception =
    | NullPointer
    | ClassCast
    | IndexOutOfBounds
    | IllegalArgument(message: string)

  /** A computation that returns a value or throws. */
  datatype Result<+T> = Success(value: T) | Failure(error: Exception)

  /** A statement that completes normally, throws, or never completes (a loop that does not end). */
  datatype Outcome = Pass | Fail(error: Exception) | Diverges
}

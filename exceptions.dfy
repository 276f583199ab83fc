/** The .NET exceptions the modelled code throws, and the values that carry them. */
module Exceptions {

  /** The exception classes thrown by the modelled code (the message text is not modelled). */
  datatype Exception =
    | ArgumentException
    | ArgumentOutOfRangeException
    | IndexOutOfRangeException
    /** Whatever running a C# script throws: a compilation error or the script's own exception. */
    | ScriptException

  /** The value of a call that either returns `value` or throws `error`. */
  datatype Result<+T> = Success(value: T) | Failure(error: Exception)

  /** The value of a void call that either returns or throws `error`. */
  datatype Outcome = Pass | Fail(error: Exception)

  /** A .NET reference that may be null. */
  datatype Option<+T> = None | Some(value: T)
}

/** Failure-carrying datatypes shared by every module of the model, and the
    .NET exceptions the modelled code raises. */
module Wrappers {

  /** A value that may be absent: stands for a C# reference that may be null. */
  datatype Option<+T> = None | Some(value: T)

  /** The result of an operation that returns nothing or throws. */
  datatype Outcome<+E> = Pass | Fail(error: E)

  /** The result of an operation that returns a value or throws. */
  datatype Result<+T, +E> = Success(value: T) | Failure(error: E)

  /** The .NET exceptions the modelled code lets escape to its callers. */
  datatype Exception =
    | ArgumentNull(paramName: string)
    | InvalidOperation(message: string)
    | FileNotFound(message: string)
    | IndexOutOfRange
    | NotImplemented
}

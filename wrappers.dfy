/** Failure-carrying values used in place of the exceptions thrown by the system. */
module Wrappers {

  /** A value that may be absent; `None` stands for a C# `null` reference. */
  datatype Option<+T> = None | Some(value: T) {
    function GetOr(default: T): T {
      match this
      case Some(v) => v
      case None => default
    }
  }

  /** The exceptions the core throws or lets through, with the parameter name they carry. */
  datatype Error =
    | ArgumentOutOfRange(paramName: string)   // ArgumentOutOfRangeException
    | ArgumentNull(paramName: string)         // ArgumentNullException
    | Argument(argName: Option<string>)       // ArgumentException (ParamName may be null)
    | DirectoryNotFound                       // DirectoryNotFoundException
    | FileNotFound                            // FileNotFoundException raised by a move
    | IOError                                 // IOException raised by a move (destination exists)

  /** The outcome of an operation that returns a value or throws. */
  datatype Result<+T> = Ok(value: T) | Err(error: Error)

  /** The outcome of an operation that returns nothing or throws. */
  datatype Outcome = Pass | Fail(error: Error)
}

/** Failure-carrying values shared by every module of the model. */
module Wrappers {

  /** A value that may be absent (a C# null reference or a missing attribute). */
  datatype Option<+T> = None | Some(value: T) {

    /** The value, or `default` when absent (C#'s `??`). */
    function GetOr(default: T): T {
      match this
      case Some(v) => v
      case None => default
    }
  }

  /** Either a value or the exception the operation raised. */
  datatype Result<+R, +E> = Success(value: R) | Failure(error: E)
}

/** The exceptions the modelled code raises or lets through, by identity. */
module Exceptions {

  datatype Exception =
    /** `ArgumentNullException` for the named parameter. */
    | ArgumentNull(paramName: string)
    /** `ArgumentException` raised for an empty string argument. */
    | ArgumentEmpty(paramName: string)
    /** `ArgumentOutOfRangeException` for the named parameter. */
    | ArgumentOutOfRange(paramName: string)
    /** `InvalidOperationException`, e.g. loading into an unloading context. */
    | InvalidOperation(message: string)
    /** Any other exception, identified by its type name and message. */
    | Other(typeName: string, message: string)
}

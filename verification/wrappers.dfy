/** Failure-compatible wrappers: `Option` stands for a .NET null reference or an
    empty `Nullable<T>`, `Result` for "returned the guard" or "threw". */
module Wrappers {

  datatype Option<+T> = None | Some(value: T) {

    /** The wrapped value, or `default` when absent (C#'s `??`). */
    function GetOr(default: T): T {
      match this
      case Some(v) => v
      case None => default
    }
  }

  /** A check either returns a value or raises an error; `:-` aborts a chain
      at the first failure, as an uncaught exception would. */
  datatype Result<+R, +E> = Success(value: R) | Failure(error: E) {

    predicate IsFailure() {
      Failure?
    }

    function PropagateFailure<U>(): Result<U, E>
      requires Failure?
    {
      Failure(error)
    }

    function Extract(): R
      requires Success?
    {
      value
    }
  }
}

/** The three .NET exception classes the guard checks throw, as error values. */
module Exceptions {

  /** `NullArgument` is `ArgumentNullException`, `InvalidArgument` is
      `ArgumentException`, `OutOfRange` is `ArgumentOutOfRangeException`. */
  datatype ErrorKind = NullArgument | InvalidArgument | OutOfRange

  /** What a thrown exception carries: its class, `ParamName` and the message
      the library formats (without the parameter-name suffix .NET appends). */
  datatype GuardError = GuardError(kind: ErrorKind, paramName: string, message: string)
}

/** Result and option types, and the .NET exception kinds the modelled code raises. */
module Wrappers {

  /** A value that may be absent: a nullable reference or a `Nullable<T>` of the source. */
  datatype Option<+T> = None | Some(value: T) {
    /** `x ?? fallback` */
    function GetOr(fallback: T): T {
      if Some? then value else fallback
    }
  }

  /** The outcome of an operation that either returns a value or throws. */
  datatype Result<+T, +E> = Success(value: T) | Failure(error: E) {
    predicate IsFailure() {
      Failure?
    }

    function PropagateFailure<U>(): Result<U, E>
      requires Failure?
    {
      Failure(error)
    }

    function Extract(): T
      requires Success?
    {
      value
    }
  }

  /** The outcome of an operation that returns nothing or throws. */
  datatype Outcome<+E> = Pass | Fail(error: E)
}

/** The exceptions the modelled code throws, with their messages. */
module Exceptions {

  datatype Exception =
    | InvalidOperation(message: string)   // System.InvalidOperationException
    | Format(text: string)                // System.FormatException from int.Parse
    | Overflow(text: string)              // System.OverflowException from int.Parse
    | KeyNotFound(key: string)            // KeyNotFoundException from a dictionary indexer
    | ArgumentOutOfRange(year: int, month: int, day: int) // from the DateTime constructor
}

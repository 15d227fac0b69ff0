/** The Option type used throughout the model for Python's "value or None"
    and for dictionary keys that may be absent, and a Result type for
    operations that raise. */
module Wrappers {

  datatype Option<+T> = None | Some(value: T) {

    /** The value, or `default` when there is none (Python's `d.get(k, default)`). */
    function GetOr(default: T): T {
      match this
      case Some(v) => v
      case None => default
    }
  }

  /** The outcome of an operation that may raise: its value, or the message of
      the exception it raises. */
  datatype Result<+T> = Ok(value: T) | Failure(error: string)
}

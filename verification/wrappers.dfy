/** Optional values and results with an error message, used where the
    analyzer either produces a value or reports a failure. */
module Wrappers {

  /** A value that may be absent: a missing dictionary key, a null field,
      a failed request. */
  datatype Option<+T> = None | Some(value: T) {

    /** The value, or `default` when absent (Python's `d.get(key, default)`). */
    function GetOr(default: T): T {
      match this
      case Some(v) => v
      case None => default
    }
  }

  /** The outcome of an operation that raises an exception in the analyzer. */
  datatype Result<+T> = Ok(value: T) | Err(message: string)
}

/** Optional values and results: Java's `null` and checked exceptions. */
module Wrappers {
  datatype Option<+T> = None | Some(value: T)
  {
    function GetOr(default: T): T
    {
      if Some? then value else default
    }
  }

  /** The outcome of an operation that may throw: a value, or the exception's message. */
  datatype Result<+T> = Ok(value: T) | Err(message: string)
}

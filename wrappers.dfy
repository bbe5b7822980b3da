/** Optional values and the outcome of a resolver. */
module Wrappers {

  /** A value that may be absent (JavaScript's `null`/`undefined`, SQL's NULL). */
  datatype Option<T> = None | Some(value: T)

  /** What a resolver returns: its value, or the message of the `Error` it throws. */
  datatype Result<T> = Ok(value: T) | Err(msg: string)

  function Min(a: int, b: int): int { if a <= b then a else b }

  function Max(a: int, b: int): int { if a <= b then b else a }
}

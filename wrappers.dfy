/** Optional values (JavaScript `undefined`) and results of operations that can throw. */
module Wrappers {

  /** A value that may be absent, as `undefined` or `null` in the source. */
  datatype Option<+T> = None | Some(value: T)

  /** The outcome of an operation that either returns a value or throws a `TypeError`. */
  datatype Result<+T> = Ok(value: T) | Failure(error: string)
}

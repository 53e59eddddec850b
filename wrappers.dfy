/** Optional values and failure-carrying results, used for JavaScript's
    `null`/`undefined` fields and for exceptions thrown by a handler. */
module Wrappers {

  /** A value that may be absent (`null` or `undefined` in the component). */
  datatype Option<+T> = None | Some(value: T)

  /** The outcome of a computation that may throw. */
  datatype Result<+T, +E> = Ok(value: T) | Err(error: E)
}

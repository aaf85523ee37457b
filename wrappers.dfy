/** Optional values and results with an error channel, shared by the other modules. */
module Wrappers {

  /** A JavaScript value that may be `null` or `undefined`. */
  datatype Option<+T> = None | Some(value: T)

  /** The outcome of an operation that throws in the JavaScript client. */
  datatype Result<+T, +E> = Success(value: T) | Failure(error: E)
}

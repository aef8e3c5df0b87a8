/** Optional and failure-carrying values shared by the other modules. */
module Wrappers {

  /** A present value, or JavaScript's `undefined`. */
  datatype Option<+T> = None | Some(value: T)

  /** A value, or the error a JavaScript function would throw. */
  datatype Result<+T, +E> = Success(value: T) | Failure(error: E)
}

/** Option and Result, the two failure-carrying wrappers the rest of the model uses. */
module Wrappers {

  /** A Go pointer or error value that may be nil. */
  datatype Option<+T> = None | Some(value: T)

  /** One value, or the error that replaced it. */
  datatype Result<+R, +E> = Success(value: R) | Failure(error: E)
}

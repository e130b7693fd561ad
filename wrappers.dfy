/** Option and Result, the two wrappers the price model is built on. */
module Wrappers {

  /** A value that may be absent: stands for a JavaScript value that may be `null`. */
  datatype Option<+T> = None | Some(value: T)

  /** The outcome of an operation that either returns a value or throws an error. */
  datatype Result<+R, +E> = Success(value: R) | Failure(error: E)
}

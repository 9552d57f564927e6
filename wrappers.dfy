/** Failure-compatible wrappers used throughout the model. */
module Wrappers {

  /** A value that may be missing: Python's `None` or a present value. */
  datatype Option<+T> = None | Some(value: T)

  /** The outcome of an operation that either returns normally or raises. */
  datatype Result<+T, +E> = Success(value: T) | Failure(error: E)

  /** The one exception the modelled code raises, with its message. */
  datatype PyError = ValueError(message: string)
}

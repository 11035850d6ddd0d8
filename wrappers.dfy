/** Option and Result values standing for Python's `None` and for a raised exception. */
module Wrappers {

  /** A value that may be absent (Python `None`). */
  datatype Option<+T> = None | Some(value: T)

  /** The outcome of a step that can raise: a value, or the exception's message. */
  datatype Result<+T> = Success(value: T) | Failure(error: string)
}

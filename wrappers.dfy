/** Option and Result, the wrappers for absent values and failures used across the model. */
module Wrappers {
  /** A value that may be absent; `None` stands for a JavaScript `null` or `undefined`. */
  datatype Option<+T> = None | Some(value: T)

  /** The outcome of an operation that the source abandons with a thrown error. */
  datatype Result<+T, +E> = Success(value: T) | Failure(error: E)
}

/** Optional values and results with a typed error, used across the model. */
module Wrappers {

  /** Kotlin's nullable `T?`: either nothing or a value. */
  datatype Option<+T> = None | Some(value: T)

  /** The outcome of an operation that throws in the source: a value or the error it raised. */
  datatype Result<+R, +E> = Success(value: R) | Failure(error: E)
}

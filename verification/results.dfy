/** Option and Result: a value that may be null, and an operation that may throw. */
module Results {

  /** A deserialized payload that may be `null`. */
  datatype Option<+T> = None | Some(value: T)

  /** The outcome of a service operation: a value, or the exception it throws. */
  datatype Result<+T, +E> = Success(value: T) | Failure(error: E)
}

/** Optional values and outcomes shared by the other modules. */
module Options {

  /** A value that may be absent (Python's `None`). */
  datatype Option<+T> = None | Some(value: T)

  /** The outcome of an operation that the Python code can abort with an exception. */
  datatype Result<+T, +E> = Success(value: T) | Failure(error: E)
}

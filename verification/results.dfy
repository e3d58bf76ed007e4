/** Failure-carrying values shared by every module of the model: `Option`
    for Python's `Optional`, and `Result` for a call that either returns a
    value or raises. */
module Results {

  /** A value that may be absent (Python's `None`). */
  datatype Option<+T> = None | Some(value: T)

  /** The outcome of a call that either returns `value` or raises `error`. */
  datatype Result<+T, +E> = Success(value: T) | Failure(error: E)
}

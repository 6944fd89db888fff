/** Optional values and results shared by every module of the model. */
module Base {

  /** A value that may be absent (Python's None). */
  datatype Option<+T> = None | Some(value: T)

  /** The outcome of an operation that can raise an exception. */
  datatype Result<+T, +E> = Ok(value: T) | Err(error: E)
}

/** Failure-compatible wrappers shared by every module of the model. */
module Common {

  datatype Option<+T> = None | Some(value: T)

  /** The outcome of an operation that either yields a value or raises the given error. */
  datatype Result<+T, +E> = Ok(value: T) | Err(error: E)
}

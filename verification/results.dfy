/** Optional values and value-or-error results used throughout the model. */
module Results {

  datatype Option<+T> = None | Some(value: T)

  /** The outcome of a step that either produces a value or throws an error. */
  datatype Result<+T, +E> = Ok(value: T) | Err(error: E)
}

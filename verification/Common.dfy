/** Shared value types. */
module Common {

  datatype Option<+T> = None | Some(value: T)

  /** The outcome of a request that either answers with a value or is refused. */
  datatype Result<+T, +E> = Ok(value: T) | Err(error: E)
}

/** Small datatypes shared by every component. */
module Common {

  datatype Option<+T> = None | Some(value: T)

  /** The outcome of a command: a value, or the error the source raises. */
  datatype Result<+T, +E> = Ok(value: T) | Err(error: E)
}

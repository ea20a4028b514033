/** A value that may be missing, and a value that may be an error. */
module Wrappers {
  datatype Option<+T> = None | Some(value: T)

  datatype Result<+T> = Ok(value: T) | Err(error: string)
}

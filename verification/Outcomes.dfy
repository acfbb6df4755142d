/** The two result shapes shared by every component. */
module Outcomes {
  datatype Option<+T> = None | Some(value: T)

  /** A completed operation, or the exception or error it ended with. */
  datatype Result<+T, +E> = Ok(value: T) | Err(error: E)
}

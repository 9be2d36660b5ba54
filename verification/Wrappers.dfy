/** Result shapes shared by the modules: a missing value, and a Go-style (value, error) pair. */
module Wrappers {
  datatype Option<+T> = None | Some(value: T)

  datatype Result<+T, +E> = Ok(value: T) | Err(error: E)
}

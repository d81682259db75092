// Outcome types shared by the modules: a value that may be absent, and the
// (value, error) pair of the source as one of two cases.
module Wrappers {
  datatype Option<+T> = None | Some(value: T)

  datatype Result<+T, +E> = Ok(value: T) | Err(error: E)
}

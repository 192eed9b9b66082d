// Optional values, used for SQL columns that may be NULL and for lookups that may miss.
module Wrappers {

  datatype Option<+T> = None | Some(value: T)

  datatype Result<+T, +E> = Ok(value: T) | Err(error: E)
}

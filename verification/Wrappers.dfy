/** Values that may be missing, and results that may be errors. */
module Wrappers {
  datatype Option<+T> = Nothing | Just(value: T)

  datatype Result<+T> = Ok(value: T) | Err
}

/** Optional values, for Python's `None`, and results, for calls that may raise. */
module Wrappers {
  datatype Option<+T> = None | Some(value: T)

  datatype Result<+T> = Ok(value: T) | Raised
}

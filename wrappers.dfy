/** Optional values and failure-carrying results, as returned by the repository operations. */
module Wrappers {

  /** A value that may be absent: Python's `Optional[...]`, `None` being `None`. */
  datatype Option<+T> = None | Some(value: T)

  /** Either the value an operation produced or the error it reported. */
  datatype Result<+T, +E> = Ok(value: T) | Err(error: E)
}

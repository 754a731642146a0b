/** Optional values and failure-carrying results shared by every module. */
module Wrappers {

  /** A value that may be missing (an absent JSON field or query parameter). */
  datatype Option<+T> = None | Some(value: T)

  /** The outcome of an operation that can fail with an error of type E. */
  datatype Result<+T, +E> = Ok(value: T) | Err(error: E)
}

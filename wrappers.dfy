/** Optional values and error-carrying results shared by the grade model. */
module Wrappers {

  /** A value that may be absent: JavaScript's `null`, or a non-finite number. */
  datatype Option<+T> = None | Some(value: T)

  /** Either a computed value or the reason the computation was abandoned. */
  datatype Result<+T, +E> = Ok(value: T) | Err(error: E)
}

/** Failure-carrying datatypes shared by the expense model. */
module Wrappers {

  /** A value that may be absent: an optional JSON field, a lookup that can miss. */
  datatype Option<+T> = None | Some(value: T)

  /** Either a value or the error that prevented computing it. */
  datatype Result<+R, +E> = Success(value: R) | Failure(error: E)
}

/** Failure-carrying wrapper types shared by the title search and the publishing pass. */
module Wrappers {

  /** A value that may be absent (Python's `None` before the first assignment). */
  datatype Option<+T> = None | Some(value: T)

  /** Either a successful value or the error the source would raise. */
  datatype Result<+R, +E> = Success(value: R) | Failure(error: E)
}

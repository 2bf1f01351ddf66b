/** Option and Result: absent values and early-return errors. */
module Wrappers {

  datatype Option<+T> = None | Some(value: T)

  /** Either the value a chain of checks produced or the error the first failing check gave. */
  datatype Result<+R, +E> = Success(value: R) | Failure(error: E)
}

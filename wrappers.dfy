/** Option and Result, used for the values int() may refuse and for the
    errors that abort a conversion. */
module Wrappers {

  datatype Option<+T> = None | Some(value: T)

  datatype Result<+T, +E> = Success(value: T) | Failure(error: E)
}

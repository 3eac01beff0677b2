/** Option and Result, used for values a request may omit and for the errors
    the SQLite driver hands to its callbacks. */
module Wrappers {

  datatype Option<+T> = None | Some(value: T)

  datatype Result<+R, +E> = Success(value: R) | Failure(error: E)
}

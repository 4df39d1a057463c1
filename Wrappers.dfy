/** Option and Result, used for unparseable timestamps, missing query
    parameters and the client errors of the ticker check. */
module Wrappers {

  datatype Option<+T> = None | Some(value: T)

  datatype Result<+R, +E> = Success(value: R) | Failure(error: E)
}

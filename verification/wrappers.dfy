/** Failure-carrying results shared by every module of the model: Python's `None` results
    and raised exceptions are returned as values instead of being thrown. */
module Wrappers {

  datatype Option<+T> = None | Some(value: T)

  datatype Result<+T, +E> = Ok(value: T) | Err(error: E)
}

/** Failure-carrying results used throughout the model: Python exceptions that
    the modelled code raises become `Err` values instead of preconditions. */
module Wrappers {

  datatype Option<+T> = None | Some(value: T)

  datatype Result<+T, +E> = Ok(value: T) | Err(error: E)
}

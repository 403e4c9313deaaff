/** Failure-carrying results shared by the model: `Option` for lookups that may
    miss, `Result` for operations that report an error to their caller. */
module Wrappers {

  datatype Option<+T> = None | Some(value: T)

  datatype Result<+T, +E> = Ok(value: T) | Err(error: E)
}

/** Option and Result, the failure-carrying values the rest of the model returns
    where the source raises an exception. */
module Wrappers {

  datatype Option<+T> = None | Some(value: T)

  datatype Result<+R, +E> = Ok(value: R) | Err(error: E)
}

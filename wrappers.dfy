/** Failure-carrying values used across the model in place of exceptions,
    Go `error` returns and JavaScript `undefined`. */
module Wrappers {

  datatype Option<+T> = None | Some(value: T)

  datatype Result<+T, +E> = Ok(value: T) | Err(error: E)
}

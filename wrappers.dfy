/** Option and Result, used for the values the source leaves `undefined`
    and for the errors it throws. */
module Wrappers {

  datatype Option<+T> = None | Some(value: T)

  datatype Result<+T, +E> = Ok(value: T) | Err(error: E)
}

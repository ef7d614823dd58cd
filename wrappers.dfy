/** Option and Result, the two ways an operation of the model reports "nothing" or "failed". */
module Wrappers {

  datatype Option<+T> = None | Some(value: T)

  datatype Result<+R, +E> = Ok(value: R) | Err(error: E)
}

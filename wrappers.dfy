/** Option and Result, used for the regex matches that may fail and for the
    exceptions the converter raises. */
module Wrappers {

  datatype Option<+T> = None | Some(value: T)

  datatype Result<+R, +E> = Ok(value: R) | Err(error: E)
}

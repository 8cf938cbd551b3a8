/** Option and Result, used for the source's `None` returns and for the
    exceptions and `exit(1)` calls of the analysers. */
module Wrappers {

  datatype Option<+T> = None | Some(value: T)

  datatype Result<+T, +E> = Ok(value: T) | Err(error: E)
}

/** Option and Result: the "missing" and "raised an error" outcomes of the
    Python code, made explicit. */
module Wrappers {

  datatype Option<+T> = None | Some(value: T)

  datatype Result<+T, +E> = Ok(value: T) | Err(error: E)
}

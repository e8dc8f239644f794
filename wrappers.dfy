/** Option and Result, used for Python's None and for exceptions that escape a call. */
module Wrappers {

  datatype Option<+T> = None | Some(value: T)

  /** An error that escapes the modelled function, named after the Python exception. */
  datatype Error =
    | AttributeError(message: string)
    | JsonDecodeError(message: string)

  datatype Result<+T> = Ok(value: T) | Err(error: Error)
}

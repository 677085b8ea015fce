/** Failure-carrying values standing for the exceptions the Python code raises or returns. */
module Results {

  /** An optional value: Python's `None` or a present value. */
  datatype Option<+T> = None | Some(value: T)

  /** The exceptions the modelled code raises, each with the text `str(e)` yields. */
  datatype Exception =
    | ValueError(msg: string)
    | RuntimeError(msg: string)
    | UnicodeDecodeError(msg: string)
    | SqliteError(msg: string)
    | NameError(msg: string)
    | FileNotFoundError(msg: string)
    | EnvironmentError(msg: string)
    | TypeError(msg: string)
    | OtherError(msg: string)

  /** Either the value a call returns or the exception it raises. */
  datatype Result<+T> = Ok(value: T) | Err(error: Exception)
}

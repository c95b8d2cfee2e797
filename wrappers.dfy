/** Option and Result shapes shared by every module of the model, and the
    Python exception kinds the modelled code raises or swallows. */
module Wrappers {

  /** `None` also stands for the NaN / None sentinel of a table cell. */
  datatype Option<+T> = None | Some(value: T)

  /** The exception classes that the modelled Python code can raise. */
  datatype PyError =
    | AttributeError
    | KeyError
    | IndexError
    | ValueError
    | AssertionError
    | NameError
    | IntegrityError
    | InvalidOperation

  /** A call that either returns a value or raises one of `PyError`. */
  datatype Result<+T> = Ok(value: T) | Err(error: PyError)
}

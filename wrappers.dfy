/** Outcome types for the modelled Python functions: a value, or the
    exception the Python code raises instead of returning. */
module Wrappers {

  /** The Python exceptions the modelled code can raise. */
  datatype Error =
    | IndexError               // list index out of range
    | KeyError(key: int)       // dictionary lookup of a missing key
    | ValueError               // raised explicitly, or min() of an empty list
    | ZeroDivisionError        // float division by zero

  /** Python's None, or a value. */
  datatype Option<+T> = None | Some(value: T)

  /** A returned value, or a raised exception. */
  datatype Result<+T> = Ok(value: T) | Err(error: Error)
}

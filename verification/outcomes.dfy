/** Optional values and error-carrying results, the model's stand-in for
    Python's `None` and for exceptions that end an operation. */
module Outcomes {

  datatype Option<+T> = None | Some(value: T)

  /** `Err` carries the message the Python exception would carry. */
  datatype Result<+T> = Ok(value: T) | Err(error: string)
}

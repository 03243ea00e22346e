/** Failure-carrying result types shared by the whole model. */
module Wrappers {

  /** A value that may be absent: Python's None, pandas' NaN or a NULL cell. */
  datatype Option<+T> = None | Some(value: T)

  /** The outcome of an operation that the source can abort with an exception
      or with an error message and `exit()`. */
  datatype Result<+T, +E> = Ok(value: T) | Err(error: E)
}

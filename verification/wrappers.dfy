/** Failure-carrying result types used throughout the parser model. */
module Wrappers {

  /** An optional value: `None` stands for Python's `None` (for instance a failed `re.search`). */
  datatype Option<+T> = None | Some(value: T)

  /** Either a value or the error that the Python code would have raised. */
  datatype Result<+T, +E> = Ok(value: T) | Err(error: E)
}

/** Option and Result datatypes shared by the hashing and search modules. */
module Wrappers {

  /** An optional value: Python's `Optional[str]` (`None` or a string). */
  datatype Option<+T> = None | Some(value: T)

  /** Either a value or the exception the Python code raises instead. */
  datatype Result<+T, +E> = Ok(value: T) | Err(error: E)
}

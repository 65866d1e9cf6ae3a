/** The result of an operation that can abort with an error. */
module Wrappers {

  datatype Result<+T, +E> = Ok(value: T) | Err(error: E)
}

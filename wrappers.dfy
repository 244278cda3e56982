/** Small helper datatypes shared by the modules of this project. */
module Wrappers {

  /** A value that may be absent (Python `None`, C++ `npos`). */
  datatype Option<+T> = None | Some(value: T)

  /** The outcome of an operation that may report an error instead of a value. */
  datatype Result<+T, +E> = Ok(value: T) | Err(error: E)
}

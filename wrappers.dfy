/** Option and Result: the outcomes of operations that can fail in the source. */
module Wrappers {

  datatype Option<+T> = None | Some(value: T)

  /** `Err` stands for an exception the source raises: the run ends with no partial result. */
  datatype Result<+T, +E> = Ok(value: T) | Err(error: E)
}

/** Option and Result. */
module Wrappers {

  /** A value that may be absent: the source's `false`-or-array answers. */
  datatype Option<+T> = None | Some(value: T)

  /** A value or the reason it could not be produced: the source's exceptions. */
  datatype Result<+T, +E> = Ok(value: T) | Err(error: E)
}

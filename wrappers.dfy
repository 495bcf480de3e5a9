/** Option and Result, used wherever the source returns None or raises. */
module Wrappers {

  datatype Option<T> = None | Some(value: T)

  /** Success carries a value; Failure carries the error the source raises. */
  datatype Result<T, E> = Success(value: T) | Failure(error: E)
}

/** Option and Result values standing in for the source's nullable references and exceptions. */
module Wrappers {

  /** A value that may be absent (a C# `null`). */
  datatype Option<+T> = None | Some(value: T)

  /** Either a value or the error that construction reported. */
  datatype Result<+R, +E> = Success(value: R) | Failure(error: E)
}

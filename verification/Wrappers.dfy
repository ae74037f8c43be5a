/** What every module shares: result shapes, bytes, and how a write ends. */
module Wrappers {

  datatype Option<+T> = None | Some(value: T)

  datatype Result<+T, +E> = Ok(value: T) | Err(error: E)

  newtype Byte = x: int | 0 <= x < 256

  type Bytes = seq<Byte>

  /** An atomic file write, seen from outside: it replaces the file, or fails
      before or after having done so. */
  datatype WriteOutcome = Written | NotWritten | WrittenYetFailed
}

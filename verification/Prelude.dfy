/** Datatypes shared by every module. */
module Prelude {
  datatype Option<+T> = None | Some(value: T)

  /** A call's result with the source's error path spelled out. */
  datatype Result<+T, +E> = Ok(value: T) | Err(error: E)

  newtype Byte = b: int | 0 <= b < 256

  /** Instants and durations count nanoseconds. */
  const SECOND: nat := 1_000_000_000
}

/** Values shared by every component: bytes, optional values and Go-style results. */
module Wrappers {

  /** A Go `byte`. */
  newtype byte = x: int | 0 <= x < 256

  /** A Go error, identified by its `Error()` text. */
  type Error = string

  datatype Option<+T> = None | Some(value: T)

  /** A Go `(value, error)` pair: `Err` carries no value, so a caller never sees partial output. */
  datatype Result<+T> = Ok(value: T) | Err(error: Error)
}

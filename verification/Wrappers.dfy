/** Option and Result, in place of nil pointers and of Go's (value, error) pairs. */
module Wrappers {

  datatype Option<+T> = None | Some(value: T)

  datatype Result<+T, +E> = Ok(value: T) | Fault(error: E)

  newtype byte = b: int | 0 <= b < 256

  type Bytes = seq<byte>

  /** An instant. The zero value stands for Go's zero time. */
  type Time = int

  const ZERO_TIME: Time := 0

  function Min(a: int, b: int): int {
    if a <= b then a else b
  }
}

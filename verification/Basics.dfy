/** What several parts share: bytes, values that may not be there, and numbers. */
module Basics {

  datatype Option<T> = None | Some(value: T)

  type Byte = b: int | 0 <= b < 256 witness 0

  /** A byte of a buffer; undefined outside of it, which counts as 0. */
  function At(data: seq<Byte>, i: int): Byte {
    if 0 <= i < |data| then data[i] else 0
  }

  function MaxInt(a: int, b: int): int {
    if a < b then b else a
  }

  function MinInt(a: int, b: int): int {
    if b < a then b else a
  }

  function Max(a: real, b: real): real {
    if a < b then b else a
  }

  function Min(a: real, b: real): real {
    if b < a then b else a
  }

  function Abs(x: real): real {
    if x < 0.0 then -x else x
  }
}

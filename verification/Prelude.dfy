/** Vocabulary shared by every model in this project. */
module Prelude {

  datatype Option<+T> = None | Some(value: T)

  datatype Result<+T, +E> = Ok(value: T) | Err(error: E)

  type Byte = b: int | 0 <= b < 256

  // A clock reading, in milliseconds. Wall-clock and monotonic readings are both plain
  // numbers here; each model says which order it assumes between them.
  type Time = int

  // Time elapsed between two monotonic readings, saturating at zero.
  function Elapsed(now: Time, since: Time): nat {
    if now >= since then now - since else 0
  }

  function Max(a: int, b: int): int { if a >= b then a else b }
}

/** Shared vocabulary: bytes, optional values and the pointer-to-bool configuration fields. */
module Basics {

  type byte = x: int | 0 <= x < 256

  type bytes = seq<byte>

  /** A device id: a Go string, that is, any byte sequence. */
  datatype DeviceId = DeviceId(name: bytes)

  datatype Option<+T> = None | Some(value: T)

  datatype Result<+T, +E> = Ok(value: T) | Err(error: E)

  /** A `*bool` configuration field: nil means "take the default". */
  function BoolDeref(p: Option<bool>, byDefault: bool): bool {
    match p
    case None => byDefault
    case Some(b) => b
  }

  function Min(a: int, b: int): int {
    if a < b then a else b
  }

  function Max(a: int, b: int): int {
    if a < b then b else a
  }
}

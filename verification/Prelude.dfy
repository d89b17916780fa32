/** Stock types shared by every module: bytes, byte strings and optional values. */
module Prelude {
  type byte = x: int | 0 <= x < 256
  type Bytes = seq<byte>

  datatype Option<+T> = None | Some(value: T)
}

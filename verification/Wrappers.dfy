/** Shared small datatypes. */
module Wrappers {
  datatype Option<+T> = None | Some(value: T)

  /** One octet. */
  type byte = b: int | 0 <= b < 256

  /** A 32-bit unsigned sum. */
  function Wrap32(x: nat): nat { x % 0x1_0000_0000 }
}

/** Machine constants and the optional value. */
module Basics {

  /** One more than the largest `u64` (and `usize`). */
  const U64_VALUES: nat := 0x1_0000_0000_0000_0000

  /** Bytes in a page, and in the frame that backs it. */
  const PAGE: nat := 4096

  type Byte = x: int | 0 <= x < 256

  function Min(a: nat, b: nat): nat {
    if a < b then a else b
  }

  datatype Option<T> = None | Some(value: T)
}

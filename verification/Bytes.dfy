/** Fixed-width values and stock helpers. Registers the code does arithmetic on are bounded integers;
    registers it masks and shifts are bit-vectors. */
module Bytes {

  /** An unsigned 8-bit number. */
  type byte = x: int | 0 <= x < 0x100

  /** An unsigned 16-bit number. */
  type word = x: int | 0 <= x < 0x1_0000

  datatype Option<+T> = None | Some(value: T)

  function Zeros(n: nat): (s: seq<bv8>)
    ensures |s| == n
  {
    seq(n, _ => 0)
  }

  function Min(a: int, b: int): int {
    if a <= b then a else b
  }
}

/** Machine words of the target: little-endian, 32-bit, with the 16-bit helpers of the checksum code. */
module Words {
  type byte = x: int | 0 <= x < 0x100
  type u8 = byte
  type u16 = x: int | 0 <= x < 0x1_0000
  type u32 = x: int | 0 <= x < 0x1_0000_0000

  const U16: nat := 0x1_0000
  const U32: nat := 0x1_0000_0000

  /** The largest value of ssize_t. */
  const SSIZE_MAX: nat := 0x7FFF_FFFF

  /** FOLD_U32T: adds the upper half of a word to its lower half. */
  function Fold(x: u32): u32 {
    x / U16 + x % U16
  }

  /** SWAP_BYTES_IN_WORD, which is also lwip_htons on this target. */
  function SwapBytes(x: u32): u16 {
    x % 0x100 * 0x100 + x / 0x100 % 0x100
  }

  /** A 16-bit load at index i. */
  function Load16(data: seq<byte>, i: nat): u16
    requires i + 2 <= |data|
  {
    data[i] as int + 0x100 * data[i + 1] as int
  }

  /** A 32-bit load at index i. */
  function Load32(data: seq<byte>, i: nat): u32
    requires i + 4 <= |data|
  {
    Load16(data, i) as int + 0x1_0000 * Load16(data, i + 2) as int
  }

  function Min(a: int, b: int): int {
    if a < b then a else b
  }
}

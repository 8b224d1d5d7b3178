/** Shared vocabulary: an optional value and the fixed-width unsigned
    integers the native code works with. */
module Base {

  datatype Option<+T> = None | Some(value: T)

  const TWO8: int := 0x100
  const TWO32: int := 0x1_0000_0000
  const TWO64: int := 0x1_0000_0000_0000_0000

  type u8 = x: int | 0 <= x < TWO8
  type u32 = x: int | 0 <= x < TWO32
  type u64 = x: int | 0 <= x < TWO64

  /** The unsigned 32-bit bitwise AND of two words. */
  function And32(a: u32, b: u32): u32
  {
    ((a as bv32) & (b as bv32)) as int
  }

  /** The unsigned 32-bit bitwise OR of two words. */
  function Or32(a: u32, b: u32): u32
  {
    ((a as bv32) | (b as bv32)) as int
  }

  /** Whether any bit of `mask` is set in `x`. */
  predicate HasBit(x: u32, mask: u32)
  {
    And32(x, mask) != 0
  }

  function Min(a: int, b: int): int { if a <= b then a else b }
  function Max(a: int, b: int): int { if a >= b then a else b }
}

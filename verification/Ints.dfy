/** Fixed-width integers of the modelled programs: the ranges, and the wrap-around of a conversion. */
module Ints {
  type int8 = x: int | -0x80 <= x < 0x80
  type int16 = x: int | -0x8000 <= x < 0x8000
  type int32 = x: int | -0x8000_0000 <= x < 0x8000_0000

  /** Two's-complement truncation to 8 bits. */
  function Int8(x: int): int8 {
    (x + 0x80) % 0x100 - 0x80
  }

  /** Two's-complement truncation to 16 bits. */
  function Int16(x: int): int16 {
    (x + 0x8000) % 0x1_0000 - 0x8000
  }

  /** Two's-complement truncation to 32 bits. */
  function Int32(x: int): int32 {
    (x + 0x8000_0000) % 0x1_0000_0000 - 0x8000_0000
  }

  /** Each truncation takes away a multiple of its range, and nothing from a number that is in it. */
  lemma Truncations(x: int) returns (a: int, b: int, c: int)
    ensures x == Int8(x) + 0x100 * a && (-0x80 <= x < 0x80 ==> Int8(x) == x)
    ensures x == Int16(x) + 0x1_0000 * b && (-0x8000 <= x < 0x8000 ==> Int16(x) == x)
    ensures x == Int32(x) + 0x1_0000_0000 * c && (-0x8000_0000 <= x < 0x8000_0000 ==> Int32(x) == x)
  {
    a, b, c := (x + 0x80) / 0x100, (x + 0x8000) / 0x1_0000, (x + 0x8000_0000) / 0x1_0000_0000;
  }

  function Power2(k: nat): nat {
    if k == 0 then 1 else 2 * Power2(k - 1)
  }
}

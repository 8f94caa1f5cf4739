/** The checksums of MSP frames: XOR for version 1 and LTM, CRC-8/DVB-S2 for version 2. */
module Crc8 {
  import opened Framing

  /** The register of a checksum. */
  type sum = bv8

  /** The register as it stands in a frame. */
  function Byte(c: sum): byte {
    c as int
  }

  /** The bits of one hexadecimal digit. */
  function Digit(a: int): (x: sum)
    requires 0 <= a < 16
    ensures x as int == a && x < 16
  {
    if a < 8 then
      if a < 4 then (if a < 2 then (if a < 1 then 0 else 1) else if a < 3 then 2 else 3)
      else (if a < 6 then (if a < 5 then 4 else 5) else if a < 7 then 6 else 7)
    else if a < 12 then (if a < 10 then (if a < 9 then 8 else 9) else if a < 11 then 10 else 11)
    else (if a < 14 then (if a < 13 then 12 else 13) else if a < 15 then 14 else 15)
  }

  lemma DigitsJoin(h: sum, l: sum)
    requires h < 16 && l < 16
    ensures ((h << 4) | l) as int == 16 * (h as int) + l as int
  {
  }

  /** The bits of a byte, from its two digits. */
  function Bits(a: byte): (x: sum)
    ensures Byte(x) == a
  {
    DigitsJoin(Digit(a / 16), Digit(a % 16));
    (Digit(a / 16) << 4) | Digit(a % 16)
  }

  function Xor(crc: sum, a: byte): sum {
    crc ^ Bits(a)
  }

  /** One shift of the CRC register: polynomial 0xd5, most significant bit first. */
  function Shift(c: sum): sum {
    if c & 0x80 != 0 then (c << 1) ^ 0xd5 else c << 1
  }

  function Shifts(c: sum, n: nat): sum
    decreases n
  {
    if n == 0 then c else Shifts(Shift(c), n - 1)
  }

  function Crc(crc: sum, a: byte): sum {
    Shifts(Xor(crc, a), 8)
  }

  /** The source's loop. */
  method Crc8DvbS2(crc: sum, a: byte) returns (r: sum)
    ensures r == Crc(crc, a)
  {
    r := Xor(crc, a);
    for i := 0 to 8
      invariant Shifts(r, 8 - i) == Crc(crc, a)
    {
      if r & 0x80 != 0 {
        r := (r << 1) ^ 0xd5;
      } else {
        r := r << 1;
      }
    }
  }

  /** The CRC of a string, from register value c. */
  function CrcOf(c: sum, s: seq<byte>): sum {
    if s == [] then c else Crc(CrcOf(c, s[..|s| - 1]), s[|s| - 1])
  }

  function XorOf(s: seq<byte>): sum {
    if s == [] then 0 else Xor(XorOf(s[..|s| - 1]), s[|s| - 1])
  }

  lemma FoldsGrow(c: sum, s: seq<byte>, b: byte)
    ensures CrcOf(c, s + [b]) == Crc(CrcOf(c, s), b)
    ensures XorOf(s + [b]) == Xor(XorOf(s), b)
  {
    assert (s + [b])[..|s|] == s;
  }

  // ---------- no two registers and no two bytes are confused ----------

  lemma ShiftInjective(c: sum, c': sum)
    requires Shift(c) == Shift(c')
    ensures c == c'
  {
  }

  lemma {:induction false} ShiftsInjective(c: sum, c': sum, n: nat)
    requires Shifts(c, n) == Shifts(c', n)
    ensures c == c'
    decreases n
  {
    if n > 0 {
      ShiftsInjective(Shift(c), Shift(c'), n - 1);
      ShiftInjective(c, c');
    }
  }

  lemma XorCancels(c: sum, c': sum, x: sum, x': sum)
    requires c ^ x == c' ^ x' && (c == c' || x == x')
    ensures c == c' && x == x'
  {
  }

  lemma XorInjective(c: sum, c': sum, a: byte, a': byte)
    requires Xor(c, a) == Xor(c', a') && (c == c' || a == a')
    ensures c == c' && a == a'
  {
    XorCancels(c, c', Bits(a), Bits(a'));
  }

  /** The CRC step is injective in the register and in the byte. */
  lemma CrcInjective(c: sum, c': sum, a: byte, a': byte)
    requires Crc(c, a) == Crc(c', a') && (c == c' || a == a')
    ensures c == c' && a == a'
  {
    ShiftsInjective(Xor(c, a), Xor(c', a'), 8);
    XorInjective(c, c', a, a');
  }

  /** Strings that differ in exactly one byte have different CRCs, at any length. */
  lemma {:induction false} CrcSeesOneByte(c: sum, s: seq<byte>, i: nat, x: byte)
    requires i < |s| && x != s[i]
    ensures CrcOf(c, s[i := x]) != CrcOf(c, s)
  {
    var n := |s| - 1;
    if i == n {
      assert s[i := x][..n] == s[..n];
      if CrcOf(c, s[i := x]) == CrcOf(c, s) {
        CrcInjective(CrcOf(c, s[..n]), CrcOf(c, s[..n]), x, s[n]);
      }
    } else {
      CrcSeesOneByte(c, s[..n], i, x);
      assert s[i := x][..n] == s[..n][i := x];
      if CrcOf(c, s[i := x]) == CrcOf(c, s) {
        CrcInjective(CrcOf(c, s[..n][i := x]), CrcOf(c, s[..n]), s[n], s[n]);
      }
    }
  }

  lemma {:induction false} XorSeesOneByte(s: seq<byte>, i: nat, x: byte)
    requires i < |s| && x != s[i]
    ensures XorOf(s[i := x]) != XorOf(s)
  {
    var n := |s| - 1;
    if i == n {
      assert s[i := x][..n] == s[..n];
      if XorOf(s[i := x]) == XorOf(s) {
        XorInjective(XorOf(s[..n]), XorOf(s[..n]), x, s[n]);
      }
    } else {
      XorSeesOneByte(s[..n], i, x);
      assert s[i := x][..n] == s[..n][i := x];
      if XorOf(s[i := x]) == XorOf(s) {
        XorInjective(XorOf(s[..n][i := x]), XorOf(s[..n]), s[n], s[n]);
      }
    }
  }
}

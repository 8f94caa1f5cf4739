/** The table form of the CRC-8/DVB-S2 step against its shift form, and the encoders that use it. */
module CrcTable {
  import opened Crc8
  import opened Framing
  import opened MspCodec
  import opened MspFrames

  // the table, sixteen entries a row
  const ROW0: seq<sum> := [0x00, 0xd5, 0x7f, 0xaa, 0xfe, 0x2b, 0x81, 0x54, 0x29, 0xfc, 0x56, 0x83, 0xd7, 0x02, 0xa8, 0x7d]
  const ROW1: seq<sum> := [0x52, 0x87, 0x2d, 0xf8, 0xac, 0x79, 0xd3, 0x06, 0x7b, 0xae, 0x04, 0xd1, 0x85, 0x50, 0xfa, 0x2f]
  const ROW2: seq<sum> := [0xa4, 0x71, 0xdb, 0x0e, 0x5a, 0x8f, 0x25, 0xf0, 0x8d, 0x58, 0xf2, 0x27, 0x73, 0xa6, 0x0c, 0xd9]
  const ROW3: seq<sum> := [0xf6, 0x23, 0x89, 0x5c, 0x08, 0xdd, 0x77, 0xa2, 0xdf, 0x0a, 0xa0, 0x75, 0x21, 0xf4, 0x5e, 0x8b]
  const ROW4: seq<sum> := [0x9d, 0x48, 0xe2, 0x37, 0x63, 0xb6, 0x1c, 0xc9, 0xb4, 0x61, 0xcb, 0x1e, 0x4a, 0x9f, 0x35, 0xe0]
  const ROW5: seq<sum> := [0xcf, 0x1a, 0xb0, 0x65, 0x31, 0xe4, 0x4e, 0x9b, 0xe6, 0x33, 0x99, 0x4c, 0x18, 0xcd, 0x67, 0xb2]
  const ROW6: seq<sum> := [0x39, 0xec, 0x46, 0x93, 0xc7, 0x12, 0xb8, 0x6d, 0x10, 0xc5, 0x6f, 0xba, 0xee, 0x3b, 0x91, 0x44]
  const ROW7: seq<sum> := [0x6b, 0xbe, 0x14, 0xc1, 0x95, 0x40, 0xea, 0x3f, 0x42, 0x97, 0x3d, 0xe8, 0xbc, 0x69, 0xc3, 0x16]
  const ROW8: seq<sum> := [0xef, 0x3a, 0x90, 0x45, 0x11, 0xc4, 0x6e, 0xbb, 0xc6, 0x13, 0xb9, 0x6c, 0x38, 0xed, 0x47, 0x92]
  const ROW9: seq<sum> := [0xbd, 0x68, 0xc2, 0x17, 0x43, 0x96, 0x3c, 0xe9, 0x94, 0x41, 0xeb, 0x3e, 0x6a, 0xbf, 0x15, 0xc0]
  const ROW10: seq<sum> := [0x4b, 0x9e, 0x34, 0xe1, 0xb5, 0x60, 0xca, 0x1f, 0x62, 0xb7, 0x1d, 0xc8, 0x9c, 0x49, 0xe3, 0x36]
  const ROW11: seq<sum> := [0x19, 0xcc, 0x66, 0xb3, 0xe7, 0x32, 0x98, 0x4d, 0x30, 0xe5, 0x4f, 0x9a, 0xce, 0x1b, 0xb1, 0x64]
  const ROW12: seq<sum> := [0x72, 0xa7, 0x0d, 0xd8, 0x8c, 0x59, 0xf3, 0x26, 0x5b, 0x8e, 0x24, 0xf1, 0xa5, 0x70, 0xda, 0x0f]
  const ROW13: seq<sum> := [0x20, 0xf5, 0x5f, 0x8a, 0xde, 0x0b, 0xa1, 0x74, 0x09, 0xdc, 0x76, 0xa3, 0xf7, 0x22, 0x88, 0x5d]
  const ROW14: seq<sum> := [0xd6, 0x03, 0xa9, 0x7c, 0x28, 0xfd, 0x57, 0x82, 0xff, 0x2a, 0x80, 0x55, 0x01, 0xd4, 0x7e, 0xab]
  const ROW15: seq<sum> := [0x84, 0x51, 0xfb, 0x2e, 0x7a, 0xaf, 0x05, 0xd0, 0xad, 0x78, 0xd2, 0x07, 0x53, 0x86, 0x2c, 0xf9]

  const CRCTAB: seq<seq<sum>> := [
    ROW0, ROW1, ROW2, ROW3, ROW4, ROW5, ROW6, ROW7, ROW8, ROW9, ROW10, ROW11, ROW12, ROW13, ROW14, ROW15]

  /** Entry c of the table. */
  function TableAt(c: sum): sum {
    LowNibbles(c);
    CRCTAB[(c >> 4) as int][(c & 0x0f) as int]
  }

  lemma LowNibbles(c: sum)
    ensures (c >> 4) as int < 16 && (c & 0x0f) as int < 16
    ensures |CRCTAB| == 16 && forall r | 0 <= r < 16 :: |CRCTAB[r]| == 16
  {
    assert c >> 4 <= 0x0f && c & 0x0f <= 0x0f;
  }

  /** What eight shifts make of a register. */
  function Entry(c: sum): sum {
    Shift(Shift(Shift(Shift(Shift(Shift(Shift(Shift(c))))))))
  }

  lemma EntryIsShifts(c: sum)
    ensures Entry(c) == Shifts(c, 8)
  {
    var d := Shift(Shift(Shift(Shift(c))));
    assert Shifts(c, 8) == Shifts(d, 4) == Entry(c);
  }

  /** The row of the table for the registers from h on. */
  function Row(h: sum): seq<sum> {
    [Entry(h), Entry(h | 0x01), Entry(h | 0x02), Entry(h | 0x03), Entry(h | 0x04), Entry(h | 0x05), Entry(h | 0x06),
     Entry(h | 0x07), Entry(h | 0x08), Entry(h | 0x09), Entry(h | 0x0a), Entry(h | 0x0b), Entry(h | 0x0c), Entry(h | 0x0d),
     Entry(h | 0x0e), Entry(h | 0x0f)]
  }

  lemma RowAt(c: sum)
    ensures (c & 0x0f) as int < 16 && Row(c & 0xf0)[(c & 0x0f) as int] == Entry(c)
  {
    hide Entry;
    var l := c & 0x0f;
    Joins(c);
    if l < 0x04 {
      assert l in [0x00, 0x01, 0x02, 0x03];
    } else if l < 0x08 {
      assert l in [0x04, 0x05, 0x06, 0x07];
    } else if l < 0x0c {
      assert l in [0x08, 0x09, 0x0a, 0x0b];
    } else {
      assert l in [0x0c, 0x0d, 0x0e, 0x0f];
    }
  }

  lemma Joins(c: sum)
    ensures (c & 0xf0) | (c & 0x0f) == c && c & 0x0f <= 0x0f
  {
  }

  lemma Row0Is()
    ensures ROW0 == Row(0x00)
  {
  }

  lemma Row1Is()
    ensures ROW1 == Row(0x10)
  {
  }

  lemma Row2Is()
    ensures ROW2 == Row(0x20)
  {
  }

  lemma Row3Is()
    ensures ROW3 == Row(0x30)
  {
  }

  lemma Row4Is()
    ensures ROW4 == Row(0x40)
  {
  }

  lemma Row5Is()
    ensures ROW5 == Row(0x50)
  {
  }

  lemma Row6Is()
    ensures ROW6 == Row(0x60)
  {
  }

  lemma Row7Is()
    ensures ROW7 == Row(0x70)
  {
  }

  lemma Row8Is()
    ensures ROW8 == Row(0x80)
  {
  }

  lemma Row9Is()
    ensures ROW9 == Row(0x90)
  {
  }

  lemma Row10Is()
    ensures ROW10 == Row(0xa0)
  {
  }

  lemma Row11Is()
    ensures ROW11 == Row(0xb0)
  {
  }

  lemma Row12Is()
    ensures ROW12 == Row(0xc0)
  {
  }

  lemma Row13Is()
    ensures ROW13 == Row(0xd0)
  {
  }

  lemma Row14Is()
    ensures ROW14 == Row(0xe0)
  {
  }

  lemma Row15Is()
    ensures ROW15 == Row(0xf0)
  {
  }

  /** Every entry of the table is what eight shifts make of its index. */
  lemma TableIsShifts(c: sum)
    ensures TableAt(c) == Shifts(c, 8)
  {
    hide Entry;
    var h := c >> 4;
    LowNibbles(c);
    RowAt(c);
    EntryIsShifts(c);
    assert CRCTAB[h as int] == Row(c & 0xf0) by { RowOf(c); }
  }

  lemma RowOf(c: sum)
    ensures (c >> 4) as int < 16 && CRCTAB[(c >> 4) as int] == Row(c & 0xf0)
  {
    hide Entry, Row;
    LowNibbles(c);
    var h := c >> 4;
    if h == 0x00 {
      Row0Is();
    } else if h == 0x01 {
      Row1Is();
    } else if h == 0x02 {
      Row2Is();
    } else if h == 0x03 {
      Row3Is();
    } else if h == 0x04 {
      Row4Is();
    } else if h == 0x05 {
      Row5Is();
    } else if h == 0x06 {
      Row6Is();
    } else if h == 0x07 {
      Row7Is();
    } else if h == 0x08 {
      Row8Is();
    } else if h == 0x09 {
      Row9Is();
    } else if h == 0x0a {
      Row10Is();
    } else if h == 0x0b {
      Row11Is();
    } else if h == 0x0c {
      Row12Is();
    } else if h == 0x0d {
      Row13Is();
    } else if h == 0x0e {
      Row14Is();
    } else {
      Row15Is();
    }
  }

  method Crc2DvbS2(crc: sum, a: byte) returns (r: sum)
    ensures r == Crc(crc, a)
  {
    var c := Xor(crc, a);
    TableIsShifts(c);
    r := TableAt(c);
  }

  /** The table-driven CRC of a string equals the shift-driven one, whatever its length. */
  method CrcOfBytes(s: seq<byte>) returns (crc: sum)
    ensures crc == CrcOf(0, s)
  {
    crc := 0;
    for i := 0 to |s|
      invariant crc == CrcOf(0, s[..i])
    {
      FoldsGrow(0, s[..i], s[i]);
      assert s[..i] + [s[i]] == s[..i + 1];
      crc := Crc2DvbS2(crc, s[i]);
    }
    assert s[..|s|] == s;
  }

  method XorOfBytes(s: seq<byte>) returns (crc: sum)
    ensures crc == XorOf(s)
  {
    crc := 0;
    for i := 0 to |s|
      invariant crc == XorOf(s[..i])
    {
      FoldsGrow(0, s[..i], s[i]);
      assert s[..i] + [s[i]] == s[..i + 1];
      crc := Xor(crc, s[i]);
    }
    assert s[..|s|] == s;
  }

  /** A number as Ruby packs it into 16 bits, low byte first. */
  function Packed(n: nat): (r: seq<byte>)
    ensures |r| == 2
  {
    [n % 0x1_0000 % 0x100, n % 0x1_0000 / 0x100]
  }

  lemma PackedBody(cmd: nat, payload: seq<byte>)
    requires |payload| < 0x1_0000
    ensures [0] + Packed(cmd) + Packed(|payload|) + payload == V2Body(0, cmd % 0x1_0000, payload)
  {
    assert |payload| % 0x1_0000 == |payload|;
  }

  /** The length goes into two bytes, so a payload arrives if and only if it has fewer than 65536. */
  method Msp2Encode(cmd: nat, payload: seq<byte>, fc: bool) returns (sdata: seq<byte>)
    ensures var dirn := if fc then GREATER else LESS;
      if |payload| < 0x1_0000 then sdata == V2Frame(dirn, 0, cmd % 0x1_0000, payload)
      else Events(Msp(Log), sdata) != [Delivered(Frame(V2, dirn, cmd % 0x1_0000, payload))]
  {
    hide CrcOf, Events, Packed, V2Body;
    var blen := |payload|;
    var dirn := if fc then GREATER else LESS;
    sdata := [DOLLAR, CHAR_X, dirn];
    sdata := sdata + [0] + Packed(cmd) + Packed(blen);
    if blen > 0 {
      sdata := sdata + payload;
    }
    ghost var body := [0] + Packed(cmd) + Packed(blen) + payload;
    assert sdata == [DOLLAR, CHAR_X, dirn] + body && sdata[3..] == body;
    var crc := CrcOfBytes(sdata[3..]);
    sdata := sdata + [Byte(crc)];
    if blen < 0x1_0000 {
      PackedBody(cmd, payload);
    } else {
      TooLong(sdata, Frame(V2, dirn, cmd % 0x1_0000, payload));
    }
  }

  /** No reader delivers a payload longer than its length field can say. */
  lemma TooLong(s: seq<byte>, f: Frame)
    requires |f.payload| >= match f.vers case V1 => 0x100 case _ => 0x1_0000
    requires f.vers != Ltm
    ensures Events(Msp(Log), s) != [Delivered(f)]
  {
    if Events(Msp(Log), s) == [Delivered(f)] {
      var i, j := DeliveredIsFramed(Log, s, 0);
      DeliveredIsChecked(Log, s[i..j], f);
      assert false;
    }
  }

  /** Likewise with one byte for the length. */
  method Msp1Encode(cmd: nat, payload: seq<byte>) returns (sdata: seq<byte>)
    ensures if |payload| < 0x100 then sdata == V1Frame(LESS, cmd % 0x100, payload)
      else Events(Msp(Log), sdata) != [Delivered(Frame(V1, LESS, cmd % 0x100, payload))]
  {
    hide XorOf, Events;
    var blen := |payload|;
    sdata := [DOLLAR, CHAR_M, LESS];
    sdata := sdata + [blen % 0x100, cmd % 0x100];
    if blen > 0 {
      sdata := sdata + payload;
    }
    ghost var head := [DOLLAR, CHAR_M, LESS];
    ghost var body := [blen % 0x100, cmd % 0x100] + payload;
    assert sdata == head + body && sdata[3..] == body;
    var crc := XorOfBytes(sdata[3..]);
    sdata := sdata + [Byte(crc)];
    if blen >= 0x100 {
      TooLong(sdata, Frame(V1, LESS, cmd % 0x100, payload));
    }
  }
}

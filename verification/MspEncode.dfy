/** The flash downloader's encoders, with the widths of Go's integers. */
module MspEncode {
  import opened Crc8
  import opened Framing
  import opened Ints
  import opened MspCodec
  import opened MspFrames
  import opened Options

  /** Go's copy(buf[p:], payload): as many bytes as both sides have. */
  method CopyInto(buf: array<byte>, p: nat, payload: seq<byte>)
    requires p <= buf.Length
    modifies buf
    ensures forall i | 0 <= i < p :: buf[i] == old(buf[i])
    ensures forall i | p <= i < buf.Length :: buf[i] == if i - p < |payload| then payload[i - p] else old(buf[i])
  {
    var n := 0;
    while p + n < buf.Length && n < |payload|
      invariant p + n <= buf.Length && n <= |payload|
      invariant forall i | 0 <= i < buf.Length :: buf[i] == if p <= i < p + n then payload[i - p] else old(buf[i])
    {
      buf[p + n] := payload[n];
      n := n + 1;
    }
  }

  /** The XOR of buf[from:to]. */
  method XorRange(buf: array<byte>, from: nat, end: nat) returns (crc: sum)
    requires from <= end <= buf.Length
    ensures crc == XorOf(buf[from..end])
  {
    crc := 0;
    var j := from;
    while j < end
      invariant from <= j <= end && crc == XorOf(buf[from..j])
    {
      assert buf[from..j + 1] == buf[from..j] + [buf[j]];
      FoldsGrow(0, buf[from..j], buf[j]);
      crc := Xor(crc, buf[j]);
      j := j + 1;
    }
  }

  /** The CRC of buf[from:to]. */
  method CrcRange(buf: array<byte>, from: nat, end: nat) returns (crc: sum)
    requires from <= end <= buf.Length
    ensures crc == CrcOf(0, buf[from..end])
  {
    crc := 0;
    var j := from;
    while j < end
      invariant from <= j <= end && crc == CrcOf(0, buf[from..j])
    {
      assert buf[from..j + 1] == buf[from..j] + [buf[j]];
      FoldsGrow(0, buf[from..j], buf[j]);
      crc := Crc8DvbS2(crc, buf[j]);
      j := j + 1;
    }
  }

  /** A frame is never shorter than the payload it delivers, plus its own bytes. */
  lemma DeliveredFits(d: Dialect, s: seq<byte>, f: Frame)
    ensures Events(Msp(d), s) == [Delivered(f)] ==>
      |f.payload| + (match f.vers case V1 => 6 case V2 => 9 case Ltm => 4) <= |s|
  {
    if Events(Msp(d), s) == [Delivered(f)] {
      var i, j := DeliveredIsFramed(d, s, 0);
      DeliveredIsChecked(d, s[i..j], f);
    }
  }

  /** The length byte is computed modulo 256, and so is the buffer size: a payload arrives if and only if it has at
      most 249 bytes. The result is None where Go panics on an index. */
  method EncodeMspv1(cmd: byte, payload: seq<byte>) returns (r: Option<seq<byte>>)
    ensures |payload| <= 249 ==> r == Some(V1Frame(LESS, cmd, payload))
    ensures |payload| > 249 ==> r.None? || Events(Msp(Log), r.value) != [Delivered(Frame(V1, LESS, cmd, payload))]
  {
    hide CrcOf, XorOf, V2Body, Events, V1Frame, V2Frame;
    var paylen: byte := |payload| % 0x100;
    var size := (6 + paylen as int) % 0x100;
    if size < 5 {
      return None;
    }
    var buf := FillV1(size, paylen, cmd, payload);
    var crc := XorRange(buf, 3, buf.Length);
    ghost var filled := buf[..];
    assert buf[3..buf.Length] == filled[3..];
    buf[(5 + paylen as int) % 0x100] := Byte(crc);
    r := Some(buf[..]);
    if |payload| <= 249 {
      V1Buffer(filled, cmd, payload);
      assert buf[..] == filled[5 + |payload| := Byte(crc)];
    } else {
      DeliveredFits(Log, buf[..], Frame(V1, LESS, cmd, payload));
    }
  }

  method FillV1(size: nat, paylen: byte, cmd: byte, payload: seq<byte>) returns (buf: array<byte>)
    requires size >= 5
    ensures fresh(buf) && buf.Length == size
    ensures buf[0] == DOLLAR && buf[1] == CHAR_M && buf[2] == LESS && buf[3] == paylen && buf[4] == cmd
    ensures forall i | 5 <= i < size :: buf[i] == if paylen > 0 && i - 5 < |payload| then payload[i - 5] else 0
  {
    buf := new byte[size](_ => 0);
    buf[0], buf[1], buf[2], buf[3], buf[4] := DOLLAR, CHAR_M, LESS, paylen, cmd;
    if paylen > 0 {
      CopyInto(buf, 5, payload);
    }
  }

  lemma V1Buffer(b: seq<byte>, cmd: byte, payload: seq<byte>)
    requires |payload| <= 249 && |b| == 6 + |payload|
    requires b[0] == DOLLAR && b[1] == CHAR_M && b[2] == LESS && b[3] == |payload| && b[4] == cmd
    requires b[5 + |payload|] == 0 && forall i | 0 <= i < |payload| :: b[5 + i] == payload[i]
    ensures b[5 + |payload| := Byte(XorOf(b[3..]))] == V1Frame(LESS, cmd, payload)
  {
    var body := [|payload|, cmd] + payload;
    forall i | 0 <= i < |body| ensures b[3 + i] == body[i] {
      if i >= 2 {
        assert b[5 + (i - 2)] == payload[i - 2];
      }
    }
    FrameFromBuffer(b, body, Byte(XorOf(body)));
    assert b[3..] == body + [0];
    FoldsGrow(0, body, 0);
  }

  lemma FrameFromBuffer(b: seq<byte>, body: seq<byte>, ck: byte)
    requires |b| == 4 + |body| && forall i | 0 <= i < |body| :: b[3 + i] == body[i]
    ensures b[3..3 + |body|] == body && b[3..] == body + [b[3 + |body|]]
    ensures b[3 + |body| := ck] == [b[0], b[1], b[2]] + body + [ck]
  {
  }

  lemma V2Buffer(b: seq<byte>, cmd: int, payload: seq<byte>)
    requires |payload| <= 32758 && |b| == 9 + |payload| && 0 <= cmd < 0x1_0000
    requires b[0] == DOLLAR && b[1] == CHAR_X && b[2] == LESS && b[3] == 0
    requires b[4] == cmd % 0x100 && b[5] == cmd / 0x100
    requires b[6] == |payload| % 0x100 && b[7] == |payload| / 0x100
    requires forall i | 0 <= i < |payload| :: b[8 + i] == payload[i]
    ensures b[8 + |payload| := Byte(CrcOf(0, b[3..8 + |payload|]))] == V2Frame(LESS, 0, cmd, payload)
  {
    var body := V2Body(0, cmd, payload);
    forall i | 0 <= i < |body| ensures b[3 + i] == body[i] {
      if i >= 5 {
        assert b[8 + (i - 5)] == payload[i - 5];
      }
    }
    FrameFromBuffer(b, body, Byte(CrcOf(0, body)));
  }

  /** Sizes are computed in 16-bit arithmetic: a payload arrives if and only if it has at most 32758 bytes. The
      result is None where Go panics on a negative size or on an index. */
  method EncodeMsp(cmd: int, payload: seq<byte>) returns (r: Option<seq<byte>>)
    requires 0 <= cmd < 0x1_0000
    ensures |payload| <= 32758 ==> r == Some(V2Frame(LESS, 0, cmd, payload))
    ensures |payload| > 32758 ==> r.None? || Events(Msp(Log), r.value) != [Delivered(Frame(V2, LESS, cmd, payload))]
  {
    hide CrcOf, XorOf, V2Body, Events, V1Frame, V2Frame;
    var paylen := if |payload| > 0 then Int16(|payload|) as int else 0;
    var size := Int16(9 + paylen) as int;
    if size < 8 {
      return None;
    }
    var buf := FillV2(size, paylen, cmd, payload);
    var crc := CrcRange(buf, 3, paylen + 8);
    ghost var filled := buf[..];
    assert buf[3..paylen + 8] == filled[3..paylen + 8];
    buf[8 + paylen] := Byte(crc);
    r := Some(buf[..]);
    if |payload| <= 32758 {
      V2Buffer(filled, cmd, payload);
      assert buf[..] == filled[8 + |payload| := Byte(crc)];
    } else {
      DeliveredFits(Log, buf[..], Frame(V2, LESS, cmd, payload));
    }
  }

  method FillV2(size: nat, paylen: int, cmd: int, payload: seq<byte>) returns (buf: array<byte>)
    requires size >= 8 && 0 <= cmd < 0x1_0000
    ensures fresh(buf) && buf.Length == size
    ensures buf[0] == DOLLAR && buf[1] == CHAR_X && buf[2] == LESS && buf[3] == 0
    ensures buf[4] == cmd % 0x100 && buf[5] == cmd / 0x100
    ensures buf[6] == paylen % 0x1_0000 % 0x100 && buf[7] == paylen % 0x1_0000 / 0x100
    ensures forall i | 8 <= i < size :: buf[i] == if paylen > 0 && i - 8 < |payload| then payload[i - 8] else 0
  {
    buf := new byte[size](_ => 0);
    buf[0], buf[1], buf[2], buf[3] := DOLLAR, CHAR_X, LESS, 0;
    buf[4], buf[5] := cmd % 0x100, cmd / 0x100;
    buf[6], buf[7] := paylen % 0x1_0000 % 0x100, paylen % 0x1_0000 / 0x100;
    if paylen > 0 {
      CopyInto(buf, 8, payload);
    }
  }
}

/** MSP version 1, MSP version 2 and LTM framing, defined on whole byte strings rather than byte by byte. */
module MspFrames {
  import opened Crc8
  import opened Framing

  /** The readers differ in the headers they accept: the log analyser, the flash downloader, the multiplexer. */
  datatype Dialect = Log | Flash | Plex

  const DOLLAR: byte := 0x24
  const CHAR_M: byte := 0x4d
  const CHAR_X: byte := 0x58
  const CHAR_T: byte := 0x54
  const BANG: byte := 0x21
  const LESS: byte := 0x3c
  const GREATER: byte := 0x3e

  datatype Version = V1 | V2 | Ltm

  datatype Frame = Frame(vers: Version, dirn: byte, cmd: nat, payload: seq<byte>)

  /** What a reader makes of one complete frame. */
  datatype Event = Delivered(frame: Frame) | CrcError(cmd: nat)

  predicate IsDirection(d: Dialect, b: byte) {
    b == BANG || b == GREATER || (b == LESS && d != Flash)
  }

  /** Payload sizes of the LTM frames that are known; zero for the others. */
  function LtmSize(b: byte): nat {
    if b == 0x41 then 6 else if b == 0x47 then 14 else if b == 0x4e then 6
    else if b == 0x4f then 14 else if b == 0x53 then 7 else if b == 0x58 then 6 else 0
  }

  function Num16(lo: byte, hi: byte): nat {
    lo + 256 * hi
  }

  /** The bytes that must be at hand before the unit at the front of s is complete, as far as s tells: a single
      byte outside a frame, a broken header, or a frame. */
  function Need(d: Dialect, s: seq<byte>): (n: nat)
    requires s != []
    ensures n >= 1
  {
    if s[0] != DOLLAR then 1
    else if |s| < 2 then 2
    else if s[1] == CHAR_M && d != Plex then
      if |s| < 3 || !IsDirection(d, s[2]) then 3 else if |s| < 4 then 4 else 6 + s[3]
    else if s[1] == CHAR_X then
      if |s| < 3 || !IsDirection(d, s[2]) then 3 else if |s| < 8 then 8 else 9 + Num16(s[6], s[7])
    else if s[1] == CHAR_T && d == Log then
      if |s| < 3 || LtmSize(s[2]) == 0 then 3 else 4 + LtmSize(s[2])
    else 2
  }

  /** What the reader reports for a complete unit. */
  function Report(d: Dialect, s: seq<byte>): seq<Event>
    requires s != [] && |s| == Need(d, s)
  {
    var n := |s| - 1;
    if n < 5 then []
    else if s[1] == CHAR_M then
      if Byte(XorOf(s[3..n])) == s[n] then [Delivered(Frame(V1, s[2], s[4], s[5..n]))] else [CrcError(s[4])]
    else if s[1] == CHAR_X then
      var cmd := Num16(s[4], s[5]);
      if Byte(CrcOf(0, s[3..n])) == s[n] then [Delivered(Frame(V2, s[2], cmd, s[8..n]))] else [CrcError(cmd)]
    else
      if Byte(XorOf(s[3..n])) == s[n] then [Delivered(Frame(Ltm, 0, s[2], s[3..n]))] else [CrcError(s[2])]
  }

  /** The framing of a dialect. */
  function Msp(d: Dialect): Grammar<Event> {
    Grammar(s => if s == [] then 1 else Need(d, s), s => if s == [] || |s| != Need(d, s) then [] else Report(d, s))
  }

  lemma MspIsStable(d: Dialect)
    ensures Stable(Msp(d))
  {
    var g := Msp(d);
    forall s: seq<byte>, t: seq<byte> | s != [] && g.need(s) <= |s| ensures g.need(s + t) == g.need(s) {
      NeedIsStable(d, s, t);
    }
    forall s: seq<byte> | s != [] && g.need(s) <= |s| ensures g.need(s[..g.need(s)]) == g.need(s) {
      NeedIsOwn(d, s);
    }
  }

  lemma NeedIsOwn(d: Dialect, s: seq<byte>)
    requires s != [] && Need(d, s) <= |s|
    ensures Need(d, s[..Need(d, s)]) == Need(d, s)
  {
  }

  lemma NeedIsStable(d: Dialect, s: seq<byte>, t: seq<byte>)
    requires s != [] && Need(d, s) <= |s|
    ensures Need(d, s + t) == Need(d, s)
  {
  }

  /** A byte after which the unit under way still needs more. */
  lemma GoesOn(d: Dialect, tail: seq<byte>, b: byte)
    requires Need(d, tail + [b]) > |tail| + 1
    ensures Events(Msp(d), tail + [b]) == [] && Tail(Msp(d), tail + [b]) == tail + [b]
  {
    MspIsStable(d);
    OneByte(Msp(d), tail, b);
  }

  /** A byte that completes the unit under way, reporting a frame or, for a byte outside a frame or a broken
      header, nothing. */
  lemma Completes(d: Dialect, tail: seq<byte>, b: byte)
    requires Need(d, tail + [b]) == |tail| + 1
    ensures Events(Msp(d), tail + [b]) == Report(d, tail + [b]) && Tail(Msp(d), tail + [b]) == []
  {
    MspIsStable(d);
    OneByte(Msp(d), tail, b);
  }

  /** The checksum accumulated after the direction byte (the type byte, for LTM) of an unfinished frame. */
  function Sum(tail: seq<byte>): sum {
    if |tail| <= 3 then 0
    else
      var c := Sum(tail[..|tail| - 1]);
      if tail[1] == CHAR_X then Crc(c, tail[|tail| - 1]) else Xor(c, tail[|tail| - 1])
  }

  lemma SumGrows(tail: seq<byte>, b: byte)
    requires |tail| >= 3
    ensures Sum(tail + [b]) == if tail[1] == CHAR_X then Crc(Sum(tail), b) else Xor(Sum(tail), b)
  {
    assert (tail + [b])[..|tail|] == tail;
  }

  lemma {:induction false} SumIsChecksum(tail: seq<byte>)
    requires |tail| >= 3
    ensures Sum(tail) == if tail[1] == CHAR_X then CrcOf(0, tail[3..]) else XorOf(tail[3..])
  {
    if |tail| > 3 {
      var s := tail[..|tail| - 1];
      SumIsChecksum(s);
      assert tail[3..][..|tail| - 4] == s[3..];
    }
  }

  /** The frame that `tail`, complete but for its checksum byte, stands for. */
  predicate Describes(tail: seq<byte>, f: Frame) {
    && |tail| >= 3
    && match f.vers
       case V1 => |tail| >= 5 && tail[1] == CHAR_M && f.dirn == tail[2] && f.cmd == tail[4] && f.payload == tail[5..]
       case V2 => |tail| >= 8 && tail[1] == CHAR_X && f.dirn == tail[2] && f.cmd == Num16(tail[4], tail[5]) && f.payload == tail[8..]
       case Ltm => tail[1] == CHAR_T && f.dirn == 0 && f.cmd == tail[2] && f.payload == tail[3..]
  }

  lemma ReportOf(d: Dialect, tail: seq<byte>, b: byte, f: Frame)
    requires |tail| >= 5 && Need(d, tail + [b]) == |tail| + 1 && Describes(tail, f)
    ensures Report(d, tail + [b]) == [if Byte(Sum(tail)) == b then Delivered(f) else CrcError(f.cmd)]
  {
    SumIsChecksum(tail);
    MiddleOf(tail, b, 3);
    match f.vers
    case V1 => ReportV1(d, tail, b);
    case V2 => ReportV2(d, tail, b);
    case Ltm => ReportLtm(d, tail, b);
  }

  lemma ReportV1(d: Dialect, tail: seq<byte>, b: byte)
    requires |tail| >= 5 && Need(d, tail + [b]) == |tail| + 1 && tail[1] == CHAR_M
    ensures Report(d, tail + [b]) ==
      [if Byte(XorOf(tail[3..])) == b then Delivered(Frame(V1, tail[2], tail[4], tail[5..])) else CrcError(tail[4])]
  {
    MiddleOf(tail, b, 3);
    MiddleOf(tail, b, 5);
  }

  lemma ReportV2(d: Dialect, tail: seq<byte>, b: byte)
    requires |tail| >= 8 && Need(d, tail + [b]) == |tail| + 1 && tail[1] == CHAR_X
    ensures Report(d, tail + [b]) ==
      [if Byte(CrcOf(0, tail[3..])) == b then Delivered(Frame(V2, tail[2], Num16(tail[4], tail[5]), tail[8..]))
       else CrcError(Num16(tail[4], tail[5]))]
  {
    MiddleOf(tail, b, 3);
    MiddleOf(tail, b, 8);
  }

  lemma ReportLtm(d: Dialect, tail: seq<byte>, b: byte)
    requires |tail| >= 5 && Need(d, tail + [b]) == |tail| + 1 && tail[1] == CHAR_T
    ensures Report(d, tail + [b]) ==
      [if Byte(XorOf(tail[3..])) == b then Delivered(Frame(Ltm, 0, tail[2], tail[3..])) else CrcError(tail[2])]
  {
    MiddleOf(tail, b, 3);
  }

  lemma MiddleOf(tail: seq<byte>, b: byte, p: nat)
    requires p <= |tail|
    ensures (tail + [b])[p..|tail|] == tail[p..]
  {
  }

  /** A reader that has followed s and takes a byte that leaves the unit under way unfinished. */
  lemma ReadsOn(d: Dialect, s: seq<byte>, t: seq<byte>, b: byte)
    requires t == Tail(Msp(d), s) && Need(d, t + [b]) > |t| + 1
    ensures Tail(Msp(d), s + [b]) == t + [b] && Events(Msp(d), s + [b]) == Events(Msp(d), s)
  {
    MspIsStable(d);
    EventsContinue(Msp(d), s, [b]);
    GoesOn(d, t, b);
  }

  /** A reader that has followed s and takes a byte that completes a unit. */
  lemma ReadsUnit(d: Dialect, s: seq<byte>, t: seq<byte>, b: byte)
    requires t == Tail(Msp(d), s) && Need(d, t + [b]) == |t| + 1
    ensures Tail(Msp(d), s + [b]) == []
    ensures Events(Msp(d), s + [b]) == Events(Msp(d), s) + Report(d, t + [b])
  {
    MspIsStable(d);
    EventsContinue(Msp(d), s, [b]);
    Completes(d, t, b);
  }
}

/** The byte-at-a-time readers of the log analyser and the flash downloader. They are one state machine; only the
    log analyser takes requests ('<') and LTM ("$T"). */
module MspReader {
  import opened Crc8
  import opened Framing
  import opened MspFrames

  datatype State =
    | INIT | M | DIRN | LEN | CMD | DATA | CRC
    | L_FRAME | L_DATA | L_CRC
    | X_HEADER2 | X_FLAGS | X_ID1 | X_ID2 | X_LEN1 | X_LEN2 | X_DATA | X_CHECKSUM

  /** A message as the readers hand it on: all fields as they stand, with the data of an earlier message when len is 0. */
  datatype Message = Message(ok: bool, vers: Version, dirn: byte, cmd: nat, len: nat, data: seq<byte>)

  /** The frames among the events. */
  function FramesIn(out: seq<Event>): seq<Frame> {
    if out == [] then []
    else
      var e := out[|out| - 1];
      FramesIn(out[..|out| - 1]) + if e.Delivered? then [e.frame] else []
  }

  /** The message says what the frame says, and is ok unless the frame is an error reply or LTM. */
  predicate Tells(m: Message, f: Frame) {
    && m.vers == f.vers && m.cmd == f.cmd && m.len == |f.payload| && (m.len > 0 ==> m.data == f.payload)
    && m.ok == (f.vers != Ltm && f.dirn != BANG) && (f.vers != Ltm ==> m.dirn == f.dirn)
  }

  /** The messages are those of the frames delivered, in order. */
  predicate Told(sent: seq<Message>, out: seq<Event>) {
    |sent| == |FramesIn(out)| && forall i | 0 <= i < |sent| :: Tells(sent[i], FramesIn(out)[i])
  }

  lemma ToldGrows(sent: seq<Message>, out: seq<Event>, m: Message, e: Event)
    requires Told(sent, out)
    ensures e.CrcError? ==> Told(sent, out + [e])
    ensures e.Delivered? && Tells(m, e.frame) ==> Told(sent + [m], out + [e])
  {
    assert (out + [e])[..|out|] == out;
  }

  class Reader {
    const d: Dialect
    var pstate: State
    var crc: sum
    var count: nat
    // the message being read
    var ok: bool
    var vers: Version
    var dirn: byte
    var cmd: nat
    var len: nat
    var data: seq<byte>
    // what has been printed, as records
    var out: seq<Event>
    // what has been handed on
    var sent: seq<Message>
    // the bytes since the '$' that opened the frame under way
    ghost var tail: seq<byte>
    // all the bytes fed since the start
    ghost var fed: seq<byte>

    constructor (d: Dialect)
      requires d != Plex
      ensures Followed() && fed == [] && this.d == d
    {
      this.d := d;
      pstate := INIT;
      crc, count, ok, vers, dirn, cmd, len := 0, 0, false, V1, 0, 0, 0;
      data := [];
      out, sent, tail, fed := [], [], [], [];
    }

    /** The frame under way has been opened by '$' and the byte c. */
    ghost predicate Opened(c: byte)
      reads this
    {
      && |tail| >= 2 && tail[0] == DOLLAR && tail[1] == c && (|tail| == 2 || c == CHAR_T ==> !ok)
      && vers == if c == CHAR_M then V1 else if c == CHAR_X then V2 else Ltm
    }

    ghost predicate Directed(c: byte)
      reads this
    {
      Opened(c) && |tail| >= 3 && IsDirection(d, tail[2]) && dirn == tail[2] && ok == (dirn != BANG)
    }

    ghost predicate SizedV1()
      reads this
    {
      Directed(CHAR_M) && |tail| >= 5 && len == tail[3] && cmd == tail[4] && crc == Sum(tail)
    }

    ghost predicate SizedLtm()
      reads this
    {
      d == Log && Opened(CHAR_T) && |tail| >= 3 && len == LtmSize(tail[2]) > 0 && cmd == tail[2] && crc == Sum(tail)
    }

    ghost predicate SizedV2()
      reads this
    {
      Directed(CHAR_X) && |tail| >= 8 && cmd == Num16(tail[4], tail[5]) && len == Num16(tail[6], tail[7]) && crc == Sum(tail)
    }

    /** The payload, which starts at position p of the frame, is in the buffer as far as it has been read. */
    ghost predicate Holding(p: nat)
      reads this
    {
      |tail| == p + count && count <= len == |data| && data[..count] == tail[p..]
    }

    /** All of the payload has been read. */
    ghost predicate Full(p: nat)
      reads this
    {
      |tail| == p + len && (len > 0 ==> Holding(p))
    }

    /** The fields hold what the bytes of the frame under way determine. */
    ghost predicate Valid()
      reads this
    {
      d != Plex && Told(sent, out) && match pstate
      case INIT => tail == []
      case M => |tail| == 1 && tail[0] == DOLLAR && !ok
      case DIRN => |tail| == 2 && Opened(CHAR_M)
      case LEN => |tail| == 3 && Directed(CHAR_M)
      case CMD => |tail| == 4 && Directed(CHAR_M) && len == tail[3] && crc == Sum(tail)
      case DATA => SizedV1() && Holding(5) && count < len
      case CRC => SizedV1() && Full(5)
      case L_FRAME => d == Log && |tail| == 2 && Opened(CHAR_T)
      case L_DATA => SizedLtm() && Holding(3) && count < len
      case L_CRC => SizedLtm() && Full(3)
      case X_HEADER2 => |tail| == 2 && Opened(CHAR_X)
      case X_FLAGS => |tail| == 3 && Directed(CHAR_X)
      case X_ID1 => |tail| == 4 && Directed(CHAR_X) && crc == Sum(tail)
      case X_ID2 => |tail| == 5 && Directed(CHAR_X) && crc == Sum(tail) && cmd == tail[4]
      case X_LEN1 => |tail| == 6 && Directed(CHAR_X) && crc == Sum(tail) && cmd == Num16(tail[4], tail[5])
      case X_LEN2 =>
        |tail| == 7 && Directed(CHAR_X) && crc == Sum(tail) && cmd == Num16(tail[4], tail[5]) && len == tail[6]
      case X_DATA => SizedV2() && Holding(8) && count < len
      case X_CHECKSUM => SizedV2() && Full(8)
    }

    /** Byte b has been added to the frame under way. */
    twostate predicate Passed(b: byte)
      reads this
    {
      && tail == old(tail) + [b] && fed == old(fed) + [b] && Need(d, tail) > |tail|
      && out == old(out) && sent == old(sent)
    }

    /** Byte b has completed a unit, whose report has been printed. */
    twostate predicate Closed(b: byte)
      reads this
    {
      && tail == [] && fed == old(fed) + [b] && Need(d, old(tail) + [b]) == |old(tail)| + 1
      && out == old(out) + Report(d, old(tail) + [b])
    }

    /** The reader has followed all the bytes fed to it: the unfinished end is at hand, the events are out. */
    ghost predicate Followed()
      reads this
    {
      Valid() && tail == Tail(Msp(d), fed) && out == Events(Msp(d), fed)
    }

    /** The source's loop over one chunk of input. */
    method Parse(inp: seq<byte>)
      requires Followed()
      modifies this
      ensures Followed() && fed == old(fed) + inp
    {
      WholeOf(fed, inp);
      for i := 0 to |inp|
        invariant Followed() && fed == old(fed) + inp[..i]
      {
        NextOf(old(fed), inp, i);
        Take(inp[i]);
      }
    }

    method Take(b: byte)
      requires Followed()
      modifies this
      ensures Followed() && fed == old(fed) + [b]
    {
      hide Told, Report, Sum, Need, Tail, Events, Valid;
      ghost var s, t := fed, tail;
      Feed(b);
      if tail == [] {
        ReadsUnit(d, s, t, b);
      } else {
        ReadsOn(d, s, t, b);
      }
    }

    /** The switch of the source's loop. */
    method Feed(b: byte)
      requires Valid()
      modifies this
      ensures Valid() && (Passed(b) || Closed(b))
    {
      hide Told, Sum, Report, Bits, IsDirection, SizedV1, SizedV2, SizedLtm, Holding, Full;
      match pstate {
        case INIT =>
          if b == DOLLAR {
            pstate, ok, len, cmd := M, false, 0, 0;
            GoOn(b);
          } else {
            Restart(b);
          }
        case M =>
          if b == CHAR_M {
            vers, pstate := V1, DIRN;
            GoOn(b);
          } else if b == CHAR_X {
            vers, pstate := V2, X_HEADER2;
            GoOn(b);
          } else if b == CHAR_T && d == Log {
            vers, pstate := Ltm, L_FRAME;
            GoOn(b);
          } else {
            Restart(b);
          }
        case DIRN => Direction(b);
        case X_HEADER2 => Direction(b);
        case L_FRAME => LtmType(b);
        case LEN => Length(b);
        case CMD => Command(b);
        case X_FLAGS => Flags(b);
        case X_ID1 => Id1(b);
        case X_ID2 => Id2(b);
        case X_LEN1 => Len1(b);
        case X_LEN2 => Len2(b);
        case DATA => Data(b);
        case L_DATA => LtmData(b);
        case X_DATA => XData(b);
        case CRC => Checksum(b, 5);
        case L_CRC => Checksum(b, 3);
        case X_CHECKSUM => Checksum(b, 8);
      }
    }

    ghost method GoOn(b: byte)
      requires Need(d, tail + [b]) > |tail| + 1
      modifies this`tail, this`fed
      ensures Passed(b)
    {
      tail, fed := tail + [b], fed + [b];
    }

    /** Back to the initial state after a byte outside a frame or a broken header. */
    method Restart(b: byte)
      requires d != Plex && Told(sent, out) && Need(d, tail + [b]) == |tail| + 1 && |tail| < 5
      modifies this`tail, this`fed, this`pstate
      ensures Valid() && Closed(b)
    {
      hide Told;
      pstate := INIT;
      tail, fed := [], fed + [b];
    }

    method Direction(b: byte)
      requires Valid() && (pstate == DIRN || pstate == X_HEADER2)
      modifies this
      ensures Valid() && (Passed(b) || Closed(b))
    {
      hide Told, Sum, Report, Bits;
      dirn := b;
      if b == BANG || b == GREATER || (b == LESS && d == Log) {
        pstate := if pstate == DIRN then LEN else X_FLAGS;
        if b != BANG {
          ok := true;
        }
        GoOn(b);
      } else {
        Restart(b);
      }
    }

    method LtmType(b: byte)
      requires Valid() && pstate == L_FRAME
      modifies this
      ensures Valid() && (Passed(b) || Closed(b))
    {
      hide Told, Need, Sum, Report, Bits, LtmSize, SizedV1, SizedV2, Directed;
      if LtmSize(b) > 0 {
        LtmKnown(b);
        pstate, count := L_DATA, 0;
        data := Zeros(len);
      } else {
        LtmUnknown(b);
      }
    }

    method LtmKnown(b: byte)
      requires Valid() && pstate == L_FRAME && LtmSize(b) > 0
      modifies this
      ensures SizedLtm() && |tail| == 3 && Told(sent, out) && Passed(b)
    {
      hide Told, Report, Bits, LtmSize, SizedV1, SizedV2, Directed;
      len, cmd, crc := LtmSize(b), b, 0;
      GoOn(b);
    }

    method LtmUnknown(b: byte)
      requires Valid() && pstate == L_FRAME && LtmSize(b) == 0
      modifies this
      ensures Valid() && Closed(b)
    {
      hide Told, Report, Bits, LtmSize, SizedV1, SizedV2, Directed;
      len, cmd := 0, b;
      Restart(b);
    }

    method Length(b: byte)
      requires Valid() && pstate == LEN
      modifies this
      ensures Valid() && Passed(b)
    {
      hide Told, Report;
      SumGrows(tail, b);
      len, crc, pstate := b, Bits(b), CMD;
      GoOn(b);
    }

    method Command(b: byte)
      requires Valid() && pstate == CMD
      modifies this
      ensures Valid() && Passed(b)
    {
      hide Told, Need, Sum, Report, Bits;
      CommandKnown(b);
      if len == 0 {
        pstate := CRC;
      } else {
        data := Zeros(len);
        pstate, count := DATA, 0;
      }
    }

    method CommandKnown(b: byte)
      requires Valid() && pstate == CMD
      modifies this
      ensures SizedV1() && |tail| == 5 && Passed(b)
    {
      hide Told, Sum, Report, Bits, Crc;
      SumGrows(tail, b);
      cmd, crc := b, Xor(crc, b);
      GoOn(b);
    }

    method Flags(b: byte)
      requires Valid() && pstate == X_FLAGS
      modifies this
      ensures Valid() && Passed(b)
    {
      hide Told, Report;
      SumGrows(tail, b);
      crc := Crc8DvbS2(0, b);
      pstate := X_ID1;
      GoOn(b);
    }

    method Id1(b: byte)
      requires Valid() && pstate == X_ID1
      modifies this
      ensures Valid() && Passed(b)
    {
      hide Told, Sum, Report, Bits, Crc;
      SumGrows(tail, b);
      crc := Crc8DvbS2(crc, b);
      cmd, pstate := b, X_ID2;
      GoOn(b);
    }

    method Id2(b: byte)
      requires Valid() && pstate == X_ID2
      modifies this
      ensures Valid() && Passed(b)
    {
      hide Told, Sum, Report, Bits, Crc;
      SumGrows(tail, b);
      crc := Crc8DvbS2(crc, b);
      cmd, pstate := cmd + 256 * b, X_LEN1;
      GoOn(b);
    }

    method Len1(b: byte)
      requires Valid() && pstate == X_LEN1
      modifies this
      ensures Valid() && Passed(b)
    {
      hide Told, Sum, Report, Bits, Crc;
      SumGrows(tail, b);
      crc := Crc8DvbS2(crc, b);
      len, pstate := b, X_LEN2;
      GoOn(b);
    }

    method Len2(b: byte)
      requires Valid() && pstate == X_LEN2
      modifies this
      ensures Valid() && Passed(b)
    {
      hide Told, Need, Sum, Report, Bits;
      SizeKnown(b);
      if len > 0 {
        data := Zeros(len);
        pstate, count := X_DATA, 0;
      } else {
        pstate := X_CHECKSUM;
      }
    }

    method SizeKnown(b: byte)
      requires Valid() && pstate == X_LEN2
      modifies this
      ensures SizedV2() && |tail| == 8 && Passed(b)
    {
      hide Told, Sum, Report, Bits, Crc;
      SumGrows(tail, b);
      crc := Crc8DvbS2(crc, b);
      len := len + 256 * b;
      GoOn(b);
    }

    /** Puts a payload byte into the buffer; the payload starts at position p of the frame. */
    method Store(b: byte, ghost p: nat)
      requires Holding(p) && count < len
      modifies this`data, this`count
      ensures count == old(count) + 1 && |data| == len && data[..count] == (tail + [b])[p..]
    {
      BufferGrows(data, count, tail, p, b);
      data := data[count := b];
      count := count + 1;
    }

    method Data(b: byte)
      requires Valid() && pstate == DATA
      modifies this
      ensures Valid() && Passed(b)
    {
      hide Told, Need, Sum, Report, Bits, SizedV2, SizedLtm;
      V1Store(b);
      if count == len {
        pstate := CRC;
      }
    }

    method V1Store(b: byte)
      requires Valid() && pstate == DATA
      modifies this
      ensures SizedV1() && Holding(5) && pstate == DATA && Passed(b)
    {
      hide Told, Sum, Report, Bits, Crc, SizedV2, SizedLtm;
      SumGrows(tail, b);
      crc := Xor(crc, b);
      Store(b, 5);
      GoOn(b);
    }

    method LtmData(b: byte)
      requires Valid() && pstate == L_DATA
      modifies this
      ensures Valid() && Passed(b)
    {
      hide Told, Need, Sum, Report, Bits, SizedV1, SizedV2;
      LtmStore(b);
      if count == len {
        pstate := L_CRC;
      }
    }

    method LtmStore(b: byte)
      requires Valid() && pstate == L_DATA
      modifies this
      ensures SizedLtm() && Holding(3) && pstate == L_DATA && Passed(b)
    {
      hide Told, Sum, Report, Bits, Crc, SizedV1, SizedV2;
      SumGrows(tail, b);
      crc := Xor(crc, b);
      Store(b, 3);
      GoOn(b);
    }

    method XData(b: byte)
      requires Valid() && pstate == X_DATA
      modifies this
      ensures Valid() && Passed(b)
    {
      hide Told, Need, Sum, Report, Bits;
      XStore(b);
      if count == len {
        pstate := X_CHECKSUM;
      }
    }

    method XStore(b: byte)
      requires Valid() && pstate == X_DATA
      modifies this
      ensures SizedV2() && Holding(8) && pstate == X_DATA && Passed(b)
    {
      hide Told, Sum, Report, Bits, Crc;
      SumGrows(tail, b);
      crc := Crc8DvbS2(crc, b);
      Store(b, 8);
      GoOn(b);
    }

    /** What the checksum byte makes of the frame under way. */
    lemma Verdict(b: byte, p: nat, f: Frame)
      requires Valid() && ((pstate == CRC && p == 5) || (pstate == L_CRC && p == 3) || (pstate == X_CHECKSUM && p == 8))
      requires len <= |data| && f == Frame(vers, if vers == Ltm then 0 else dirn, cmd, data[..len])
      ensures Need(d, tail + [b]) == |tail| + 1 && Tells(Message(ok, vers, dirn, cmd, len, data), f)
      ensures Report(d, tail + [b]) == [if Byte(crc) == b then Delivered(f) else CrcError(cmd)]
    {
      hide Told, Sum, Report;
      assert data[..len] == tail[p..];
      ReportOf(d, tail, b, f);
    }

    /** Prints the message read, or the checksum error, and starts over. */
    method Checksum(b: byte, ghost p: nat)
      requires Valid() && ((pstate == CRC && p == 5) || (pstate == L_CRC && p == 3) || (pstate == X_CHECKSUM && p == 8))
      modifies this
      ensures Valid() && Closed(b)
    {
      hide Told, Tells, Sum, Report, Need;
      assert len <= |data|;
      var f := Frame(vers, if vers == Ltm then 0 else dirn, cmd, data[..len]);
      var m := Message(ok, vers, dirn, cmd, len, data);
      Verdict(b, p, f);
      ToldGrows(sent, out, m, if Byte(crc) == b then Delivered(f) else CrcError(cmd));
      if Byte(crc) != b {
        out := out + [CrcError(cmd)];
      } else {
        out, sent := out + [Delivered(f)], sent + [m];
      }
      pstate := INIT;
      tail, fed := [], fed + [b];
    }
  }
}

/** The encoders of the flash downloader against the readers: what arrives is what was sent, and only that. */
module MspCodec {
  import opened Crc8
  import opened Framing
  import opened MspFrames
  import MspReader

  // ---------- well-formed frames ----------

  function V1Frame(dirn: byte, cmd: byte, payload: seq<byte>): seq<byte>
    requires |payload| < 0x100
  {
    var body := [|payload|, cmd] + payload;
    [DOLLAR, CHAR_M, dirn] + body + [Byte(XorOf(body))]
  }

  function V2Body(flags: byte, cmd: nat, payload: seq<byte>): seq<byte>
    requires cmd < 0x1_0000 && |payload| < 0x1_0000
  {
    [flags, cmd % 0x100, cmd / 0x100, |payload| % 0x100, |payload| / 0x100] + payload
  }

  function V2Frame(dirn: byte, flags: byte, cmd: nat, payload: seq<byte>): seq<byte>
    requires cmd < 0x1_0000 && |payload| < 0x1_0000
  {
    [DOLLAR, CHAR_X, dirn] + V2Body(flags, cmd, payload) + [Byte(CrcOf(0, V2Body(flags, cmd, payload)))]
  }

  function LtmFrame(kind: byte, payload: seq<byte>): seq<byte> {
    [DOLLAR, CHAR_T, kind] + payload + [Byte(XorOf(payload))]
  }

  lemma V1FrameArrives(d: Dialect, dirn: byte, cmd: byte, payload: seq<byte>)
    requires d != Plex && IsDirection(d, dirn) && |payload| < 0x100
    ensures var u := V1Frame(dirn, cmd, payload);
      Need(d, u) == |u| && Report(d, u) == [Delivered(Frame(V1, dirn, cmd, payload))]
  {
    var body := [|payload|, cmd] + payload;
    var tail := [DOLLAR, CHAR_M, dirn] + body;
    assert tail[3..] == body && tail[5..] == payload;
    ReportV1(d, tail, Byte(XorOf(body)));
  }

  lemma Num16Of(n: nat)
    requires n < 0x1_0000
    ensures Num16(n % 0x100, n / 0x100) == n
  {
  }

  lemma V2FrameArrives(d: Dialect, dirn: byte, flags: byte, cmd: nat, payload: seq<byte>)
    requires IsDirection(d, dirn) && cmd < 0x1_0000 && |payload| < 0x1_0000
    ensures var u := V2Frame(dirn, flags, cmd, payload);
      Need(d, u) == |u| && Report(d, u) == [Delivered(Frame(V2, dirn, cmd, payload))]
  {
    hide Report, CrcOf, Num16;
    var body := V2Body(flags, cmd, payload);
    var tail := [DOLLAR, CHAR_X, dirn] + body;
    assert tail[3..] == body && tail[8..] == payload;
    Num16Of(cmd);
    Num16Of(|payload|);
    ReportV2(d, tail, Byte(CrcOf(0, body)));
  }

  lemma LtmFrameArrives(kind: byte, payload: seq<byte>)
    requires |payload| == LtmSize(kind) > 0
    ensures var u := LtmFrame(kind, payload);
      Need(Log, u) == |u| && Report(Log, u) == [Delivered(Frame(Ltm, 0, kind, payload))]
  {
    var tail := [DOLLAR, CHAR_T, kind] + payload;
    assert tail[3..] == payload;
    ReportLtm(Log, tail, Byte(XorOf(payload)));
  }

  // ---------- whole streams ----------

  /** A stretch of a log: noise without '$', or a frame of one of the three kinds. */
  datatype Piece =
    | Noise(bytes: seq<byte>)
    | MspV1(dirn: byte, cmd: nat, payload: seq<byte>)
    | MspV2(dirn: byte, flags: byte, cmd: nat, payload: seq<byte>)
    | LtmPiece(kind: byte, payload: seq<byte>)

  predicate Sendable(d: Dialect, p: Piece) {
    match p
    case Noise(bytes) => DOLLAR !in bytes
    case MspV1(dirn, cmd, payload) => d != Plex && IsDirection(d, dirn) && cmd < 0x100 && |payload| < 0x100
    case MspV2(dirn, _, cmd, payload) => IsDirection(d, dirn) && cmd < 0x1_0000 && |payload| < 0x1_0000
    case LtmPiece(kind, payload) => d == Log && |payload| == LtmSize(kind) > 0
  }

  function BytesOf(d: Dialect, p: Piece): seq<byte>
    requires Sendable(d, p)
  {
    match p
    case Noise(bytes) => bytes
    case MspV1(dirn, cmd, payload) => V1Frame(dirn, cmd, payload)
    case MspV2(dirn, flags, cmd, payload) => V2Frame(dirn, flags, cmd, payload)
    case LtmPiece(kind, payload) => LtmFrame(kind, payload)
  }

  function FramesOf(p: Piece): seq<Event> {
    match p
    case Noise(_) => []
    case MspV1(dirn, cmd, payload) => [Delivered(Frame(V1, dirn, cmd, payload))]
    case MspV2(dirn, _, cmd, payload) => [Delivered(Frame(V2, dirn, cmd, payload))]
    case LtmPiece(kind, payload) => [Delivered(Frame(Ltm, 0, kind, payload))]
  }

  function Wire(d: Dialect, ps: seq<Piece>): seq<byte>
    requires forall p | p in ps :: Sendable(d, p)
  {
    if ps == [] then [] else BytesOf(d, ps[0]) + Wire(d, ps[1..])
  }

  function Sent(ps: seq<Piece>): seq<Event> {
    if ps == [] then [] else FramesOf(ps[0]) + Sent(ps[1..])
  }

  lemma PieceFirst(d: Dialect, p: Piece, rest: seq<byte>)
    requires Sendable(d, p)
    ensures Events(Msp(d), BytesOf(d, p) + rest) == FramesOf(p) + Events(Msp(d), rest)
    ensures Tail(Msp(d), BytesOf(d, p) + rest) == Tail(Msp(d), rest)
  {
    match p
    case Noise(bytes) =>
      MspIsStable(d);
      forall i | 0 <= i < |bytes| ensures Msp(d).need([bytes[i]]) == 1 && Msp(d).report([bytes[i]]) == [] {
        assert bytes[i] in bytes;
      }
      NoiseIsSkipped(Msp(d), bytes, rest);
    case MspV1(dirn, cmd, payload) =>
      V1FrameArrives(d, dirn, cmd, payload);
      FrameFirst(d, BytesOf(d, p), rest);
    case MspV2(dirn, flags, cmd, payload) =>
      V2FrameArrives(d, dirn, flags, cmd, payload);
      FrameFirst(d, BytesOf(d, p), rest);
    case LtmPiece(kind, payload) =>
      LtmFrameArrives(kind, payload);
      FrameFirst(d, BytesOf(d, p), rest);
  }

  lemma FrameFirst(d: Dialect, u: seq<byte>, rest: seq<byte>)
    requires u != [] && Need(d, u) == |u|
    ensures Events(Msp(d), u + rest) == Report(d, u) + Events(Msp(d), rest)
    ensures Tail(Msp(d), u + rest) == Tail(Msp(d), rest)
  {
    MspIsStable(d);
    UnitFirst(Msp(d), u, rest);
  }

  /** Any frames with any noise between them arrive exactly as sent, in order, and leave nothing unfinished.
      A reader delivers the events of the bytes it has been fed, so this holds for every cutting into chunks. */
  lemma {:induction false} StreamArrives(d: Dialect, ps: seq<Piece>)
    requires forall p | p in ps :: Sendable(d, p)
    ensures Events(Msp(d), Wire(d, ps)) == Sent(ps) && Tail(Msp(d), Wire(d, ps)) == []
  {
    if ps != [] {
      StreamArrives(d, ps[1..]);
      PieceFirst(d, ps[0], Wire(d, ps[1..]));
    }
  }

  /** A reader fed such a stream, in any chunks, has handed on a message for each frame, in order, and waits for '$'. */
  lemma ValidStreamIsTold(r: MspReader.Reader, ps: seq<Piece>)
    requires r.Followed() && (forall p | p in ps :: Sendable(r.d, p)) && r.fed == Wire(r.d, ps)
    ensures r.out == Sent(ps) && MspReader.Told(r.sent, Sent(ps)) && r.pstate == MspReader.INIT
  {
    hide MspReader.Told, Wire, Sent;
    StreamArrives(r.d, ps);
  }

  lemma OneReport(d: Dialect, u: seq<byte>)
    requires u != [] && |u| == Need(d, u)
    ensures |Report(d, u)| <= 1
  {
    hide Need;
  }

  /** Everything delivered is framed: it is the report of a unit that stands in the stream. */
  lemma DeliveredIsFramed(d: Dialect, s: seq<byte>, k: nat) returns (i: nat, j: nat)
    requires k < |Events(Msp(d), s)|
    ensures i < j <= |s| && Need(d, s[i..j]) == j - i && Report(d, s[i..j]) == [Events(Msp(d), s)[k]]
  {
    hide Events, Need;
    MspIsStable(d);
    i, j := EventIsReported(Msp(d), s, k);
    OneReport(d, s[i..j]);
  }

  /** Every reader takes replies and errors, '>' and '!'; the downloader takes no requests, '<'. In just those directions a
      frame, alone on the wire, is delivered as sent. */
  lemma DirectionsExactly(d: Dialect, dirn: byte, flags: byte, cmd: nat, payload: seq<byte>)
    requires cmd < 0x1_0000 && |payload| < 0x1_0000
    ensures Events(Msp(d), V2Frame(dirn, flags, cmd, payload)) == [Delivered(Frame(V2, dirn, cmd, payload))]
       <==> dirn == 0x21 || dirn == 0x3e || (dirn == 0x3c && d != Flash)
  {
    hide Events, V2Frame, Need, Report, MspReader.FramesIn;
    var u := V2Frame(dirn, flags, cmd, payload);
    if IsDirection(d, dirn) {
      V2FrameArrives(d, dirn, flags, cmd, payload);
      FrameFirst(d, u, []);
      assert u + [] == u && Events(Msp(d), []) == [] by { NothingFirst(d); }
    } else if Events(Msp(d), u) == [Delivered(Frame(V2, dirn, cmd, payload))] {
      var i, j := DeliveredIsFramed(d, u, 0);
      DeliveredIsDirected(d, u[i..j], Frame(V2, dirn, cmd, payload));
    }
  }

  lemma NothingFirst(d: Dialect)
    ensures Events(Msp(d), []) == []
  {
  }

  lemma DeliveredIsDirected(d: Dialect, u: seq<byte>, f: Frame)
    requires u != [] && |u| == Need(d, u) && Report(d, u) == [Delivered(f)] && f.vers != Ltm
    ensures IsDirection(d, f.dirn)
  {
    hide XorOf, CrcOf;
  }

  /** The whole length of an LTM frame by its letter, "$T" and the checksum included; after any other letter there is no
      frame. */
  lemma LtmLengths(kind: byte, s: seq<byte>)
    requires |s| >= 3 && s[0] == DOLLAR && s[1] == CHAR_T && s[2] == kind
    ensures Need(Log, s) ==
      if kind == 'G' as int then 18 else if kind == 'O' as int then 18 else if kind == 'S' as int then 11
      else if kind in {'A' as int, 'N' as int, 'X' as int} then 10 else 3
  {
  }

  /** A frame reported as delivered has the payload and the checksum that its own bytes state. */
  lemma DeliveredIsChecked(d: Dialect, u: seq<byte>, f: Frame)
    requires u != [] && Need(d, u) == |u| && Report(d, u) == [Delivered(f)]
    ensures match f.vers
      case V1 => |u| >= 6 && |f.payload| < 0x100 && u == V1Frame(f.dirn, u[4], f.payload) && f.cmd == u[4]
      case V2 => |u| >= 9 && f.cmd < 0x1_0000 && |f.payload| < 0x1_0000 && u == V2Frame(f.dirn, u[3], f.cmd, f.payload)
      case Ltm => |u| >= 6 && u == LtmFrame(u[2], f.payload) && f.cmd == u[2]
  {
    if u[1] == CHAR_M {
      CheckedV1(u, |u| - 1);
    } else if u[1] == CHAR_X {
      CheckedV2(u, |u| - 1);
    } else {
      CheckedLtm(u, |u| - 1);
    }
  }

  lemma FrameParts(u: seq<byte>, n: nat)
    requires |u| == n + 1 && n >= 3
    ensures u == [u[0], u[1], u[2]] + u[3..n] + [u[n]]
  {
  }

  lemma CheckedV1(u: seq<byte>, n: nat)
    requires |u| == n + 1 && n >= 5 && n - 5 == u[3]
    requires u[0] == DOLLAR && u[1] == CHAR_M && Byte(XorOf(u[3..n])) == u[n]
    ensures u == V1Frame(u[2], u[4], u[5..n])
  {
    FrameParts(u, n);
    assert u[3..n] == [|u[5..n]|, u[4]] + u[5..n];
  }

  lemma CheckedLtm(u: seq<byte>, n: nat)
    requires |u| == n + 1 && n >= 3 && u[0] == DOLLAR && u[1] == CHAR_T && Byte(XorOf(u[3..n])) == u[n]
    ensures u == LtmFrame(u[2], u[3..n])
  {
    FrameParts(u, n);
  }

  lemma CheckedV2(u: seq<byte>, n: nat)
    requires |u| == n + 1 && n >= 8 && n == 8 + Num16(u[6], u[7]) && u[0] == DOLLAR && u[1] == CHAR_X
    requires Byte(CrcOf(0, u[3..n])) == u[n]
    ensures Num16(u[4], u[5]) < 0x1_0000 && u == V2Frame(u[2], u[3], Num16(u[4], u[5]), u[8..n])
  {
    FrameParts(u, n);
    BodyParts(u, n);
  }

  lemma BodyParts(u: seq<byte>, n: nat)
    requires |u| == n + 1 && n >= 8 && n == 8 + Num16(u[6], u[7])
    ensures Num16(u[4], u[5]) < 0x1_0000 && |u[8..n]| < 0x1_0000
    ensures u[3..n] == V2Body(u[3], Num16(u[4], u[5]), u[8..n])
  {
    BytesOfNum16(u[4], u[5]);
    BytesOfNum16(u[6], u[7]);
    assert u[3..n] == [u[3], u[4], u[5], u[6], u[7]] + u[8..n];
  }

  lemma BytesOfNum16(lo: byte, hi: byte)
    ensures Num16(lo, hi) < 0x1_0000 && Num16(lo, hi) % 0x100 == lo && Num16(lo, hi) / 0x100 == hi
  {
  }
}

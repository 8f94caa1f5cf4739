/** Streams of MAVLink frames against the reader: what is counted and shown is what was sent. */
module MavCodec {
  import opened Framing
  import opened Ints
  import opened MavCrc
  import opened MavFrames
  import opened MavReader

  // ---------- well-formed frames ----------

  function Value(w: word): nat {
    if w == [] then 0 else (if w[0] then 1 else 0) + 2 * Value(w[1..])
  }

  lemma {:induction false} ValueReturns(w: word)
    ensures Value(w) < Power2(|w|) && BitsOf(Value(w), w) == w
  {
    if w != [] {
      ValueReturns(w[1..]);
      assert Value(w) / 2 == Value(w[1..]) && (Value(w) % 2 == 1) == w[0];
    }
  }

  lemma {:induction false} LikeIsSize(n: nat, a: word, b: word)
    requires |a| == |b|
    ensures BitsOf(n, a) == BitsOf(n, b)
  {
    if a != [] {
      LikeIsSize(n / 2, a[1..], b[1..]);
    }
  }

  /** The register starts at 0xffff. */
  lemma StartsFull()
    ensures Value(Ones()) == 0xffff
  {
    FullIs(Ones(), 16);
    assert Power2(4) == 0x10 && Power2(8) == 0x100 && Power2(12) == 0x1000;
    assert Power2(16) == 0x1_0000;
  }

  lemma {:induction false} FullIs(w: word, n: nat)
    requires |w| == n && forall i | 0 <= i < n :: w[i]
    ensures Value(w) == Power2(n) - 1
  {
    if n > 0 {
      FullIs(w[1..], n - 1);
    }
  }

  /** The byte with these bits. */
  function ByteOf(w: word): (b: byte)
    requires |w| == 8
    ensures Bits(b) == w
  {
    ValueReturns(w);
    LikeIsSize(Value(w), w, Zero(8));
    Value(w)
  }

  /** A frame around a body that starts with the length byte: start byte before, checksum behind. */
  function Framed(seeds: Seeds, stx: byte, body: seq<byte>, cmd: nat): seq<byte> {
    var crc := Step(CrcFrom(Ones(), body), Bits(Lookup(seeds, cmd)));
    [stx] + body + [ByteOf(crc[..8]), ByteOf(crc[8..])]
  }

  function Body1(seqno: byte, sys: byte, comp: byte, cmd: byte, payload: seq<byte>): seq<byte>
    requires |payload| < 0x100
  {
    [|payload|, seqno, sys, comp, cmd] + payload
  }

  function Body2(flags: byte, compat: byte, seqno: byte, sys: byte, comp: byte, cmd: nat, payload: seq<byte>): seq<byte>
    requires |payload| < 0x100 && cmd < 0x100_0000
  {
    [|payload|, flags, compat, seqno, sys, comp, cmd % 0x100, cmd / 0x100 % 0x100, cmd / 0x1_0000] + payload
  }

  lemma FramedIsChecked(seeds: Seeds, stx: byte, body: seq<byte>, cmd: nat, rest: seq<byte>)
    ensures var u := Framed(seeds, stx, body, cmd) + rest;
      && u[0] == stx && u[1..|body| + 1] == body && |u| == |body| + 3 + |rest|
      && Checked(seeds, u, |body| + 1, cmd)
  {
    hide CrcFrom, Lookup, Step, Bits;
    var crc := Step(CrcFrom(Ones(), body), Bits(Lookup(seeds, cmd)));
    Surround(stx, body, ByteOf(crc[..8]), ByteOf(crc[8..]), rest);
    assert crc[..8] + crc[8..] == crc;
  }

  lemma Surround(stx: byte, body: seq<byte>, lo: byte, hi: byte, rest: seq<byte>)
    ensures var u := [stx] + body + [lo, hi] + rest;
      |u| == |body| + 3 + |rest| && u[0] == stx && u[1..|body| + 1] == body && u[|body| + 1] == lo && u[|body| + 2] == hi
  {
  }

  lemma Frame1Arrives(seeds: Seeds, seqno: byte, sys: byte, comp: byte, cmd: byte, payload: seq<byte>)
    requires |payload| < 0x100
    ensures var u := Framed(seeds, STX1, Body1(seqno, sys, comp, cmd, payload), cmd);
      Need(seeds, u) == |u| && Report(seeds, u) == [Accepted(1, cmd, payload)]
  {
    hide Checked, Framed;
    var body := Body1(seqno, sys, comp, cmd, payload);
    var u := Framed(seeds, STX1, body, cmd);
    FramedIsChecked(seeds, STX1, body, cmd, []);
    assert u + [] == u;
    FieldsOf(u, body);
    assert u[6..|u| - 2] == body[5..] == payload;
  }

  /** The bytes of the body, seen from the frame. */
  lemma FieldsOf(u: seq<byte>, body: seq<byte>)
    requires |u| >= |body| + 1 && u[1..|body| + 1] == body
    ensures forall i | 0 <= i < |body| :: u[i + 1] == body[i]
    ensures forall p | 0 <= p <= |body| :: u[p + 1..|body| + 1] == body[p..]
  {
    forall i | 0 <= i < |body| ensures u[i + 1] == body[i] {
      assert u[1..|body| + 1][i] == u[i + 1];
    }
    forall p | 0 <= p <= |body| ensures u[p + 1..|body| + 1] == body[p..] {
      assert u[p + 1..|body| + 1] == u[1..|body| + 1][p..];
    }
  }

  lemma CmdReturns(cmd: nat)
    requires cmd < 0x100_0000
    ensures cmd % 0x100 + 0x100 * (cmd / 0x100 % 0x100) + 0x1_0000 * (cmd / 0x1_0000) == cmd
  {
    assert cmd / 0x1_0000 == cmd / 0x100 / 0x100;
  }

  /** What of a version 2 frame a reader sees. */
  lemma Frame2Fields(seeds: Seeds, body: seq<byte>, flags: byte, compat: byte, seqno: byte, sys: byte,
                                        comp: byte, cmd: nat, payload: seq<byte>, signature: seq<byte>)
    requires |payload| < 0x100 && cmd < 0x100_0000
    requires body == Body2(flags, compat, seqno, sys, comp, cmd, payload)
    ensures var u := Framed(seeds, STX2, body, cmd) + signature;
      && |u| == 12 + |payload| + |signature| && u[0] == STX2 && Base2(u) == 12 + |payload| && Cmd2(u) == cmd
      && IsSigned(u) == (flags % 2 == 1) && u[10..10 + |payload|] == payload && Checked(seeds, u, 10 + |payload|, cmd)
  {
    hide Checked, Framed;
    var u := Framed(seeds, STX2, body, cmd) + signature;
    FramedIsChecked(seeds, STX2, body, cmd, signature);
    FieldsOf(u, body);
    assert u[1] == body[0] && u[2] == body[1] && u[7] == body[6] && u[8] == body[7] && u[9] == body[8];
    CmdReturns(cmd);
    assert u[10..10 + |payload|] == body[9..] == payload;
  }

  lemma Frame2Arrives(seeds: Seeds, flags: byte, compat: byte, seqno: byte, sys: byte, comp: byte, cmd: nat,
                                         payload: seq<byte>, signature: seq<byte>)
    requires |payload| < 0x100 && cmd < 0x100_0000 && |signature| == if flags % 2 == 1 then SIGNATURE else 0
    ensures var u := Framed(seeds, STX2, Body2(flags, compat, seqno, sys, comp, cmd, payload), cmd) + signature;
      Need(seeds, u) == |u| && Report(seeds, u) == [Accepted(2, cmd, payload)]
  {
    hide Checked, Framed;
    var body := Body2(flags, compat, seqno, sys, comp, cmd, payload);
    Frame2Fields(seeds, body, flags, compat, seqno, sys, comp, cmd, payload, signature);
    NeedOf2(seeds, Framed(seeds, STX2, body, cmd) + signature, true);
  }

  // ---------- whole streams ----------

  /** A stretch of a stream: noise without start bytes, or a frame; a version 2 frame is signed when bit 0 of its
      flags is set. */
  datatype Piece =
    | Noise(bytes: seq<byte>)
    | Packet1(seqno: byte, sys: byte, comp: byte, id: byte, payload: seq<byte>)
    | Packet2(flags: byte, compat: byte, seqno: byte, sys: byte, comp: byte, cmd: nat, payload: seq<byte>,
              signature: seq<byte>)

  predicate Sendable(p: Piece) {
    match p
    case Noise(bytes) => STX1 !in bytes && STX2 !in bytes
    case Packet1(_, _, _, _, payload) => |payload| < 0x100
    case Packet2(flags, _, _, _, _, cmd, payload, signature) =>
      |payload| < 0x100 && cmd < 0x100_0000 && |signature| == if flags % 2 == 1 then SIGNATURE else 0
  }

  function BytesOf(seeds: Seeds, p: Piece): seq<byte>
    requires Sendable(p)
  {
    match p
    case Noise(bytes) => bytes
    case Packet1(seqno, sys, comp, id, payload) => Framed(seeds, STX1, Body1(seqno, sys, comp, id, payload), id)
    case Packet2(flags, compat, seqno, sys, comp, cmd, payload, signature) =>
      Framed(seeds, STX2, Body2(flags, compat, seqno, sys, comp, cmd, payload), cmd) + signature
  }

  function FramesOf(p: Piece): seq<MavEvent> {
    match p
    case Noise(_) => []
    case Packet1(_, _, _, id, payload) => [Accepted(1, id, payload)]
    case Packet2(_, _, _, _, _, cmd, payload, _) => [Accepted(2, cmd, payload)]
  }

  function Wire(seeds: Seeds, ps: seq<Piece>): seq<byte>
    requires forall p | p in ps :: Sendable(p)
  {
    if ps == [] then [] else BytesOf(seeds, ps[0]) + Wire(seeds, ps[1..])
  }

  function Sent(ps: seq<Piece>): seq<MavEvent> {
    if ps == [] then [] else FramesOf(ps[0]) + Sent(ps[1..])
  }

  lemma FrameFirst(seeds: Seeds, u: seq<byte>, rest: seq<byte>)
    requires u != [] && Need(seeds, u) == |u|
    ensures Events(Mav(seeds), u + rest) == Report(seeds, u) + Events(Mav(seeds), rest)
    ensures Tail(Mav(seeds), u + rest) == Tail(Mav(seeds), rest)
  {
    hide Need, Report;
    MavIsStable(seeds);
    UnitFirst(Mav(seeds), u, rest);
  }

  lemma PieceFirst(seeds: Seeds, p: Piece, rest: seq<byte>)
    requires Sendable(p)
    ensures Events(Mav(seeds), BytesOf(seeds, p) + rest) == FramesOf(p) + Events(Mav(seeds), rest)
    ensures Tail(Mav(seeds), BytesOf(seeds, p) + rest) == Tail(Mav(seeds), rest)
  {
    hide Events, Tail, Framed, Report, Checked;
    match p
    case Noise(bytes) =>
      MavIsStable(seeds);
      forall i | 0 <= i < |bytes| ensures Mav(seeds).need([bytes[i]]) == 1 && Mav(seeds).report([bytes[i]]) == [] {
        assert bytes[i] in bytes;
        OtherByte(seeds, bytes[i]);
      }
      NoiseIsSkipped(Mav(seeds), bytes, rest);
    case Packet1(seqno, sys, comp, id, payload) =>
      Frame1Arrives(seeds, seqno, sys, comp, id, payload);
      FrameFirst(seeds, BytesOf(seeds, p), rest);
    case Packet2(flags, compat, seqno, sys, comp, cmd, payload, signature) =>
      Frame2Arrives(seeds, flags, compat, seqno, sys, comp, cmd, payload, signature);
      FrameFirst(seeds, BytesOf(seeds, p), rest);
  }

  lemma OtherByte(seeds: Seeds, b: byte)
    requires b != STX1 && b != STX2
    ensures Mav(seeds).need([b]) == 1 && Mav(seeds).report([b]) == []
  {
  }

  /** Any frames with any noise between them are accepted exactly as sent, in order, with their signatures consumed. */
  lemma {:induction false} StreamArrives(seeds: Seeds, ps: seq<Piece>)
    requires forall p | p in ps :: Sendable(p)
    ensures Events(Mav(seeds), Wire(seeds, ps)) == Sent(ps) && Tail(Mav(seeds), Wire(seeds, ps)) == []
  {
    if ps != [] {
      StreamArrives(seeds, ps[1..]);
      PieceFirst(seeds, ps[0], Wire(seeds, ps[1..]));
    }
  }

  /** The number of frames of a version in a stream. */
  function Packets(ps: seq<Piece>, vers: nat): nat {
    if ps == [] then 0
    else (match ps[0]
          case Noise(_) => 0
          case Packet1(_, _, _, _, _) => if vers == 1 then 1 else 0
          case Packet2(_, _, _, _, _, _, _, _) => if vers == 2 then 1 else 0) + Packets(ps[1..], vers)
  }

  lemma {:induction false} CountJoins(a: seq<MavEvent>, b: seq<MavEvent>, vers: nat, ok: bool)
    ensures Count(a + b, vers, ok) == Count(a, vers, ok) + Count(b, vers, ok)
  {
    if b == [] {
      assert a + b == a;
    } else {
      var n := |b| - 1;
      CountJoins(a, b[..n], vers, ok);
      assert (a + b)[..|a + b| - 1] == a + b[..n];
    }
  }

  lemma {:induction false} SentCounts(ps: seq<Piece>, vers: nat)
    ensures Count(Sent(ps), vers, true) == Packets(ps, vers) && Count(Sent(ps), vers, false) == 0
  {
    if ps != [] {
      SentCounts(ps[1..], vers);
      CountJoins(FramesOf(ps[0]), Sent(ps[1..]), vers, true);
      CountJoins(FramesOf(ps[0]), Sent(ps[1..]), vers, false);
      OneCounts(ps[0], vers, true);
      OneCounts(ps[0], vers, false);
    }
  }

  lemma OneCounts(p: Piece, vers: nat, ok: bool)
    ensures Count(FramesOf(p), vers, ok) ==
      if p.Noise? || !ok then 0 else if p.Packet1? then (if vers == 1 then 1 else 0) else if vers == 2 then 1 else 0
  {
    match p
    case Noise(_) =>
    case Packet1(_, _, _, id, payload) => OneCount(Accepted(1, id, payload), vers, ok);
    case Packet2(_, _, _, _, _, cmd, payload, _) => OneCount(Accepted(2, cmd, payload), vers, ok);
  }

  lemma OneCount(e: MavEvent, vers: nat, ok: bool)
    ensures Count([e], vers, ok) == if e.vers == vers && e.Accepted? == ok then 1 else 0
  {
    CountGrows([], e, vers, ok);
    assert [] + [e] == [e];
  }

  /** A reader fed a stream of valid frames, in whatever chunks, has shown exactly those frames with their payloads,
      has counted every one of them as good and none as failed, and waits for a new frame. */
  lemma ValidStreamCounts(r: Reader, ps: seq<Piece>)
    requires forall p | p in ps :: Sendable(p)
    requires r.Followed() && r.fed == Wire(r.seeds, ps)
    ensures r.out == Sent(ps) && r.shown == Shown(Sent(ps)) && r.state == UNKNOWN
    ensures r.m1_ok == Packets(ps, 1) && r.m1_fail == 0 && r.m2_ok == Packets(ps, 2) && r.m2_fail == 0
  {
    hide Events, Tail, Checked, Sum, Checksum, Shown, Count;
    StreamArrives(r.seeds, ps);
    assert r.tail == [] && r.early == [];
    SentCounts(ps, 1);
    SentCounts(ps, 2);
  }
}

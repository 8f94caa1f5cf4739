/** S.Port telemetry: unstuffing a byte stream into packets, and the checksum with its carry fold. */
module SPort {
  import opened Framing

  const P_START: byte := 0x7e
  const P_STUFF: byte := 0x7d
  const P_SIZE: nat := 10

  /** b ^ P_MASK. */
  function Masked(b: byte): (r: byte)
    ensures r != b
  {
    if b / 0x20 % 2 == 1 then b - 0x20 else b + 0x20
  }

  lemma MaskedReturns(b: byte)
    ensures Masked(Masked(b)) == b
  {
  }

  /** The mask changes one bit, the sixth: the escapes of the two special bytes are 0x5e and 0x5d. */
  lemma MaskIsOneBit(b: byte)
    ensures Masked(b) % 0x20 == b % 0x20 && Masked(b) / 0x40 == b / 0x40 && Masked(b) / 0x20 % 2 != b / 0x20 % 2
    ensures Masked(P_START) == 0x5e && Masked(P_STUFF) == 0x5d && Masked(0x5e) == P_START && Masked(0x5d) == P_STUFF
  {
  }

  // ---------- the checksum ----------

  function Total(s: seq<byte>): nat {
    if s == [] then 0 else Total(s[..|s| - 1]) + s[|s| - 1]
  }

  lemma TotalGrows(s: seq<byte>, b: byte)
    ensures Total(s + [b]) == Total(s) + b
  {
    assert (s + [b])[..|s|] == s;
  }

  /** What the carry fold keeps: the sum so far modulo 255, with 255 rather than 0 for its non-zero multiples. */
  predicate Folded(crc: nat, total: nat) {
    crc <= 0xff && (crc == 0 <==> total == 0) && crc % 255 == total % 255
  }

  lemma FoldKeeps(crc: nat, total: nat, b: byte)
    requires Folded(crc, total)
    ensures var t := crc + b; Folded((t + t / 0x100) % 0x100, total + b)
  {
    var t := crc + b;
    var r := (t + t / 0x100) % 0x100;
    assert r == if t >= 0x100 then t - 255 else t;
    SameRemainder(crc, total, b, t - r);
  }

  lemma SameRemainder(crc: nat, total: nat, b: nat, d: int)
    requires crc % 255 == total % 255 && (d == 0 || d == 255)
    ensures (crc + b - d) % 255 == (total + b) % 255
  {
    var k := total / 255 - crc / 255;
    assert total == crc + 255 * k;
    Multiples(crc + b, k);
    Multiples(crc + b, if d == 0 then 0 else -1);
  }

  lemma Multiples(a: int, k: int)
    ensures (a + 255 * k) % 255 == a % 255
  {
    var q := a / 255;
    assert a + 255 * k == 255 * (q + k) + a % 255;
  }

  /** The source's check, over the bytes from position 2 on: it accepts exactly when their sum is a non-zero multiple of
      255. */
  method CheckCrc(arry: seq<byte>) returns (ok: bool)
    requires |arry| >= 2
    ensures ok <==> Sound(arry)
  {
    var crc: nat := 0;
    assert arry[2..2] == [];
    for n := 2 to |arry|
      invariant Folded(crc, Total(arry[2..n]))
    {
      FoldKeeps(crc, Total(arry[2..n]), arry[n]);
      TotalGrows(arry[2..n], arry[n]);
      assert arry[2..n + 1] == arry[2..n] + [arry[n]];
      var t: nat := crc + arry[n];
      crc := (t + t / 0x100) % 0x100;
    }
    assert arry[2..|arry|] == arry[2..];
    ok := crc == 0xff;
  }

  predicate Sound(packet: seq<byte>) {
    |packet| >= 2 && Total(packet[2..]) > 0 && Total(packet[2..]) % 255 == 0
  }

  lemma {:induction false} TotalChanges(s: seq<byte>, i: nat, x: byte)
    requires i < |s|
    ensures Total(s[i := x]) == Total(s) - s[i] + x
  {
    var n := |s| - 1;
    if i < n {
      assert s[i := x][..n] == s[..n][i := x];
      TotalChanges(s[..n], i, x);
    } else {
      assert s[i := x][..n] == s[..n];
    }
  }

  /** A sound packet with one byte changed is still taken for sound if and only if the byte is one of the first two, which
      are not summed, or a 0 has become 255 or the other way round, and something is left to sum. */
  lemma OneByteExactly(packet: seq<byte>, i: nat, x: byte)
    requires Sound(packet) && i < |packet| && x != packet[i]
    ensures Sound(packet[i := x]) <==>
      i < 2 || (packet[i] == 0 && x == 255) || (packet[i] == 255 && x == 0 && Total(packet[2..]) > 255)
  {
    hide Total;
    if i < 2 {
      assert packet[i := x][2..] == packet[2..];
    } else {
      assert packet[i := x][2..] == packet[2..][i - 2 := x];
      TotalChanges(packet[2..], i - 2, x);
      ChangeOfMultiple(Total(packet[2..]), x as int - packet[i]);
    }
  }

  lemma ChangeOfMultiple(total: nat, change: int)
    requires total % 255 == 0 && -255 <= change <= 255 && change != 0 && total + change >= 0
    ensures (total + change) % 255 == 0 <==> change == 255 || change == -255
  {
    var q := total / 255;
    assert total == 255 * q;
    if 0 < change < 255 {
      assert (total + change) % 255 == change;
    } else if -255 < change < 0 {
      assert total + change == 255 * (q - 1) + (255 + change);
    }
  }

  // ---------- the stream ----------

  /** Between two bytes: whether an escape is open, the packet being read, the full-size packets so far in order, and the
      sizes of the others in order. */
  datatype Scan = Scan(stuffed: bool, packet: seq<byte>, seen: seq<seq<byte>>, sizes: seq<nat>)

  /** A start byte closes the packet before it. */
  function Closed(s: Scan): Scan {
    if |s.packet| == P_SIZE then s.(packet := [], seen := s.seen + [s.packet])
    else s.(packet := [], sizes := s.sizes + [|s.packet|])
  }

  function Taken(s: Scan, b: byte): Scan {
    var s := if b == P_START then Closed(s) else s;
    if s.stuffed then s.(stuffed := false, packet := s.packet + [Masked(b)])
    else if b == P_STUFF then s.(stuffed := true)
    else s.(packet := s.packet + [b])
  }

  function After(s: Scan, data: seq<byte>): Scan {
    if data == [] then s else Taken(After(s, data[..|data| - 1]), data[|data| - 1])
  }

  const FRESH: Scan := Scan(false, [], [], [])

  /** The number of start bytes. */
  function Count(data: seq<byte>): nat {
    if data == [] then 0 else Count(data[..|data| - 1]) + if data[|data| - 1] == P_START then 1 else 0
  }

  function Good(seen: seq<seq<byte>>): nat {
    if seen == [] then 0 else Good(seen[..|seen| - 1]) + if Sound(seen[|seen| - 1]) then 1 else 0
  }

  lemma AfterGrows(s: Scan, data: seq<byte>, b: byte)
    ensures After(s, data + [b]) == Taken(After(s, data), b) && Count(data + [b]) == Count(data) + if b == P_START then 1 else 0
  {
    assert (data + [b])[..|data|] == data;
  }

  lemma GoodGrows(seen: seq<seq<byte>>, p: seq<byte>)
    ensures Good(seen + [p]) == Good(seen) + if Sound(p) then 1 else 0
  {
    assert (seen + [p])[..|seen|] == seen;
  }

  lemma {:induction false} AfterJoins(s: Scan, a: seq<byte>, b: seq<byte>)
    ensures After(s, a + b) == After(After(s, a), b)
    decreases |b|
  {
    if b == [] {
      assert a + b == a;
    } else {
      var n := |b| - 1;
      AfterJoins(s, a, b[..n]);
      AfterGrows(s, a + b[..n], b[n]);
      assert a + b == a + b[..n] + [b[n]];
    }
  }

  /** How often each size occurs. */
  ghost predicate Histogram(shorts: map<nat, nat>, sizes: seq<nat>) {
    forall n :: if n in shorts then shorts[n] == multiset(sizes)[n] > 0 else n !in sizes
  }

  /** One more of a size, which may be new. */
  function Tallied(shorts: map<nat, nat>, n: nat): map<nat, nat> {
    var known := if n in shorts then shorts else shorts[n := 0];
    known[n := known[n] + 1]
  }

  lemma Fresh()
    ensures After(FRESH, []) == FRESH && Histogram(map[], []) && Good([]) == 0 && Count([]) == 0
  {
  }

  lemma HistogramGrows(shorts: map<nat, nat>, sizes: seq<nat>, n: nat)
    requires Histogram(shorts, sizes)
    ensures Histogram(Tallied(shorts, n), sizes + [n])
  {
    assert multiset(sizes + [n]) == multiset(sizes) + multiset{n};
  }

  /** The source's loop. Every start byte, escaped or not, closes one packet, which is good, bad or short. */
  method Scanned(data: seq<byte>) returns (seen: seq<seq<byte>>, good: nat, bad: nat, short: nat, shorts: map<nat, nat>)
    ensures seen == After(FRESH, data).seen && short == |After(FRESH, data).sizes|
    ensures Histogram(shorts, After(FRESH, data).sizes)
    ensures good == Good(seen) && good + bad == |seen|
    ensures good + bad + short == Count(data)
  {
    hide After, Histogram, Good, Count, Sound, Masked;
    ghost var sizes: seq<nat> := [];
    shorts := map[];
    Fresh();
    assert data[..0] == [];
    var stuffed, packet := false, [];
    seen, good, bad, short := [], 0, 0, 0;
    for i := 0 to |data|
      invariant After(FRESH, data[..i]) == Scan(stuffed, packet, seen, sizes)
      invariant short == |sizes| && Histogram(shorts, sizes)
      invariant good == Good(seen) && good + bad == |seen|
      invariant good + bad + short == Count(data[..i])
    {
      AfterGrows(FRESH, data[..i], data[i]);
      assert data[..i + 1] == data[..i] + [data[i]];
      var b := data[i];
      if b == P_START {
        if |packet| == P_SIZE {
          GoodGrows(seen, packet);
          seen := seen + [packet];
          var ok := CheckCrc(packet);
          if ok {
            good := good + 1;
          } else {
            bad := bad + 1;
          }
        } else {
          HistogramGrows(shorts, sizes, |packet|);
          sizes := sizes + [|packet|];
          short := short + 1;
          shorts := Tallied(shorts, |packet|);
        }
        packet := [];
      }
      if stuffed {
        b := Masked(b);
        stuffed := false;
      } else if b == P_STUFF {
        stuffed := true;
      }
      if !stuffed {
        packet := packet + [b];
      }
    }
    assert data[..|data|] == data;
  }

  // ---------- what was sent ----------

  /** A byte of a packet after its start byte as it is sent. */
  function Escaped(b: byte): seq<byte> {
    if b == P_START || b == P_STUFF then [P_STUFF, Masked(b)] else [b]
  }

  function Stuffed(body: seq<byte>): seq<byte> {
    if body == [] then [] else Stuffed(body[..|body| - 1]) + Escaped(body[|body| - 1])
  }

  lemma Unescapes(s: Scan, b: byte)
    requires !s.stuffed
    ensures After(s, Escaped(b)) == s.(packet := s.packet + [b])
  {
    hide After;
    AfterNone(s);
    assert [] + [b] == [b] && [] + [P_STUFF] == [P_STUFF] && [P_STUFF] + [Masked(b)] == [P_STUFF, Masked(b)];
    AfterGrows(s, [], b);
    AfterGrows(s, [], P_STUFF);
    AfterGrows(s, [P_STUFF], Masked(b));
    MaskedReturns(b);
  }

  lemma AfterNone(s: Scan)
    ensures After(s, []) == s
  {
  }

  lemma {:induction false} Unstuffs(s: Scan, body: seq<byte>)
    requires !s.stuffed
    ensures After(s, Stuffed(body)) == s.(packet := s.packet + body)
  {
    hide After, Escaped;
    if body == [] {
      AfterNone(s);
      assert s.packet + [] == s.packet;
    } else {
      var rest, b := body[..|body| - 1], body[|body| - 1];
      Unstuffs(s, rest);
      assert s.packet + rest + [b] == s.packet + body;
      AfterJoins(s, Stuffed(rest), Escaped(b));
      Unescapes(s.(packet := s.packet + rest), b);
    }
  }

  predicate IsPacket(p: seq<byte>) {
    |p| == P_SIZE && p[0] == P_START
  }

  function Sent(ps: seq<seq<byte>>): seq<byte>
    requires forall i | 0 <= i < |ps| :: IsPacket(ps[i])
  {
    if ps == [] then []
    else
      var p := ps[|ps| - 1];
      assert IsPacket(p);
      Sent(ps[..|ps| - 1]) + [P_START] + Stuffed(p[1..])
  }

  lemma PacketPends(s: Scan, p: seq<byte>)
    requires !s.stuffed && IsPacket(p)
    ensures After(s, [P_START] + Stuffed(p[1..])) == Closed(s).(packet := p)
  {
    hide After, Stuffed;
    AfterJoins(s, [P_START], Stuffed(p[1..]));
    AfterNone(s);
    AfterGrows(s, [], P_START);
    assert [] + [P_START] == [P_START];
    assert Closed(s).packet + [P_START] == [P_START];
    Unstuffs(Closed(s).(packet := [P_START]), p[1..]);
    assert [P_START] + p[1..] == p;
  }

  /** Packets sent after anything that does not end inside an escape, and closed by a start byte, are recovered exactly,
      in order, after whatever was closed before them. */
  lemma PacketsRecovered(s: Scan, ps: seq<seq<byte>>)
    requires !s.stuffed && forall i | 0 <= i < |ps| :: IsPacket(ps[i])
    ensures var r := After(s, Sent(ps) + [P_START]);
      r.seen == Closed(s).seen + ps && r.sizes == Closed(s).sizes && !r.stuffed && r.packet == [P_START]
  {
    hide After, Sent;
    AfterGrows(s, Sent(ps), P_START);
    if ps == [] {
      SentNone(s, ps);
      assert Closed(s).seen + [] == Closed(s).seen;
    } else {
      LastPends(s, ps);
      assert ps == ps[..|ps| - 1] + [ps[|ps| - 1]];
    }
  }

  lemma SentNone(s: Scan, ps: seq<seq<byte>>)
    requires ps == []
    ensures After(s, Sent(ps)) == s
  {
  }

  lemma SentGrows(ps: seq<seq<byte>>)
    requires ps != [] && forall i | 0 <= i < |ps| :: IsPacket(ps[i])
    ensures IsPacket(ps[|ps| - 1])
    ensures Sent(ps) == Sent(ps[..|ps| - 1]) + ([P_START] + Stuffed(ps[|ps| - 1][1..]))
  {
    hide Stuffed;
  }

  lemma {:induction false} LastPends(s: Scan, ps: seq<seq<byte>>)
    requires !s.stuffed && ps != [] && forall i | 0 <= i < |ps| :: IsPacket(ps[i])
    ensures var n := |ps| - 1;
      After(s, Sent(ps)) == Scan(false, ps[n], Closed(s).seen + ps[..n], Closed(s).sizes)
  {
    hide After, Stuffed, Sent;
    var n := |ps| - 1;
    var rest, p := ps[..n], ps[n];
    SentGrows(ps);
    AfterJoins(s, Sent(rest), [P_START] + Stuffed(p[1..]));
    if rest == [] {
      SentNone(s, rest);
      PacketPends(s, p);
      assert Closed(s).seen + [] == Closed(s).seen;
    } else {
      LastPends(s, rest);
      PacketPends(After(s, Sent(rest)), p);
      assert Closed(s).seen + rest[..n - 1] + [rest[n - 1]] == Closed(s).seen + rest;
    }
  }

  /** A recording of nothing but packets: all are recovered, and only the first start byte finds nothing to close. */
  lemma RecordingRecovered(ps: seq<seq<byte>>)
    requires forall i | 0 <= i < |ps| :: IsPacket(ps[i])
    ensures After(FRESH, Sent(ps) + [P_START]).seen == ps && After(FRESH, Sent(ps) + [P_START]).sizes == [0]
  {
    PacketsRecovered(FRESH, ps);
    assert [] + ps == ps;
  }
}

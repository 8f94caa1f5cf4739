/** The byte-at-a-time MAVLink reader. */
module MavReader {
  import opened Framing
  import opened MavCrc
  import opened MavFrames

  datatype State =
    | UNKNOWN
    | M_SIZE | M_SEQ | M_ID1 | M_ID2 | M_MSGID | M_DATA | M_CRC1 | M_CRC2
    | M2_SIZE | M2_FLG1 | M2_FLG2 | M2_SEQ | M2_ID1 | M2_ID2 | M2_MSGID0 | M2_MSGID1 | M2_MSGID2
    | M2_DATA | M2_CRC1 | M2_CRC2 | M2_SIG

  /** The checksum accumulated over the bytes after the start byte of an unfinished frame. */
  function Sum(tail: seq<byte>): (w: word)
    ensures |w| == 16
  {
    if |tail| <= 1 then Ones() else Step(Sum(tail[..|tail| - 1]), Bits(tail[|tail| - 1]))
  }

  lemma SumGrows(tail: seq<byte>, b: byte)
    requires |tail| >= 1
    ensures Sum(tail + [b]) == Step(Sum(tail), Bits(b))
  {
    assert (tail + [b])[..|tail|] == tail;
  }

  lemma SumStarts(tail: seq<byte>, b: byte)
    requires |tail| == 1
    ensures Sum(tail + [b]) == Step(Ones(), Bits(b))
  {
    SumGrows(tail, b);
  }

  lemma {:induction false} SumIsCrc(tail: seq<byte>)
    requires |tail| >= 1
    ensures Sum(tail) == CrcFrom(Ones(), tail[1..])
  {
    hide Step, Bits, Ones;
    if |tail| > 1 {
      var s := tail[..|tail| - 1];
      SumIsCrc(s);
      assert tail[1..][..|tail| - 2] == s[1..];
    }
  }

  function Count(out: seq<MavEvent>, vers: nat, ok: bool): nat {
    if out == [] then 0
    else
      var e := out[|out| - 1];
      Count(out[..|out| - 1], vers, ok) + if e.vers == vers && e.Accepted? == ok then 1 else 0
  }

  lemma CountGrows(out: seq<MavEvent>, e: MavEvent, vers: nat, ok: bool)
    ensures Count(out + [e], vers, ok) == Count(out, vers, ok) + if e.vers == vers && e.Accepted? == ok then 1 else 0
  {
    assert (out + [e])[..|out|] == out;
  }

  /** The frames that are shown of those counted: the good ones, save those of version 2 without payload. */
  function Shown(out: seq<MavEvent>): seq<MavEvent> {
    if out == [] then []
    else
      var e := out[|out| - 1];
      Shown(out[..|out| - 1]) + if e.Accepted? && (e.vers == 1 || e.payload != []) then [e] else []
  }

  lemma ShownGrows(out: seq<MavEvent>, e: MavEvent)
    ensures Shown(out + [e]) == Shown(out) + if e.Accepted? && (e.vers == 1 || e.payload != []) then [e] else []
  {
    assert (out + [e])[..|out|] == out;
  }

  class Reader {
    const seeds: Seeds
    var state: State
    var vers: byte
    var cmd: nat
    var csize: byte
    var needed: byte
    var mavsum: word
    var rxmavsum: word
    var mavsig: nat
    var payload: seq<byte>
    var m1_ok: nat
    var m1_fail: nat
    var m2_ok: nat
    var m2_fail: nat
    // the frames counted and those shown, as records
    var out: seq<MavEvent>
    var shown: seq<MavEvent>
    // the bytes since the start byte of the frame under way, and what has been reported of it already
    ghost var tail: seq<byte>
    ghost var early: seq<MavEvent>
    // what has been reported of the frames before it
    ghost var done: seq<MavEvent>
    // all the bytes fed since the start
    ghost var fed: seq<byte>

    constructor (seeds: Seeds)
      ensures Followed() && fed == [] && this.seeds == seeds
    {
      this.seeds := seeds;
      state := UNKNOWN;
      vers, cmd, csize, needed, mavsig := 0, 0, 0, 0, 0;
      mavsum, rxmavsum, payload := Ones(), [], [];
      m1_ok, m1_fail, m2_ok, m2_fail := 0, 0, 0, 0;
      out, shown, tail, early, done, fed := [], [], [], [], [], [];
    }

    ghost predicate Started(stx: byte, n: nat)
      reads this
    {
      |tail| == n && n >= 2 && tail[0] == stx && csize == tail[1] && mavsum == Sum(tail)
    }

    /** The payload, from position p of the frame, is in the buffer as far as it has been read. */
    ghost predicate Holding(p: nat)
      reads this
    {
      && |payload| == 256 && needed <= csize
      && |tail| == p + (csize - needed) && payload[..csize - needed] == tail[p..]
    }

    ghost predicate Sized1()
      reads this
    {
      |tail| >= 6 && tail[0] == STX1 && csize == tail[1] && cmd == tail[5]
    }

    ghost predicate Sized2()
      reads this
    {
      |tail| >= 10 && tail[0] == STX2 && csize == tail[1] && cmd == Cmd2(tail) && mavsig == SignatureSize(tail)
    }

    function SignatureSize(s: seq<byte>): nat
      requires |s| >= 3
    {
      if IsSigned(s) then SIGNATURE else 0
    }

    /** All but the second checksum byte is in, and the seed has been added. */
    ghost predicate Summed(e: nat)
      reads this
    {
      && |tail| == e + 1 && e >= 1 && csize as int <= e && mavsum == Checksum(seeds, tail, e, cmd) && rxmavsum == Bits(tail[e])
      && |payload| == 256 && payload[..csize] == tail[e - csize as int..e]
    }

    /** The version is that of the start byte. */
    ghost predicate Versioned()
      reads `tail, `vers
    {
      tail != [] ==> vers == if tail[0] == STX1 then 1 else 2
    }

    ghost predicate Fresh()
      reads this
    {
      needed == csize && |payload| == 256
    }

    /** The fields hold what the bytes of the frame under way determine. */
    ghost predicate Valid()
      reads this
    {
      |mavsum| == 16 && (state != M2_SIG ==> early == []) && Versioned() && match state
      case UNKNOWN => tail == []
      case M_SIZE => tail == [STX1]
      case M_SEQ => Started(STX1, 2) && Fresh()
      case M_ID1 => Started(STX1, 3) && Fresh()
      case M_ID2 => Started(STX1, 4) && Fresh()
      case M_MSGID => Started(STX1, 5) && Fresh()
      case M_DATA => Sized1() && Holding(6) && needed > 0 && mavsum == Sum(tail)
      case M_CRC1 => Sized1() && Holding(6) && needed == 0 && mavsum == Sum(tail)
      case M_CRC2 => Sized1() && Summed(6 + csize as int)
      case M2_SIZE => tail == [STX2]
      case M2_FLG1 => Started(STX2, 2) && Fresh()
      case M2_FLG2 => Started(STX2, 3) && Fresh() && mavsig == SignatureSize(tail)
      case M2_SEQ => Started(STX2, 4) && Fresh() && mavsig == SignatureSize(tail)
      case M2_ID1 => Started(STX2, 5) && Fresh() && mavsig == SignatureSize(tail)
      case M2_ID2 => Started(STX2, 6) && Fresh() && mavsig == SignatureSize(tail)
      case M2_MSGID0 => Started(STX2, 7) && Fresh() && mavsig == SignatureSize(tail)
      case M2_MSGID1 => Started(STX2, 8) && Fresh() && mavsig == SignatureSize(tail) && cmd == tail[7]
      case M2_MSGID2 =>
        Started(STX2, 9) && Fresh() && mavsig == SignatureSize(tail) && cmd == tail[7] as int + 0x100 * tail[8] as int
      case M2_DATA => Sized2() && Holding(10) && needed > 0 && mavsum == Sum(tail)
      case M2_CRC1 => Sized2() && Holding(10) && needed == 0 && mavsum == Sum(tail)
      case M2_CRC2 => Sized2() && Summed(10 + csize as int)
      case M2_SIG => Signing(seeds, tail, mavsig, early)
    }

    ghost predicate Counted()
      reads `out, `shown, `m1_ok, `m1_fail, `m2_ok, `m2_fail
    {
      && shown == Shown(out)
      && m1_ok == Count(out, 1, true) && m1_fail == Count(out, 1, false)
      && m2_ok == Count(out, 2, true) && m2_fail == Count(out, 2, false)
    }

    /** The reader has followed all the bytes fed to it. */
    ghost predicate Followed()
      reads this
    {
      Valid() && Counted() && Follows(seeds, fed, tail, done) && out == done + early
    }

    /** Byte b leaves the frame under way unfinished. */
    ghost method GoOn(b: byte)
      requires Follows(seeds, fed, tail, done) && GoesOn(seeds, tail, b)
      modifies `tail, `fed
      ensures Follows(seeds, fed, tail, done) && tail == old(tail) + [b] && fed == old(fed) + [b]
    {
      ReadsOn(seeds, fed, tail, b, done);
      tail, fed := tail + [b], fed + [b];
    }

    /** Byte b completes a unit that reports these events in all. */
    ghost method Close(b: byte, report: seq<MavEvent>)
      requires Follows(seeds, fed, tail, done) && Completes(seeds, tail, b, report)
      modifies `tail, `fed, `done, `early
      ensures Follows(seeds, fed, tail, done) && tail == [] && fed == old(fed) + [b]
      ensures done == old(done) + report && early == []
    {
      ReadsUnit(seeds, fed, tail, b, done, report);
      tail, fed, done, early := [], fed + [b], done + report, [];
    }

    /** S_UNKNOWN. */
    method Unknown(b: byte)
      requires Followed() && state == UNKNOWN
      modifies `state, `vers, `tail, `fed, `done, `early
      ensures Followed() && fed == old(fed) + [b]
    {
      hide Follows, Counted, Checked;
      if b == STX1 {
        state, vers := M_SIZE, 1;
        GoOn(b);
      } else if b == STX2 {
        state, vers := M2_SIZE, 2;
        GoOn(b);
      } else {
        Close(b, []);
      }
    }

    /** S_M_SIZE and S_M2_SIZE. */
    method Size(b: byte, ghost stx: byte)
      requires tail == [stx] && (stx == STX1 || stx == STX2) && Follows(seeds, fed, tail, done)
      modifies `tail, `fed, `csize, `needed, `payload, `mavsum
      ensures Follows(seeds, fed, tail, done) && tail == old(tail) + [b] && fed == old(fed) + [b]
      ensures |mavsum| == 16 && Started(stx, 2) && Fresh()
    {
      hide Follows, GoesOn, Sum, Step, Ones, BitSteps, Xor, Wide;
      SumStarts(tail, b);
      MiddleGoesOn(seeds, tail, b);
      csize, needed := b, b;
      payload := Zeros(256);
      mavsum := MavlinkCrc(Ones(), Bits(b));
      GoOn(b);
    }

    method Size1(b: byte)
      requires Followed() && state == M_SIZE
      modifies `state, `tail, `fed, `csize, `needed, `payload, `mavsum
      ensures Followed() && fed == old(fed) + [b]
    {
      hide Follows, Counted, Sum, Signing, Summed, Sized1, Sized2, Holding;
      Size(b, STX1);
      state := M_SEQ;
    }

    method Size2(b: byte)
      requires Followed() && state == M2_SIZE
      modifies `state, `tail, `fed, `csize, `needed, `payload, `mavsum
      ensures Followed() && fed == old(fed) + [b]
    {
      hide Follows, Counted, Sum, Signing, Summed, Sized1, Sized2, Holding;
      Size(b, STX2);
      state := M2_FLG1;
    }

    /** A byte before the checksum. */
    method AddToSum(b: byte)
      requires |mavsum| == 16 && tail != [] && mavsum == Sum(tail) && (tail[0] == STX1 || tail[0] == STX2)
      requires |tail| >= 2 && |tail| + 1 < Overhead(tail[0]) + tail[1] as int && Follows(seeds, fed, tail, done)
      modifies `tail, `fed, `mavsum
      ensures Follows(seeds, fed, tail, done) && tail == old(tail) + [b] && fed == old(fed) + [b] && mavsum == Sum(tail)
    {
      hide Follows, GoesOn, BitSteps, Xor, Wide;
      SumGrows(tail, b);
      MiddleGoesOn(seeds, tail, b);
      mavsum := MavlinkCrc(mavsum, Bits(b));
      GoOn(b);
    }

    /** The states that only add a byte to the checksum. */
    method Skip(b: byte)
      requires Followed() && state in {M_SEQ, M_ID1, M_ID2}
      modifies `state, `tail, `fed, `mavsum
      ensures Followed() && fed == old(fed) + [b]
    {
      hide Follows, Counted, Sum, Summed, Signing;
      AddToSum(b);
      state := if state == M_SEQ then M_ID1 else if state == M_ID1 then M_ID2 else M_MSGID;
    }

    method Skip2(b: byte)
      requires Followed() && state in {M2_FLG2, M2_SEQ, M2_ID1, M2_ID2}
      modifies `state, `tail, `fed, `mavsum
      ensures Followed() && fed == old(fed) + [b]
    {
      hide Follows, Counted, Sum, Summed, Signing;
      AddToSum(b);
      state := if state == M2_FLG2 then M2_SEQ else if state == M2_SEQ then M2_ID1 else if state == M2_ID1 then M2_ID2 else M2_MSGID0;
    }

    method Flags1(b: byte)
      requires Followed() && state == M2_FLG1
      modifies `state, `tail, `fed, `mavsum, `mavsig
      ensures Followed() && fed == old(fed) + [b]
    {
      hide Follows, Counted, Sum, Summed, Signing;
      AddToSum(b);
      mavsig := if b % 2 == 1 then 13 else 0;
      state := M2_FLG2;
    }

    method MsgId(b: byte)
      requires Followed() && state == M_MSGID
      modifies `state, `tail, `fed, `mavsum, `cmd
      ensures Followed() && fed == old(fed) + [b]
    {
      hide Follows, Counted, Sum, Summed, Signing, Sized2;
      AddToSum(b);
      cmd := b;
      state := if csize == 0 then M_CRC1 else M_DATA;
    }

    method MsgId0(b: byte)
      requires Followed() && state == M2_MSGID0
      modifies `state, `tail, `fed, `mavsum, `cmd
      ensures Followed() && fed == old(fed) + [b]
    {
      hide Follows, Counted, Sum, Summed, Signing, Sized1;
      AddToSum(b);
      cmd := b;
      state := M2_MSGID1;
    }

    method MsgId1(b: byte)
      requires Followed() && state == M2_MSGID1
      modifies `state, `tail, `fed, `mavsum, `cmd
      ensures Followed() && fed == old(fed) + [b]
    {
      hide Follows, Counted, Sum, Summed, Signing, Sized1;
      AddToSum(b);
      cmd := cmd + 0x100 * b as int;
      state := M2_MSGID2;
    }

    method MsgId2(b: byte)
      requires Followed() && state == M2_MSGID2
      modifies `state, `tail, `fed, `mavsum, `cmd
      ensures Followed() && fed == old(fed) + [b]
    {
      hide Follows, Counted, Sum, Summed, Signing, Sized1;
      AddToSum(b);
      cmd := cmd + 0x1_0000 * b as int;
      state := if csize == 0 then M2_CRC1 else M2_DATA;
    }

    /** A payload byte, stored at csize - needed, which is always inside the buffer. */
    method Store(b: byte, ghost p: nat)
      requires Holding(p) && needed > 0
      modifies `payload, `needed
      ensures needed == old(needed) - 1 && |payload| == 256
      ensures payload[..csize - needed] == (tail + [b])[p..]
    {
      BufferGrows(payload, csize - needed, tail, p, b);
      payload := payload[csize - needed := b];
      needed := needed - 1;
    }

    /** A payload byte, into the buffer and the checksum. */
    method AddData(b: byte, ghost p: nat)
      requires Holding(p) && needed > 0 && |tail| >= 2 && csize == tail[1] && Follows(seeds, fed, tail, done)
      requires |mavsum| == 16 && mavsum == Sum(tail) && p >= 2
      requires (tail[0] == STX1 && p == 6) || (tail[0] == STX2 && p == 10)
      modifies `tail, `fed, `mavsum, `payload, `needed
      ensures Follows(seeds, fed, tail, done) && tail == old(tail) + [b] && fed == old(fed) + [b]
      ensures |mavsum| == 16 && mavsum == Sum(tail) && Holding(p) && needed == old(needed) - 1
    {
      hide Follows, Sum;
      Store(b, p);
      AddToSum(b);
    }

    method Data(b: byte)
      requires Followed() && state == M_DATA
      modifies `state, `tail, `fed, `mavsum, `payload, `needed
      ensures Followed() && fed == old(fed) + [b]
    {
      hide Follows, Counted, Sum, Summed, Signing;
      AddData(b, 6);
      if needed == 0 {
        state := M_CRC1;
      }
    }

    method Data2(b: byte)
      requires Followed() && state == M2_DATA
      modifies `state, `tail, `fed, `mavsum, `payload, `needed
      ensures Followed() && fed == old(fed) + [b]
    {
      hide Follows, Counted, Sum, Summed, Signing;
      AddData(b, 10);
      if needed == 0 {
        state := M2_CRC1;
      }
    }

    /** Takes the first checksum byte and adds the message's seed. */
    method FirstCrc(b: byte, ghost p: nat)
      requires |mavsum| == 16 && p >= 2 && Holding(p) && needed == 0
      requires mavsum == Sum(tail) && GoesOn(seeds, tail, b) && Follows(seeds, fed, tail, done)
      modifies `tail, `fed, `mavsum, `rxmavsum
      ensures Follows(seeds, fed, tail, done) && tail == old(tail) + [b] && fed == old(fed) + [b]
      ensures |mavsum| == 16 && Summed(p + csize as int)
    {
      hide Follows, GoesOn, Sum, CrcFrom, Lookup, BitSteps, Xor, Wide;
      var seed := FindSeed(cmd);
      SumIsCrc(tail);
      ghost var was, e := tail, p + csize as int;
      mavsum := MavlinkCrc(mavsum, Bits(seed));
      rxmavsum := Bits(b);
      GoOn(b);
      assert tail[1..e] == was[1..] && tail[p..e] == was[p..];
    }

    /** The loop of lookup. */
    method FindSeed(id: nat) returns (res: byte)
      ensures res == Lookup(seeds, id)
    {
      for i := 0 to |seeds|
        invariant Lookup(seeds[i..], id) == Lookup(seeds, id)
      {
        assert seeds[i..][1..] == seeds[i + 1..];
        if seeds[i].0 == id {
          return seeds[i].1;
        }
      }
      res := 0;
    }

    method Crc1(b: byte)
      requires Followed() && state == M_CRC1
      modifies `state, `tail, `fed, `mavsum, `rxmavsum
      ensures Followed() && fed == old(fed) + [b]
    {
      hide Follows, Counted, Sum, GoesOn, Checksum, Started, Fresh, Signing, Sized2, Summed;
      MiddleGoesOn(seeds, tail, b);
      state := M_CRC2;
      FirstCrc(b, 6);
    }

    method Crc1of2(b: byte)
      requires Followed() && state == M2_CRC1
      modifies `state, `tail, `fed, `mavsum, `rxmavsum
      ensures Followed() && fed == old(fed) + [b]
    {
      hide Follows, Counted, Sum, GoesOn, Checksum, Started, Fresh, Signing, Sized1, Summed;
      MiddleGoesOn(seeds, tail, b);
      state := M2_CRC2;
      FirstCrc(b, 10);
    }

    /** Counts a frame or its failure, and shows a good one. */
    method Record(vers: nat, ok: bool) returns (ghost e: MavEvent)
      requires Counted() && (vers == 1 || vers == 2) && this.vers as int == vers && csize as int <= |payload|
      modifies `out, `shown, `m1_ok, `m1_fail, `m2_ok, `m2_fail
      ensures Counted()
      ensures e == if ok then Accepted(vers, cmd, payload[..csize]) else Rejected(vers)
      ensures out == old(out) + [e]
    {
      hide Count, Shown;
      e := if ok then Accepted(vers, cmd, payload[..csize]) else Rejected(vers);
      CountGrows(out, e, 1, true);
      CountGrows(out, e, 1, false);
      CountGrows(out, e, 2, true);
      CountGrows(out, e, 2, false);
      ShownGrows(out, e);
      if ok {
        out := out + [Accepted(vers, cmd, payload[..csize])];
        if vers == 1 || csize != 0 {
          shown := shown + [Accepted(this.vers, cmd, payload[..csize])];
        } else {
          assert payload[..csize] == [];
          assert shown + [] == shown;
        }
      } else {
        out := out + [Rejected(vers)];
        assert shown + [] == shown;
      }
      if vers == 1 {
        if ok {
          m1_ok := m1_ok + 1;
        } else {
          m1_fail := m1_fail + 1;
        }
      } else if ok {
        m2_ok := m2_ok + 1;
      } else {
        m2_fail := m2_fail + 1;
      }
    }

    /** The whole checksum compared decides as the definition does. */
    lemma ComparesChecksum(b: byte, e: nat)
      requires Summed(e)
      ensures (rxmavsum + Bits(b) == mavsum) == Checked(seeds, tail + [b], e, cmd)
      ensures tail[e - csize as int..e] == payload[..csize]
    {
      assert (tail + [b])[1..e] == tail[1..e];
    }

    /** What the record will show is what the frame's definition reports. */
    lemma Verdict(b: byte)
      requires Valid() && state == M_CRC2
      ensures vers == 1
      ensures var ok := rxmavsum + Bits(b) == mavsum;
        Completes(seeds, tail, b, [if ok then Accepted(1, cmd, payload[..csize]) else Rejected(1)])
    {
      hide Sum, Completes, Checked, Checksum, Started, Fresh, Holding, Sized2, Signing;
      ComparesChecksum(b, 6 + csize as int);
      EndsVersion1(seeds, tail, b, rxmavsum + Bits(b) == mavsum);
    }

    lemma Verdict2(b: byte)
      requires Valid() && state == M2_CRC2
      ensures vers == 2 && tail != []
      ensures
        var ok := rxmavsum + Bits(b) == mavsum;
        var report := [if ok then Accepted(2, cmd, payload[..csize]) else Rejected(2)];
        if ok && mavsig != 0 then GoesOn(seeds, tail, b) && Signing(seeds, tail + [b], mavsig, report)
        else Completes(seeds, tail, b, report)
    {
      hide Sum, GoesOn, Completes, Checked, Checksum, Started, Fresh, Holding, Sized1, Signing;
      ComparesChecksum(b, 10 + csize as int);
      EndsVersion2(seeds, tail, b, rxmavsum + Bits(b) == mavsum);
    }

    method Crc2(b: byte)
      requires Followed() && state == M_CRC2
      modifies `state, `tail, `fed, `done, `early, `out, `shown, `m1_ok, `m1_fail, `m2_ok, `m2_fail
      ensures Followed() && fed == old(fed) + [b]
    {
      hide Follows, Counted, Sum, Completes, Signing, Started, Fresh, Holding, Sized1, Sized2, Checksum;
      Verdict(b);
      assert csize as int <= |payload|;
      ghost var e := Record(1, rxmavsum + Bits(b) == mavsum);
      state := UNKNOWN;
      Close(b, [e]);
    }

    method Crc2of2(b: byte)
      requires Followed() && state == M2_CRC2
      modifies `state, `tail, `fed, `done, `early, `out, `shown, `m1_ok, `m1_fail, `m2_ok, `m2_fail
      ensures Followed() && fed == old(fed) + [b]
    {
      hide Follows, Counted, Sum, GoesOn, Completes, Signing, Started, Fresh, Holding, Sized1, Sized2, Checksum, Bits;
      Verdict2(b);
      var ok := rxmavsum + Bits(b) == mavsum;
      ghost var e := Record(2, ok);
      Leave(b, ok, e);
    }

    /** Where the reader goes from S_M2_CRC2. */
    method Leave(b: byte, ok: bool, ghost e: MavEvent)
      requires |mavsum| == 16 && Follows(seeds, fed, tail, done) && early == [] && tail != [] && Versioned()
      requires if ok && mavsig != 0 then GoesOn(seeds, tail, b) && Signing(seeds, tail + [b], mavsig, [e])
               else Completes(seeds, tail, b, [e])
      modifies `state, `tail, `fed, `done, `early
      ensures Valid() && Follows(seeds, fed, tail, done) && done + early == old(done) + [e] && fed == old(fed) + [b]
    {
      hide Follows, GoesOn, Completes, Signing;
      if !ok || mavsig == 0 {
        state := UNKNOWN;
        Close(b, [e]);
      } else {
        state := M2_SIG;
        early := [e];
        GoOn(b);
      }
    }

    /** A signature byte. */
    method Signature(b: byte)
      requires Followed() && state == M2_SIG
      modifies `state, `tail, `fed, `done, `early, `mavsig
      ensures Followed() && fed == old(fed) + [b]
    {
      hide Follows, Counted, Sum, GoesOn, Completes, Checked, Report2;
      SignatureByte(seeds, tail, b, mavsig, early);
      mavsig := mavsig - 1;
      if mavsig == 0 {
        state := UNKNOWN;
        Close(b, early);
      } else {
        GoOn(b);
      }
    }

    /** The source's switch. */
    method Take(b: byte)
      requires Followed()
      modifies this
      ensures Followed() && fed == old(fed) + [b]
    {
      hide Followed;
      match state {
        case UNKNOWN => Unknown(b);
        case M_SIZE => Size1(b);
        case M2_SIZE => Size2(b);
        case M_SEQ => Skip(b);
        case M_ID1 => Skip(b);
        case M_ID2 => Skip(b);
        case M_MSGID => MsgId(b);
        case M_DATA => Data(b);
        case M_CRC1 => Crc1(b);
        case M_CRC2 => Crc2(b);
        case M2_FLG1 => Flags1(b);
        case M2_FLG2 => Skip2(b);
        case M2_SEQ => Skip2(b);
        case M2_ID1 => Skip2(b);
        case M2_ID2 => Skip2(b);
        case M2_MSGID0 => MsgId0(b);
        case M2_MSGID1 => MsgId1(b);
        case M2_MSGID2 => MsgId2(b);
        case M2_DATA => Data2(b);
        case M2_CRC1 => Crc1of2(b);
        case M2_CRC2 => Crc2of2(b);
        case M2_SIG => Signature(b);
      }
    }

    /** The source's loop over one chunk of input. */
    method Process(dat: seq<byte>)
      requires Followed()
      modifies this
      ensures Followed() && fed == old(fed) + dat
    {
      hide Followed;
      WholeOf(fed, dat);
      for i := 0 to |dat|
        invariant Followed() && fed == old(fed) + dat[..i]
      {
        NextOf(old(fed), dat, i);
        Take(dat[i]);
      }
    }
  }
}

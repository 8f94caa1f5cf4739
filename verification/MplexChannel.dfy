/** A channel of the multiplexer: the byte-at-a-time parser over its fixed buffer, and what it passes on. */
module MplexChannel {
  import opened Crc8
  import opened Framing
  import opened MspCodec
  import opened MspFrames
  import opened MplexFrames

  datatype State =
    | INIT | M | X_HEADER2 | X_FLAGS | X_ID1 | X_ID2 | X_LEN1 | X_LEN2 | X_DATA | X_CHECKSUM

  const SIZE: nat := 1024

  class SChan {
    var len: nat
    var count: nat
    var crc: sum
    const owner: byte
    var state: State
    const buf: array<byte>
    // what has been written to the serial line or, for the serial channel, to the clients
    var out: seq<seq<byte>>
    // the error replies written to the channel's own client
    var errors: seq<seq<byte>>
    // the bytes since the '$' that opened the frame under way
    ghost var tail: seq<byte>
    // all the bytes fed since the start
    ghost var fed: seq<byte>

    constructor (owner: byte)
      ensures Followed() && fed == [] && this.owner == owner && fresh(buf)
    {
      this.owner := owner;
      len, count, crc, state := 0, 0, 0, INIT;
      buf := new byte[SIZE](_ => 0);
      out, errors, tail, fed := [], [], [], [];
    }

    ghost predicate Headed(n: nat)
      reads this
    {
      |tail| == n && n >= 3 && tail[0] == DOLLAR && tail[1] == CHAR_X && IsDirection(Plex, tail[2]) && crc == Sum(tail)
    }

    ghost predicate Sized()
      reads this
    {
      Headed(|tail|) && |tail| >= 8 && len == Num16(tail[6], tail[7]) && count == |tail|
    }

    /** The fields hold what the bytes of the frame under way determine. */
    ghost predicate Valid()
      reads this, buf
    {
      && buf.Length == SIZE && |tail| <= SIZE && buf[..|tail|] == tail
      && match state
         case INIT => tail == []
         case M => tail == [DOLLAR]
         case X_HEADER2 => tail == [DOLLAR, CHAR_X]
         case X_FLAGS => |tail| == 3 && tail[0] == DOLLAR && tail[1] == CHAR_X && IsDirection(Plex, tail[2])
         case X_ID1 => Headed(4)
         case X_ID2 => Headed(5)
         case X_LEN1 => Headed(6)
         case X_LEN2 => Headed(7) && len == tail[6]
         case X_DATA => Sized() && |tail| < 8 + len
         case X_CHECKSUM => Sized() && |tail| == 8 + len
    }

    /** The channel has followed all the bytes fed to it. */
    ghost predicate Followed()
      reads this, buf
    {
      Valid() && Follows(owner, fed, tail, out)
    }

    /** Puts byte b of the frame under way, which it leaves unfinished, in its place k. */
    method Put(b: byte, k: nat)
      requires buf.Length == SIZE && |tail| == k < SIZE && buf[..k] == tail
      requires Follows(owner, fed, tail, out) && StaysOpen(tail, b)
      modifies buf, `tail, `fed
      ensures tail == old(tail) + [b] && buf[..|tail|] == tail && fed == old(fed) + [b] && Follows(owner, fed, tail, out)
    {
      hide Follows, StaysOpen;
      Continues(owner, fed, tail, b, out);
      buf[k] := b;
      tail, fed := tail + [b], fed + [b];
      assert buf[..k + 1] == buf[..k] + [b];
    }

    /** Byte b completes a unit of which nothing is passed on. */
    ghost method Drop(b: byte)
      requires Follows(owner, fed, tail, out) && Ends(owner, tail, b, [])
      modifies `tail, `fed
      ensures tail == [] && fed == old(fed) + [b] && Follows(owner, fed, tail, out)
    {
      hide Follows, Ends;
      Finishes(owner, fed, tail, b, out, []);
      assert out + [] == out;
      tail, fed := [], fed + [b];
    }

    /** Byte b completes a frame, which has been passed on. */
    ghost method Close(b: byte, was: seq<seq<byte>>, sent: seq<byte>)
      requires out == was + [sent] && Follows(owner, fed, tail, was) && Ends(owner, tail, b, [sent])
      modifies `tail, `fed
      ensures tail == [] && fed == old(fed) + [b] && Follows(owner, fed, tail, out)
    {
      hide Follows, Ends;
      Finishes(owner, fed, tail, b, was, [sent]);
      tail, fed := [], fed + [b];
    }

    method Init(b: byte)
      requires Followed() && state == INIT
      modifies buf, `tail, `fed, `state, `len
      ensures Followed() && fed == old(fed) + [b]
    {
      hide Follows;
      if b == DOLLAR {
        state, len := M, 0;
        Put(b, 0);
      } else {
        Drop(b);
      }
    }

    /** The byte after '$'. A version 1 frame, or anything else, is not passed on; a client is told so, if the datagram
        is long enough to hold its command. */
    method Kind(b: byte, inp: seq<byte>)
      requires Followed() && state == M
      modifies buf, `tail, `fed, `state, `len, `count, `errors
      ensures Followed() && fed == old(fed) + [b] && errors == old(errors) + Refusal(owner, b, inp)
    {
      hide Follows;
      if b == CHAR_X {
        state := X_HEADER2;
        Put(b, 1);
      } else {
        if owner != SERIAL && |inp| > 4 {
          SendErrorPacket(inp[4]);
        }
        state := INIT;
        Drop(b);
      }
    }

    method SendErrorPacket(cmd: byte)
      requires buf.Length == SIZE
      modifies buf, `len, `count, `errors
      ensures errors == old(errors) + [ErrorFrame(cmd)]
    {
      hide CrcOf;
      len, count := 0, 9;
      buf[0], buf[1], buf[2], buf[3], buf[4], buf[5], buf[6], buf[7] := DOLLAR, CHAR_X, BANG, 0, cmd, 0, 0, 0;
      ghost var v := buf[..count];
      assert v[3..8] == V2Body(0, cmd, []);
      var crc := CrcOfBuffer();
      buf[8] := Byte(crc);
      assert buf[..count] == v[8 := Byte(crc)] == [DOLLAR, CHAR_X, BANG] + v[3..8] + [Byte(crc)];
      errors := errors + [buf[..count]];
    }

    method Direction(b: byte)
      requires Followed() && state == X_HEADER2
      modifies buf, `tail, `fed, `state
      ensures Followed() && fed == old(fed) + [b]
    {
      hide Follows;
      if b == BANG || b == GREATER || b == LESS {
        state := X_FLAGS;
        Put(b, 2);
      } else {
        buf[2] := b;
        state := INIT;
        Drop(b);
      }
    }

    /** A byte under the checksum, after which the frame goes on. */
    method Add(b: byte, k: nat)
      requires buf.Length == SIZE && |tail| == k < SIZE && buf[..k] == tail && k >= 3 && tail[1] == CHAR_X
      requires crc == Sum(tail) && Follows(owner, fed, tail, out) && StaysOpen(tail, b)
      modifies buf, `tail, `fed, `crc
      ensures tail == old(tail) + [b] && buf[..|tail|] == tail && fed == old(fed) + [b]
      ensures crc == Sum(tail) && Follows(owner, fed, tail, out)
    {
      hide Follows, StaysOpen;
      SumGrows(tail, b);
      crc := Crc8DvbS2(crc, b);
      Put(b, k);
    }

    method Flags(b: byte)
      requires Followed() && state == X_FLAGS
      modifies buf, `tail, `fed, `crc, `state
      ensures Followed() && fed == old(fed) + [b]
    {
      hide Follows;
      crc := 0;
      Add(b, 3);
      state := X_ID1;
    }

    method Id(b: byte)
      requires Followed() && (state == X_ID1 || state == X_ID2)
      modifies buf, `tail, `fed, `crc, `state
      ensures Followed() && fed == old(fed) + [b]
    {
      hide Follows, Sum;
      Add(b, if state == X_ID1 then 4 else 5);
      state := if state == X_ID1 then X_ID2 else X_LEN1;
    }

    method Len1(b: byte)
      requires Followed() && state == X_LEN1
      modifies buf, `tail, `fed, `crc, `state, `len
      ensures Followed() && fed == old(fed) + [b]
    {
      hide Follows, Sum;
      Add(b, 6);
      len, state := b, X_LEN2;
    }

    method Len2(b: byte)
      requires Followed() && state == X_LEN2
      modifies buf, `tail, `fed, `crc, `state, `len, `count
      ensures Followed() && fed == old(fed) + [b]
    {
      hide Follows, Sum;
      Add(b, 7);
      len, count := len + 256 * b, 8;
      state := if len > 0 then X_DATA else X_CHECKSUM;
    }

    method Data(b: byte)
      requires Followed() && state == X_DATA && count < SIZE
      modifies buf, `tail, `fed, `crc, `state, `count
      ensures Followed() && fed == old(fed) + [b]
    {
      hide Follows, Sum;
      Add(b, count);
      count := count + 1;
      if count == 8 + len {
        state := X_CHECKSUM;
      }
    }

    /** The checksum byte. The frame is passed on if it fits. */
    method Checksum(b: byte)
      requires Followed() && state == X_CHECKSUM && count < SIZE
      modifies buf, `tail, `fed, `state, `count, `out
      ensures Followed() && fed == old(fed) + [b]
    {
      hide Follows, Sum, Marked, Ends;
      ghost var u := tail + [b];
      EndsInChecksum(b);
      buf[count] := b;
      count := count + 1;
      assert buf[..count] == u by { assert buf[..count] == buf[..count - 1] + [b]; }
      if Byte(crc) == b {
        Publish(u);
        state := INIT;
        Close(b, old(out), Marked(owner, u));
      } else {
        state := INIT;
        Drop(b);
      }
    }

    lemma EndsInChecksum(b: byte)
      requires Sized() && |tail| == 8 + len
      ensures Ends(owner, tail, b, if Byte(crc) == b then [Marked(owner, tail + [b])] else [])
    {
      hide Marked, Sum;
      SumIsChecksum(tail);
      assert (tail + [b])[3..|tail|] == tail[3..];
    }

    /** Writes the frame in the buffer, marked with its owner if it is for the serial line. */
    method Publish(ghost u: seq<byte>)
      requires buf.Length == SIZE && 9 <= count <= SIZE && buf[..count] == u && count == 9 + len
      modifies buf, `out
      ensures out == old(out) + [Marked(owner, u)]
    {
      if owner != SERIAL {
        Reencode(u);
      }
      out := out + [buf[..count]];
    }

    method Reencode(ghost u: seq<byte>)
      requires buf.Length == SIZE && 9 <= count <= SIZE && buf[..count] == u && count == 9 + len && owner != SERIAL
      modifies buf
      ensures buf[..count] == Marked(owner, u)
    {
      if owner != 0 {
        OrByte(buf[3], 4 * owner % 0x100);
        buf[3] := Or(buf[3], 4 * owner % 0x100);
        ghost var v := buf[..count];
        assert v == u[3 := v[3]];
        var sum := CrcOfBuffer();
        buf[8 + len] := Byte(sum);
        assert buf[..count] == v[count - 1 := Byte(sum)];
      }
    }

    /** The source's loop over the bytes under the checksum. */
    method CrcOfBuffer() returns (c: sum)
      requires buf.Length == SIZE && 9 <= count <= SIZE && count == 9 + len
      ensures c == CrcOf(0, buf[..count][3..count - 1])
    {
      c := 0;
      ghost var v := buf[..count];
      for i := 3 to len + 8
        invariant c == CrcOf(0, v[3..i])
      {
        FoldsGrow(0, v[3..i], v[i]);
        NextOf3(v, i);
        c := Crc8DvbS2(c, buf[i]);
      }
    }

    /** One byte of input; beyond the buffer's end the program stops. */
    method Take(b: byte, inp: seq<byte>) returns (crashed: bool)
      requires Followed()
      modifies this, buf
      ensures crashed == (old(|tail|) >= SIZE)
      ensures !crashed ==> Followed() && fed == old(fed) + [b] && errors == old(errors) + Complaint(owner, old(tail), b, inp)
    {
      hide Follows, Sum;
      crashed := false;
      match state {
        case INIT => Init(b);
        case M => Kind(b, inp);
        case X_HEADER2 => Direction(b);
        case X_FLAGS => Flags(b);
        case X_ID1 => Id(b);
        case X_ID2 => Id(b);
        case X_LEN1 => Len1(b);
        case X_LEN2 => Len2(b);
        case X_DATA =>
          if count < SIZE {
            Data(b);
          } else {
            crashed := true;
          }
        case X_CHECKSUM =>
          if count < SIZE {
            Checksum(b);
          } else {
            crashed := true;
          }
      }
    }

    /** The source's loop over one chunk of input. */
    method MspParse(inp: seq<byte>) returns (crashed: bool)
      requires Followed()
      modifies this, buf
      ensures crashed <==> !Fits(owner, old(fed), inp)
      ensures !crashed ==> Followed() && fed == old(fed) + inp && out == old(out) + New(owner, old(fed), inp)
      ensures !crashed ==> out[|old(out)|..] == New(owner, old(fed), inp)
      ensures !crashed ==> errors == old(errors) + Errors(owner, old(fed), inp, |inp|)
    {
      hide Valid, Follows, Tail, Events, Complaint, Errors;
      ErrorsNone(owner, fed, inp);
      WholeOf(fed, inp);
      for i := 0 to |inp|
        invariant Followed() && fed == old(fed) + inp[..i] && errors == old(errors) + Errors(owner, old(fed), inp, i)
        invariant forall k | 0 <= k < i :: |Tail(Chan(owner), old(fed) + inp[..k])| < SIZE
      {
        NextOf(old(fed), inp, i);
        TailOf(owner, fed, tail, out);
        ErrorsNext(owner, old(fed), inp, i);
        crashed := Take(inp[i], inp);
        if crashed {
          return true;
        }
      }
      NewOnes(owner, old(fed), old(tail), old(out), inp, tail, out);
      crashed := false;
    }
  }

  // ---------- error replies ----------

  function ErrorFrame(cmd: byte): seq<byte> {
    V2Frame(BANG, 0, cmd, [])
  }

  /** The error reply to a byte after '$', which names the fifth byte of the datagram. */
  function Refusal(owner: byte, b: byte, inp: seq<byte>): seq<seq<byte>> {
    if b != CHAR_X && owner != SERIAL && |inp| > 4 then [ErrorFrame(inp[4])] else []
  }

  function Complaint(owner: byte, tail: seq<byte>, b: byte, inp: seq<byte>): seq<seq<byte>> {
    if tail == [DOLLAR] then Refusal(owner, b, inp) else []
  }

  /** The error replies to the first n bytes of a datagram. */
  ghost function Errors(owner: byte, fed: seq<byte>, inp: seq<byte>, n: nat): seq<seq<byte>>
    requires n <= |inp|
  {
    if n == 0 then []
    else Errors(owner, fed, inp, n - 1) + Complaint(owner, Tail(Chan(owner), fed + inp[..n - 1]), inp[n - 1], inp)
  }

  lemma ErrorsNone(owner: byte, fed: seq<byte>, inp: seq<byte>)
    ensures Errors(owner, fed, inp, 0) == []
  {
  }

  lemma ErrorsNext(owner: byte, fed: seq<byte>, inp: seq<byte>, i: nat)
    requires i < |inp|
    ensures Errors(owner, fed, inp, i + 1)
      == Errors(owner, fed, inp, i) + Complaint(owner, Tail(Chan(owner), fed + inp[..i]), inp[i], inp)
  {
    hide Tail, Complaint;
  }

  /** All error replies to a datagram name the same command, however many requests it holds. */
  lemma {:induction false} ErrorsNameFifth(owner: byte, fed: seq<byte>, inp: seq<byte>, n: nat)
    requires n <= |inp|
    ensures forall e | e in Errors(owner, fed, inp, n) :: |inp| > 4 && owner != SERIAL && e == ErrorFrame(inp[4])
  {
    hide Tail, ErrorFrame;
    if n > 0 {
      ErrorsNameFifth(owner, fed, inp, n - 1);
    }
  }

  lemma FrameUnit(dirn: byte, flags: byte, cmd: nat, payload: seq<byte>)
    requires IsDirection(Plex, dirn) && cmd < 0x1_0000 && |payload| < 0x1_0000
    ensures var u := V2Frame(dirn, flags, cmd, payload); Whole(u) && u[3] == flags && |u| == 9 + |payload|
  {
    var body := V2Body(flags, cmd, payload);
    var u := V2Frame(dirn, flags, cmd, payload);
    assert u[3..|u| - 1] == body;
    assert |payload| / 0x100 < 0x100;
  }

  /** Every error reply is a whole frame of its own with the direction '!', no flags, the command in two bytes and no
      payload. */
  lemma ErrorsAreWhole(owner: byte, fed: seq<byte>, inp: seq<byte>, n: nat)
    requires n <= |inp|
    ensures forall e | e in Errors(owner, fed, inp, n) ::
      && |inp| > 4 && Whole(e) && |e| == 9 && e[2] == 0x21 && e[3] == 0
      && e[4] == inp[4] && e[5] == 0 && e[6] == 0 && e[7] == 0
  {
    hide Errors, Whole, CrcOf;
    ErrorsNameFifth(owner, fed, inp, n);
    if |inp| > 4 {
      FrameUnit(BANG, 0, inp[4], []);
    }
  }

  /** A client's version 1 request at the front of a datagram is answered first, with an error that names its command. */
  lemma Version1IsRefused(owner: byte, fed: seq<byte>, dirn: byte, cmd: byte, payload: seq<byte>, rest: seq<byte>, n: nat)
    requires owner != SERIAL && Tail(Chan(owner), fed) == [] && |payload| < 0x100
    requires 2 <= n <= |V1Frame(dirn, cmd, payload) + rest|
    ensures var es := Errors(owner, fed, V1Frame(dirn, cmd, payload) + rest, n); es != [] && es[0] == ErrorFrame(cmd)
  {
    hide Tail, ErrorFrame, XorOf;
    var inp := V1Frame(dirn, cmd, payload) + rest;
    AfterDollar(owner, fed);
    assert inp[..1] == [DOLLAR] && fed + inp[..0] == fed;
    assert Errors(owner, fed, inp, 0) == [] && Errors(owner, fed, inp, 1) == [];
    assert Errors(owner, fed, inp, 2) == [ErrorFrame(cmd)];
    ErrorsGrow(owner, fed, inp, 2, n);
  }

  lemma ErrorFramesDiffer(a: byte, b: byte)
    ensures ErrorFrame(a) == ErrorFrame(b) <==> a == b
  {
    hide CrcOf;
    assert ErrorFrame(a)[4] == a && ErrorFrame(b)[4] == b;
  }

  /** The error reply to a version 1 request that starts anywhere in a datagram, at j, names the request's command if and
      only if that is what the datagram's fifth byte says. */
  lemma NamedExactly(owner: byte, fed: seq<byte>, inp: seq<byte>, j: nat)
    requires owner != SERIAL && j + 4 < |inp| && inp[j + 1] != CHAR_X
    requires Tail(Chan(owner), fed + inp[..j + 1]) == [DOLLAR]
    ensures Errors(owner, fed, inp, j + 2) == Errors(owner, fed, inp, j + 1) + [ErrorFrame(inp[j + 4])]
       <==> inp[j + 4] == inp[4]
  {
    hide Tail, ErrorFrame, Errors;
    ErrorsNext(owner, fed, inp, j + 1);
    ErrorFramesDiffer(inp[j + 4], inp[4]);
    var es := Errors(owner, fed, inp, j + 1);
    assert (es + [ErrorFrame(inp[4])])[|es|] == ErrorFrame(inp[4]);
    assert (es + [ErrorFrame(inp[j + 4])])[|es|] == ErrorFrame(inp[j + 4]);
  }

  /** Where no byte follows a '$', nothing is complained of. */
  lemma {:induction false} NoComplaints(owner: byte, fed: seq<byte>, inp: seq<byte>, m: nat, n: nat)
    requires m <= n <= |inp| && forall i | m <= i < n :: Tail(Chan(owner), fed + inp[..i]) == []
    ensures Errors(owner, fed, inp, n) == Errors(owner, fed, inp, m)
  {
    hide Tail, Refusal, Chan;
    if m < n {
      NoComplaints(owner, fed, inp, m, n - 1);
    }
  }

  /** The second of two requests in a datagram is answered for the first one's command, whatever its own. */
  lemma SecondIsMisnamed(owner: byte, fed: seq<byte>, dirn: byte, a: byte, payload: seq<byte>, next: seq<byte>)
    requires owner != SERIAL && Tail(Chan(owner), fed) == [] && |payload| < 0x100
    requires DOLLAR !in V1Frame(dirn, a, payload)[1..]
    requires |next| >= 2 && next[0] == DOLLAR && next[1] != CHAR_X
    ensures var first := V1Frame(dirn, a, payload);
      Errors(owner, fed, first + next, |first| + 2) == [ErrorFrame(a), ErrorFrame(a)]
  {
    hide Tail, ErrorFrame, XorOf, Errors;
    var first := V1Frame(dirn, a, payload);
    var inp, k := first + next, |first|;
    Version1IsRefused(owner, fed, dirn, a, payload, next, 2);
    ErrorsAtMost(owner, fed, inp, 2);
    forall i | 2 <= i <= k ensures Tail(Chan(owner), fed + inp[..i]) == [] {
      assert inp[..i] == [DOLLAR, CHAR_M] + first[2..i];
      AfterRefusal(owner, fed, first[2..i]);
    }
    NoComplaints(owner, fed, inp, 2, k + 1);
    AfterDollar(owner, fed + inp[..k]);
    assert fed + inp[..k] + [DOLLAR] == fed + inp[..k + 1];
    ErrorsNext(owner, fed, inp, k + 1);
  }

  /** The first two bytes of a datagram bring at most one error reply. */
  lemma ErrorsAtMost(owner: byte, fed: seq<byte>, inp: seq<byte>, n: nat)
    requires n == 2 <= |inp| && Tail(Chan(owner), fed) == []
    ensures |Errors(owner, fed, inp, n)| <= 1
  {
    hide Tail;
    assert fed + inp[..0] == fed;
    assert Errors(owner, fed, inp, 1) == Errors(owner, fed, inp, 0) == [];
  }

  lemma NoiseEvents(owner: byte, noise: seq<byte>)
    requires DOLLAR !in noise
    ensures Events(Chan(owner), noise) == [] && Tail(Chan(owner), noise) == []
  {
    ChanIsStable(owner);
    forall i | 0 <= i < |noise| ensures Chan(owner).need([noise[i]]) == 1 && Chan(owner).report([noise[i]]) == [] {
      assert noise[i] in noise;
    }
    NoiseIsSkipped(Chan(owner), noise, []);
    assert noise + [] == noise;
    assert Events(Chan(owner), []) == [] && Tail(Chan(owner), []) == [];
  }

  /** After a '$' that is not followed by 'X' the channel waits for the next one. */
  lemma AfterRefusal(owner: byte, fed: seq<byte>, noise: seq<byte>)
    requires Tail(Chan(owner), fed) == [] && DOLLAR !in noise
    ensures Tail(Chan(owner), fed + ([DOLLAR, CHAR_M] + noise)) == []
  {
    hide Tail, Events;
    var head := [DOLLAR, CHAR_M];
    ChanIsStable(owner);
    EventsContinue(Chan(owner), fed, head + noise);
    assert [] + (head + noise) == head + noise;
    UnitFirst(Chan(owner), head, noise);
    NoiseEvents(owner, noise);
  }

  /** A datagram of two requests, for commands 1 and 2: both replies name command 1. */
  lemma TwoRequests(owner: byte)
    requires owner != SERIAL
    ensures var inp := V1Frame(LESS, 1, []) + V1Frame(LESS, 2, []);
      |inp| == 12 && Errors(owner, [], inp, 8) == [ErrorFrame(1), ErrorFrame(1)] && ErrorFrame(1) != ErrorFrame(2)
  {
    hide ErrorFrame, XorOf, Errors;
    SumOf1();
    ErrorFramesDiffer(1, 2);
    SecondIsMisnamed(owner, [], LESS, 1, [], V1Frame(LESS, 2, []));
  }

  lemma SumOf1()
    ensures DOLLAR !in V1Frame(LESS, 1, [])[1..]
  {
    var body: seq<byte> := [0, 1] + [];
    assert XorOf(body) == Xor(Xor(0, 0), 1) by {
      assert body[..1] == [0] && [0][..0] == [];
      assert XorOf([0]) == Xor(XorOf([]), 0);
    }
    assert V1Frame(LESS, 1, [])[1..] == [CHAR_M, LESS, 0, 1, Byte(XorOf(body))];
  }

  lemma AfterDollar(owner: byte, fed: seq<byte>)
    requires Tail(Chan(owner), fed) == []
    ensures Tail(Chan(owner), fed + [DOLLAR]) == [DOLLAR]
  {
    ChanIsStable(owner);
    EventsContinue(Chan(owner), fed, [DOLLAR]);
    assert [] + [DOLLAR] == [DOLLAR];
  }

  lemma {:induction false} ErrorsGrow(owner: byte, fed: seq<byte>, inp: seq<byte>, m: nat, n: nat)
    requires m <= n <= |inp|
    ensures Errors(owner, fed, inp, m) <= Errors(owner, fed, inp, n)
  {
    hide Tail, Complaint;
    if m < n {
      ErrorsGrow(owner, fed, inp, m, n - 1);
    }
  }

  lemma NextOf3(v: seq<byte>, i: nat)
    requires 3 <= i < |v|
    ensures v[3..i] + [v[i]] == v[3..i + 1]
  {
  }

  /** No byte of this input would have to be stored beyond the end of the buffer. */
  ghost predicate Fits(owner: byte, fed: seq<byte>, inp: seq<byte>) {
    forall k | 0 <= k < |inp| :: |Tail(Chan(owner), fed + inp[..k])| < SIZE
  }
}

/** What the MAVLink reader makes of frames damaged in two adjacent bytes. */
module MavErrors {
  import opened Framing
  import opened MavCodec
  import opened MavCrc
  import opened MavFrames

  function Damaged(u: seq<byte>, i: nat, x: byte, y: byte): (r: seq<byte>)
    requires i + 1 < |u|
    ensures |r| == |u|
  {
    u[i := x][i + 1 := y]
  }

  lemma DamagedParts(u: seq<byte>, e: nat, i: nat, x: byte, y: byte)
    requires 1 <= i && i + 1 < e < |u|
    ensures u[1..e] == u[1..i] + [u[i], u[i + 1]] + u[i + 2..e]
    ensures Damaged(u, i, x, y)[1..e] == u[1..i] + [x, y] + u[i + 2..e]
  {
  }

  /** The checksum of a valid frame no longer fits when two adjacent bytes before it, or the checksum itself, change. */
  lemma SeesTwoBytes(seeds: Seeds, u: seq<byte>, e: nat, cmd: nat, i: nat, x: byte, y: byte)
    requires 1 <= i && e + 2 <= |u| && (i + 1 < e || i == e) && Checked(seeds, u, e, cmd)
    requires x != u[i] || y != u[i + 1]
    ensures !Checked(seeds, Damaged(u, i, x, y), e, cmd)
  {
    var u' := Damaged(u, i, x, y);
    if i == e {
      hide BitsOf, CrcFrom, Lookup;
      assert u'[1..e] == u[1..e];
      if Checked(seeds, u', e, cmd) {
        PairsDiffer(u[e], u[e + 1], x, y);
      }
    } else {
      hide BitsOf, CrcFrom, Lookup, Step, Damaged, Bits;
      DamagedParts(u, e, i, x, y);
      CrcSeesTwoBytes(Ones(), u[1..i], u[i], u[i + 1], x, y, u[i + 2..e]);
      SumSeesIt(seeds, u, u', e, cmd);
      assert u'[e] == u[e] && u'[e + 1] == u[e + 1] by { AfterDamage(u, i, x, y, e); }
    }
  }

  lemma AfterDamage(u: seq<byte>, i: nat, x: byte, y: byte, e: nat)
    requires i + 1 < e && e + 2 <= |u|
    ensures Damaged(u, i, x, y)[e] == u[e] && Damaged(u, i, x, y)[e + 1] == u[e + 1]
  {
  }

  lemma SumSeesIt(seeds: Seeds, u: seq<byte>, u': seq<byte>, e: nat, cmd: nat)
    requires 1 <= e <= |u| && e <= |u'| && CrcFrom(Ones(), u[1..e]) != CrcFrom(Ones(), u'[1..e])
    ensures Checksum(seeds, u, e, cmd) != Checksum(seeds, u', e, cmd)
  {
    hide CrcFrom, Step;
    if Checksum(seeds, u, e, cmd) == Checksum(seeds, u', e, cmd) {
      StepInjective(CrcFrom(Ones(), u[1..e]), CrcFrom(Ones(), u'[1..e]), Bits(Lookup(seeds, cmd)));
    }
  }

  lemma PairsDiffer(a: byte, b: byte, x: byte, y: byte)
    requires Bits(a) + Bits(b) == Bits(x) + Bits(y)
    ensures a == x && b == y
  {
    assert Bits(a) == (Bits(a) + Bits(b))[..8] && Bits(x) == (Bits(x) + Bits(y))[..8];
    assert Bits(b) == (Bits(a) + Bits(b))[8..] && Bits(y) == (Bits(x) + Bits(y))[8..];
    BytesDiffer(a, x);
    BytesDiffer(b, y);
  }

  /** A change of the last byte before the checksum together with the first of the checksum goes unnoticed. */
  predicate Silently(u: seq<byte>, e: nat, i: nat, x: byte, y: byte)
    requires 1 <= e < |u|
  {
    i + 1 == e && Xor(Bits(u[i]), Bits(x)) == Bits(SILENT) && Xor(Bits(u[e]), Bits(y)) == Bits(SILENT_SUM)
  }

  lemma LastApart(u: seq<byte>, e: nat, x: byte, y: byte)
    requires 2 <= e && e + 1 < |u|
    ensures u[1..e] == u[1..e - 1] + [u[e - 1]] && Damaged(u, e - 1, x, y)[1..e] == u[1..e - 1] + [x]
    ensures Damaged(u, e - 1, x, y)[e] == y && Damaged(u, e - 1, x, y)[e + 1] == u[e + 1]
  {
  }

  /** The change of the checksum that a change of the last byte before it makes. */
  lemma SumMoves(seeds: Seeds, u: seq<byte>, e: nat, cmd: nat, x: byte, y: byte)
    requires 2 <= e && e + 1 < |u|
    ensures Xor(Checksum(seeds, u, e, cmd), Checksum(seeds, Damaged(u, e - 1, x, y), e, cmd)) == Twice(Xor(Bits(u[e - 1]), Bits(x)))
  {
    hide CrcFrom, Step, Twice, Bits, Lookup, Damaged;
    LastApart(u, e, x, y);
    CrcGrows(Ones(), u[1..e - 1], u[e - 1]);
    CrcGrows(Ones(), u[1..e - 1], x);
    AfterTwoSteps(CrcFrom(Ones(), u[1..e - 1]), Bits(u[e - 1]), Bits(x), Bits(Lookup(seeds, cmd)));
  }

  lemma SameWord(s: word, s': word, w: word)
    requires |s| == |s'| == |w|
    ensures w == s' <==> Xor(s, w) == Xor(s, s')
  {
    if Xor(s, w) == Xor(s, s') {
      forall i | 0 <= i < |s| ensures w[i] == s'[i] {
        assert Xor(s, w)[i] == Xor(s, s')[i];
      }
    }
  }

  /** No difference in either byte means no change. */
  lemma NoDifference(a: byte, x: byte)
    ensures Xor(Bits(a), Bits(x)) == Zero(8) <==> a == x
  {
    hide Bits, Xor;
    XorZero(Bits(a), Bits(x));
    if Bits(a) == Bits(x) {
      BytesDiffer(a, x);
    }
  }

  lemma TwiceOfZero()
    ensures Twice(Zero(8)) == Zero(16) && Bits(SILENT) != Zero(8)
  {
    hide Kernel, Twice, Bits;
    SilentBits();
    assert Bits(SILENT)[0] && !Zero(8)[0];
    KernelOfZero();
    assert Low(Kernel(Zero(8))) == Zero(8);
    forall i | 0 <= i < 16 ensures !Twice(Zero(8))[i] {
      TwiceAt(Zero(8), i);
    }
  }

  lemma XorHalves(a: word, b: word, a': word, d: word)
    requires |a| == |a'| == |b| == 8 && |d| == 16
    ensures Xor(a + b, a' + b) == d <==> Xor(a, a') == d[..8] && d[8..] == Zero(8)
  {
    XorZero(b, b);
    var f := Xor(a, a');
    assert Xor(a + b, a' + b) == f + Zero(8);
    assert (f + Zero(8))[..8] == f && (f + Zero(8))[8..] == Zero(8);
    if f == d[..8] && d[8..] == Zero(8) {
      assert d == d[..8] + d[8..] == f + Zero(8);
    }
  }

  /** Across the border to the checksum exactly one pair of differences goes unnoticed. */
  lemma BorderExactly(seeds: Seeds, u: seq<byte>, e: nat, cmd: nat, x: byte, y: byte)
    requires 2 <= e && e + 1 < |u| && Checked(seeds, u, e, cmd) && (x != u[e - 1] || y != u[e])
    ensures Checked(seeds, Damaged(u, e - 1, x, y), e, cmd) <==> Silently(u, e, e - 1, x, y)
  {
    hide Checksum, Twice, Bits, Damaged;
    var u' := Damaged(u, e - 1, x, y);
    var f, g := Xor(Bits(u[e - 1]), Bits(x)), Xor(Bits(u[e]), Bits(y));
    LastApart(u, e, x, y);
    SumMoves(seeds, u, e, cmd, x, y);
    var s, s' := Checksum(seeds, u, e, cmd), Checksum(seeds, u', e, cmd);
    SameWord(s, s', Bits(y) + Bits(u[e + 1]));
    XorHalves(Bits(u[e]), Bits(u[e + 1]), Bits(y), Twice(f));
    NoDifference(u[e - 1], x);
    NoDifference(u[e], y);
    TwiceOfZero();
    if f == Zero(8) {
      assert Zero(16)[..8] == Zero(8);
    } else {
      SilentExactly(f);
    }
  }

  /** A valid frame changed in two adjacent bytes from its second on, the kind of message kept: the checksum fits only
      across its border, and there for exactly one pair of differences. */
  lemma DamageExactly(seeds: Seeds, u: seq<byte>, e: nat, cmd: nat, i: nat, x: byte, y: byte)
    requires 1 <= i && 2 <= e && e + 2 == |u| && i + 1 < |u| && Checked(seeds, u, e, cmd)
    requires x != u[i] || y != u[i + 1]
    ensures Checked(seeds, Damaged(u, i, x, y), e, cmd) <==> Silently(u, e, i, x, y)
  {
    hide Checked, Damaged, Silently;
    if i + 1 == e {
      BorderExactly(seeds, u, e, cmd, x, y);
    } else {
      SeesTwoBytes(seeds, u, e, cmd, i, x, y);
      NotAtBorder(u, e, i, x, y);
    }
  }

  lemma NotAtBorder(u: seq<byte>, e: nat, i: nat, x: byte, y: byte)
    requires 1 <= e < |u| && i + 1 != e
    ensures !Silently(u, e, i, x, y)
  {
  }

  /** The damage leaves the start byte, the length and the message id of a version 1 frame as they were. */
  predicate Keeps1(u: seq<byte>, u': seq<byte>)
    requires |u| == |u'| >= 8
  {
    u'[0] == u[0] && u'[1] == u[1] && u'[5] == u[5]
  }

  /** The damage leaves the start byte, the length, the flags and the message id of a version 2 frame as they were. */
  predicate Keeps2(u: seq<byte>, u': seq<byte>)
    requires |u| == |u'| >= 12
  {
    u'[0] == u[0] && u'[1] == u[1] && u'[2] == u[2] && u'[7] == u[7] && u'[8] == u[8] && u'[9] == u[9]
  }

  /** A version 1 frame of any length, changed in any two adjacent bytes but with its start byte, length and message id
      kept, is rejected in its place and leaves the rest of the stream unaffected, unless the change is the silent one
      across the border to the checksum; then it is accepted with its last byte changed. */
  lemma Version1SeesTwoBytes(seeds: Seeds, seqno: byte, sys: byte, comp: byte, cmd: byte, payload: seq<byte>,
                                                i: nat, x: byte, y: byte, rest: seq<byte>)
    requires |payload| < 0x100 && i + 1 < 8 + |payload|
    requires var u := Framed(seeds, STX1, Body1(seqno, sys, comp, cmd, payload), cmd);
      |u| == 8 + |payload| && (x != u[i] || y != u[i + 1]) && Keeps1(u, Damaged(u, i, x, y))
    ensures var u := Framed(seeds, STX1, Body1(seqno, sys, comp, cmd, payload), cmd);
      var u', e := Damaged(u, i, x, y), 6 + |payload|;
      Events(Mav(seeds), u' + rest)
        == [if Silently(u, e, i, x, y) then Accepted(1, cmd, u'[6..e]) else Rejected(1)] + Events(Mav(seeds), rest)
  {
    hide Checked, Framed, Events, Silently, Damaged;
    var body := Body1(seqno, sys, comp, cmd, payload);
    var u := Framed(seeds, STX1, body, cmd);
    var u', e := Damaged(u, i, x, y), |body| + 1;
    FramedIsChecked(seeds, STX1, body, cmd, []);
    assert u + [] == u;
    FieldsOf(u, body);
    assert u[1] == body[0] && u[5] == body[4];
    FirstStays(u, i, x, y);
    DamageExactly(seeds, u, e, cmd, i, x, y);
    Verdict1(seeds, u', Silently(u, e, i, x, y));
    FrameFirst(seeds, u', rest);
  }

  /** A change of the first byte alone is none. */
  lemma FirstStays(u: seq<byte>, i: nat, x: byte, y: byte)
    requires i + 1 < |u| && (x != u[i] || y != u[i + 1]) && Damaged(u, i, x, y)[0] == u[0] && Damaged(u, i, x, y)[1] == u[1]
    ensures i >= 1
  {
  }

  lemma Verdict1(seeds: Seeds, u: seq<byte>, ok: bool)
    requires |u| >= 8 && u[0] == STX1 && |u| - 8 == u[1] as int && ok == Checked(seeds, u, |u| - 2, u[5])
    ensures Need(seeds, u) == |u|
    ensures Report(seeds, u) == [if ok then Accepted(1, u[5], u[6..|u| - 2]) else Rejected(1)]
  {
    hide Checked;
  }

  /** Likewise a version 2 frame with its start byte, length, flags and message id kept. What follows the checksum of a
      rejected frame, a signature included, is read as the start of the rest of the stream; an accepted one without a
      signature leaves the rest as it is, and one with a signature takes that first, waiting for it if need be. */
  lemma Version2SeesTwoBytes(seeds: Seeds, flags: byte, compat: byte, seqno: byte, sys: byte, comp: byte,
                                                cmd: nat, payload: seq<byte>, i: nat, x: byte, y: byte, rest: seq<byte>)
    requires |payload| < 0x100 && cmd < 0x100_0000 && i + 1 < 12 + |payload|
    requires var u := Framed(seeds, STX2, Body2(flags, compat, seqno, sys, comp, cmd, payload), cmd);
      |u| == 12 + |payload| && (x != u[i] || y != u[i + 1]) && Keeps2(u, Damaged(u, i, x, y))
    ensures var u := Framed(seeds, STX2, Body2(flags, compat, seqno, sys, comp, cmd, payload), cmd);
      var u', e := Damaged(u, i, x, y), 10 + |payload|;
      && (!Silently(u, e, i, x, y) ==> Events(Mav(seeds), u' + rest) == [Rejected(2)] + Events(Mav(seeds), rest))
      && (Silently(u, e, i, x, y) && flags % 2 == 0 ==>
            Events(Mav(seeds), u' + rest) == [Accepted(2, cmd, u'[10..e])] + Events(Mav(seeds), rest))
      && (Silently(u, e, i, x, y) && flags % 2 == 1 && |rest| >= SIGNATURE ==>
            Events(Mav(seeds), u' + rest) == [Accepted(2, cmd, u'[10..e])] + Events(Mav(seeds), rest[SIGNATURE..]))
      && (Silently(u, e, i, x, y) && flags % 2 == 1 && |rest| < SIGNATURE ==> Tail(Mav(seeds), u' + rest) == u' + rest)
  {
    hide Checked, Framed, Events, Tail, Silently, Damaged, Mav, Cmd2, IsSigned;
    var body := Body2(flags, compat, seqno, sys, comp, cmd, payload);
    var u := Framed(seeds, STX2, body, cmd);
    var u', e := Damaged(u, i, x, y), 10 + |payload|;
    assert u + [] == u;
    Frame2Fields(seeds, body, flags, compat, seqno, sys, comp, cmd, payload, []);
    FirstStays(u, i, x, y);
    DamageExactly(seeds, u, e, cmd, i, x, y);
    SameKind(u, u');
    Outcome2(seeds, u', Silently(u, e, i, x, y), rest);
  }

  lemma SameKind(u: seq<byte>, u': seq<byte>)
    requires |u| == |u'| >= 12 && Keeps2(u, u')
    ensures Cmd2(u') == Cmd2(u) && Base2(u') == Base2(u) && u'[0] == u[0] && IsSigned(u') == IsSigned(u)
  {
  }

  /** What a version 2 frame is taken for, given whether its checksum fits. */
  lemma Outcome2(seeds: Seeds, u: seq<byte>, ok: bool, rest: seq<byte>)
    requires |u| >= 12 && u[0] == STX2 && |u| == Base2(u) && ok == Checked(seeds, u, |u| - 2, Cmd2(u))
    ensures var accepted := Accepted(2, Cmd2(u), u[10..|u| - 2]);
      && (!ok ==> Events(Mav(seeds), u + rest) == [Rejected(2)] + Events(Mav(seeds), rest))
      && (ok && !IsSigned(u) ==> Events(Mav(seeds), u + rest) == [accepted] + Events(Mav(seeds), rest))
      && (ok && IsSigned(u) && |rest| >= SIGNATURE ==>
            Events(Mav(seeds), u + rest) == [accepted] + Events(Mav(seeds), rest[SIGNATURE..]))
      && (ok && IsSigned(u) && |rest| < SIGNATURE ==> Tail(Mav(seeds), u + rest) == u + rest)
  {
    hide Checked, Events, Tail, Mav, Need, Report, IsSigned, Cmd2;
    if !ok || !IsSigned(u) {
      Verdict2(seeds, u, ok);
      FrameFirst(seeds, u, rest);
    } else if |rest| >= SIGNATURE {
      VerdictSigned(seeds, u, rest[..SIGNATURE]);
      FrameFirst(seeds, u + rest[..SIGNATURE], rest[SIGNATURE..]);
      assert u + rest[..SIGNATURE] + rest[SIGNATURE..] == u + rest;
    } else {
      AwaitsSignature(seeds, u, rest);
    }
  }

  lemma AwaitsSignature(seeds: Seeds, u: seq<byte>, rest: seq<byte>)
    requires |u| >= 12 && u[0] == STX2 && |u| == Base2(u) && Checked(seeds, u, |u| - 2, Cmd2(u)) && IsSigned(u)
    requires |rest| < SIGNATURE
    ensures Tail(Mav(seeds), u + rest) == u + rest
  {
    hide Checked, Cmd2;
    SignedParts(u, rest);
    CheckedIsLocal(seeds, u, u + rest, |u| - 2, Cmd2(u));
    SameFields(u, u + rest);
    NeedOf2(seeds, u + rest, true);
  }

  lemma Verdict2(seeds: Seeds, u: seq<byte>, ok: bool)
    requires |u| >= 12 && u[0] == STX2 && |u| == Base2(u) && ok == Checked(seeds, u, |u| - 2, Cmd2(u))
    requires !ok || !IsSigned(u)
    ensures Need(seeds, u) == |u| && Report(seeds, u) == [if ok then Accepted(2, Cmd2(u), u[10..|u| - 2]) else Rejected(2)]
  {
    hide Checked;
    NeedOf2(seeds, u, ok);
  }

  lemma SignedParts(u: seq<byte>, signature: seq<byte>)
    requires |u| >= 12
    ensures var s, e := u + signature, |u| - 2; s[..e + 2] == u[..e + 2] && s[10..e] == u[10..e] && s[0] == u[0] && s[1] == u[1]
  {
  }

  lemma VerdictSigned(seeds: Seeds, u: seq<byte>, signature: seq<byte>)
    requires |u| >= 12 && u[0] == STX2 && |u| == Base2(u) && Checked(seeds, u, |u| - 2, Cmd2(u)) && IsSigned(u)
    requires |signature| == SIGNATURE
    ensures var s := u + signature;
      Need(seeds, s) == |s| && Report(seeds, s) == [Accepted(2, Cmd2(u), u[10..|u| - 2])]
  {
    hide Checked, Cmd2;
    var s, e := u + signature, |u| - 2;
    SignedParts(u, signature);
    CheckedIsLocal(seeds, u, s, e, Cmd2(u));
    SameFields(u, s);
    NeedOf2(seeds, s, true);
  }
}

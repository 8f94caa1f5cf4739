/** What the readers make of damaged frames, and how soon they recover. */
module MspErrors {
  import opened Crc8
  import opened Framing
  import opened MspFrames
  import opened MspCodec

  /** A frame whose unit still has the same length but whose checksum no longer fits is reported as an error. */
  lemma V2ChecksumFails(d: Dialect, u: seq<byte>)
    requires |u| >= 9 && u[0] == DOLLAR && u[1] == CHAR_X && IsDirection(d, u[2]) && |u| == 9 + Num16(u[6], u[7])
    requires Byte(CrcOf(0, u[3..|u| - 1])) != u[|u| - 1]
    ensures Need(d, u) == |u| && Report(d, u) == [CrcError(Num16(u[4], u[5]))]
  {
  }

  lemma V1ChecksumFails(d: Dialect, u: seq<byte>)
    requires d != Plex && |u| >= 6 && u[0] == DOLLAR && u[1] == CHAR_M && IsDirection(d, u[2]) && |u| - 6 == u[3]
    requires Byte(XorOf(u[3..|u| - 1])) != u[|u| - 1]
    ensures Need(d, u) == |u| && Report(d, u) == [CrcError(u[4])]
  {
  }

  lemma MiddleUpdated(u: seq<byte>, i: nat, x: byte)
    requires 3 <= i < |u|
    ensures i == |u| - 1 ==> u[i := x][3..|u| - 1] == u[3..|u| - 1]
    ensures i < |u| - 1 ==> u[i := x][3..|u| - 1] == u[3..|u| - 1][i - 3 := x]
  {
  }

  /** Changing any single flag, id, payload or checksum byte of a version 2 frame, of whatever length, makes the
      reader report a checksum error in its place and leaves the rest of the stream unaffected. */
  lemma V2SeesOneByte(d: Dialect, dirn: byte, flags: byte, cmd: nat, payload: seq<byte>, i: nat, x: byte, rest: seq<byte>)
    requires IsDirection(d, dirn) && cmd < 0x1_0000 && |payload| < 0x1_0000
    requires var u := V2Frame(dirn, flags, cmd, payload);
      3 <= i < |u| && i != 6 && i != 7 && x != u[i]
    ensures var u' := V2Frame(dirn, flags, cmd, payload)[i := x];
      Events(Msp(d), u' + rest) == [CrcError(Num16(u'[4], u'[5]))] + Events(Msp(d), rest)
  {
    hide Need, Report, CrcOf, Num16;
    var body := V2Body(flags, cmd, payload);
    var u := V2Frame(dirn, flags, cmd, payload);
    var u' := u[i := x];
    var n := |u| - 1;
    assert u[3..n] == body;
    Num16Of(|payload|);
    MiddleUpdated(u, i, x);
    if i < n {
      CrcSeesOneByte(0, body, i - 3, x);
      SumsDiffer(CrcOf(0, u'[3..n]), CrcOf(0, body));
    }
    V2ChecksumFails(d, u');
    FrameFirst(d, u', rest);
  }

  lemma SumsDiffer(c: sum, c': sum)
    requires c != c'
    ensures Byte(c) != Byte(c')
  {
  }

  /** Likewise for any single command, payload or checksum byte of a version 1 frame. */
  lemma V1SeesOneByte(d: Dialect, dirn: byte, cmd: byte, payload: seq<byte>, i: nat, x: byte, rest: seq<byte>)
    requires d != Plex && IsDirection(d, dirn) && |payload| < 0x100
    requires var u := V1Frame(dirn, cmd, payload); 4 <= i < |u| && x != u[i]
    ensures var u' := V1Frame(dirn, cmd, payload)[i := x];
      Events(Msp(d), u' + rest) == [CrcError(u'[4])] + Events(Msp(d), rest)
  {
    var body := [|payload|, cmd] + payload;
    var u := V1Frame(dirn, cmd, payload);
    var u' := u[i := x];
    var n := |u| - 1;
    assert u[3..n] == body;
    MiddleUpdated(u, i, x);
    if i < n {
      XorSeesOneByte(body, i - 3, x);
      SumsDiffer(XorOf(u'[3..n]), XorOf(body));
    }
    V1ChecksumFails(d, u');
    FrameFirst(d, u', rest);
  }

  /** No frame is longer than this. */
  const LONGEST: nat := 65544

  lemma NeedIsBounded(d: Dialect, s: seq<byte>)
    requires s != []
    ensures Need(d, s) <= LONGEST
  {
    if |s| >= 8 {
      BytesOfNum16(s[6], s[7]);
    }
  }

  /** Whatever a reader has been fed, it is back in its initial state at some point of the next 65544 bytes. */
  lemma BackToStart(d: Dialect, s: seq<byte>, x: seq<byte>) returns (k: nat)
    requires |x| >= LONGEST
    ensures k <= LONGEST && Tail(Msp(d), s + x[..k]) == []
  {
    var g, t := Msp(d), Tail(Msp(d), s);
    MspIsStable(d);
    if t == [] {
      k := 0;
      assert s + x[..0] == s;
    } else {
      var u := t + x;
      var n := Need(d, u);
      NeedIsBounded(d, u);
      TailNeedsMore(d, t, x);
      k := n - |t|;
      assert u[..n] == t + x[..k];
      NeedIsOwn(d, u);
      EventsContinue(g, s, x[..k]);
      UnitFirst(g, u[..n], []);
      assert u[..n] + [] == u[..n];
    }
  }

  lemma TailNeedsMore(d: Dialect, t: seq<byte>, x: seq<byte>)
    requires t != [] && Need(d, t) > |t|
    ensures Need(d, t + x) > |t|
  {
    assert forall i | 0 <= i < |t| :: (t + x)[i] == t[i];
  }
}

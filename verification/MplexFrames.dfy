/** What the multiplexer passes on: the frames a channel reads and the rewriting that marks whose request it is. */
module MplexFrames {
  import opened Crc8
  import opened Framing
  import opened Ints
  import opened MspFrames

  /** The owner of the channel that reads the serial line. */
  const SERIAL: byte := 0xff

  /** Go's `|` on bytes. */
  function Or(a: nat, b: nat): (r: nat)
    ensures (r == 0 <==> a == 0 && b == 0)
    decreases a + b
  {
    if a == 0 && b == 0 then 0 else (if a % 2 == 1 || b % 2 == 1 then 1 else 0) + 2 * Or(a / 2, b / 2)
  }

  lemma {:induction false} OrIsBounded(a: nat, b: nat, n: nat)
    requires a < Power2(n) && b < Power2(n)
    ensures Or(a, b) < Power2(n)
  {
    if n > 0 && (a > 0 || b > 0) {
      OrIsBounded(a / 2, b / 2, n - 1);
    }
  }

  lemma OrByte(a: byte, b: byte)
    ensures Or(a, b) < 0x100
  {
    OrIsBounded(a, b, 8);
  }

  /** Marking leaves the two low bits alone and joins the owner's bits with those the client has set there. */
  lemma MarkedFlags(flags: nat, owner: nat)
    ensures Or(flags, 4 * owner) == flags % 4 + 4 * Or(flags / 4, owner)
  {
    assert 4 * owner / 2 == 2 * owner && 2 * owner / 2 == owner;
    assert Or(flags, 4 * owner) == flags % 2 + 2 * Or(flags / 2, 2 * owner);
    assert Or(flags / 2, 2 * owner) == flags / 2 % 2 + 2 * Or(flags / 2 / 2, owner);
    assert flags / 2 / 2 == flags / 4;
  }

  lemma {:induction false} OrNothing(b: nat)
    ensures Or(0, b) == b
  {
    if b > 0 {
      OrNothing(b / 2);
    }
  }

  lemma {:induction false} OrSwaps(a: nat, b: nat)
    ensures Or(a, b) == Or(b, a)
    decreases a + b
  {
    if a > 0 || b > 0 {
      OrSwaps(a / 2, b / 2);
    }
  }

  /** Bit k of a number. */
  predicate Bit(a: nat, k: nat) {
    if k == 0 then a % 2 == 1 else Bit(a / 2, k - 1)
  }

  lemma OrSplits(a: nat, b: nat)
    ensures Or(a, b) / 2 == Or(a / 2, b / 2) && (Or(a, b) % 2 == 1 <==> a % 2 == 1 || b % 2 == 1)
  {
    var low, high := if a % 2 == 1 || b % 2 == 1 then 1 else 0, Or(a / 2, b / 2);
    assert Or(a, b) == low + 2 * high;
  }

  /** Every bit is set that one of the two has set, and no other. */
  lemma {:induction false} OrIsBitwise(a: nat, b: nat, k: nat)
    ensures Bit(Or(a, b), k) <==> Bit(a, k) || Bit(b, k)
    decreases k
  {
    OrSplits(a, b);
    hide Or;
    if k > 0 {
      OrIsBitwise(a / 2, b / 2, k - 1);
    }
  }

  /** A complete version 2 frame with a valid checksum. */
  predicate Whole(u: seq<byte>) {
    && |u| >= 9 && u[0] == DOLLAR && u[1] == CHAR_X && IsDirection(Plex, u[2]) && |u| == 9 + Num16(u[6], u[7])
    && Byte(CrcOf(0, u[3..|u| - 1])) == u[|u| - 1]
  }

  /** A frame as a client's channel writes it to the serial line. */
  function Marked(owner: byte, u: seq<byte>): (r: seq<byte>)
    requires |u| >= 9
    ensures |r| == |u|
  {
    if owner == 0 || owner == SERIAL then u
    else
      OrByte(u[3], 4 * owner % 0x100);
      var v := u[3 := Or(u[3], 4 * owner % 0x100)];
      v[|v| - 1 := Byte(CrcOf(0, v[3..|v| - 1]))]
  }

  /** What a channel reads and passes on. */
  function Chan(owner: byte): Grammar<seq<byte>> {
    Grammar(s => if s == [] then 1 else Need(Plex, s), s => if Whole(s) then [Marked(owner, s)] else [])
  }

  lemma ChanIsStable(owner: byte)
    ensures Stable(Chan(owner))
  {
    var g := Chan(owner);
    forall s: seq<byte>, t: seq<byte> | s != [] && g.need(s) <= |s| ensures g.need(s + t) == g.need(s) {
      NeedIsStable(Plex, s, t);
    }
    forall s: seq<byte> | s != [] && g.need(s) <= |s| ensures g.need(s[..g.need(s)]) == g.need(s) {
      NeedIsOwn(Plex, s);
    }
  }

  /** Marking keeps everything of a frame but its flags, and the checksum fits the new flags. */
  lemma MarkedIsWhole(owner: byte, u: seq<byte>)
    requires Whole(u)
    ensures var m := Marked(owner, u);
      && Whole(m) && m[..3] == u[..3] && m[4..|u| - 1] == u[4..|u| - 1]
      && m[3] == if owner == SERIAL then u[3] else Or(u[3], 4 * owner % 0x100)
  {
    hide CrcOf, Or;
    if owner == 0 {
      OrSwaps(u[3], 0);
      OrNothing(u[3]);
    } else if owner != SERIAL {
      OrByte(u[3], 4 * owner % 0x100);
      MarkedParts(u, Or(u[3], 4 * owner % 0x100));
    }
  }

  lemma MarkedParts(u: seq<byte>, flags: byte)
    requires |u| >= 9
    ensures var v := u[3 := flags];
      var c := Byte(CrcOf(0, v[3..|v| - 1]));
      var m := v[|v| - 1 := c];
      && m[3..|m| - 1] == v[3..|v| - 1] && m[..3] == u[..3] && m[4..|u| - 1] == u[4..|u| - 1] && m[3] == flags
      && m[|m| - 1] == c && m[0] == u[0] && m[1] == u[1] && m[2] == u[2] && m[6] == u[6] && m[7] == u[7]
  {
    hide CrcOf;
  }

  // ---------- following a channel byte by byte ----------

  /** The unit under way, t, is still unfinished after byte b. */
  predicate StaysOpen(t: seq<byte>, b: byte) {
    Need(Plex, t + [b]) > |t| + 1
  }

  /** Byte b completes the unit under way, which passes these frames on. */
  predicate Ends(owner: byte, t: seq<byte>, b: byte, sent: seq<seq<byte>>) {
    Need(Plex, t + [b]) == |t| + 1 && sent == if Whole(t + [b]) then [Marked(owner, t + [b])] else []
  }

  /** What a channel should have passed on of these bytes, and what should remain. */
  ghost predicate Follows(owner: byte, fed: seq<byte>, t: seq<byte>, sent: seq<seq<byte>>) {
    t == Tail(Chan(owner), fed) && sent == Events(Chan(owner), fed)
  }

  lemma TailOf(owner: byte, fed: seq<byte>, t: seq<byte>, sent: seq<seq<byte>>)
    requires Follows(owner, fed, t, sent)
    ensures t == Tail(Chan(owner), fed)
  {
  }

  lemma Continues(owner: byte, fed: seq<byte>, t: seq<byte>, b: byte, sent: seq<seq<byte>>)
    requires Follows(owner, fed, t, sent) && StaysOpen(t, b)
    ensures Follows(owner, fed + [b], t + [b], sent)
  {
    hide Need, Whole, Marked;
    ChanIsStable(owner);
    EventsContinue(Chan(owner), fed, [b]);
    OneByte(Chan(owner), t, b);
  }

  lemma Finishes(owner: byte, fed: seq<byte>, t: seq<byte>, b: byte, sent: seq<seq<byte>>,
                                     more: seq<seq<byte>>)
    requires Follows(owner, fed, t, sent) && Ends(owner, t, b, more)
    ensures Follows(owner, fed + [b], [], sent + more)
  {
    hide Need, Whole, Marked;
    ChanIsStable(owner);
    EventsContinue(Chan(owner), fed, [b]);
    OneByte(Chan(owner), t, b);
  }

  lemma WholeIsUnit(owner: byte, u: seq<byte>)
    requires Whole(u)
    ensures u != [] && Chan(owner).need(u) == |u| && Chan(owner).report(u) == [Marked(owner, u)]
  {
  }

  /** What channel `owner`, having been fed `fed`, passes on of the bytes inp. */
  ghost function New(owner: byte, fed: seq<byte>, inp: seq<byte>): seq<seq<byte>> {
    Events(Chan(owner), Tail(Chan(owner), fed) + inp)
  }

  /** What a channel has passed on of a chunk stands at the end of all it has passed on. */
  lemma NewOnes(owner: byte, fed: seq<byte>, t: seq<byte>, out: seq<seq<byte>>, inp: seq<byte>,
                                   t': seq<byte>, out': seq<seq<byte>>)
    requires Follows(owner, fed, t, out) && Follows(owner, fed + inp, t', out')
    ensures out' == out + New(owner, fed, inp) && out'[|out|..] == New(owner, fed, inp)
  {
    ChanIsStable(owner);
    EventsContinue(Chan(owner), fed, inp);
  }

  /** Only whole frames with a valid checksum are passed on. */
  lemma {:induction false} EventsAreWhole(owner: byte, s: seq<byte>, k: nat)
    requires k < |Events(Chan(owner), s)|
    ensures Whole(Events(Chan(owner), s)[k])
    decreases |s|
  {
    hide Need, Whole;
    ChanIsStable(owner);
    var g := Chan(owner);
    var n := Front(g, s);
    var r := g.report(s[..n]);
    if k < |r| {
      MarkedIsWhole(owner, s[..n]);
    } else {
      EventsAreWhole(owner, s[n..], k - |r|);
    }
  }

  lemma NewAreWhole(owner: byte, fed: seq<byte>, inp: seq<byte>)
    ensures forall e | e in New(owner, fed, inp) :: Whole(e)
  {
    forall k | 0 <= k < |New(owner, fed, inp)| ensures Whole(New(owner, fed, inp)[k]) {
      EventsAreWhole(owner, Tail(Chan(owner), fed) + inp, k);
    }
  }
}

/** MAVLink 1 and 2 framing, defined on whole byte strings. */
module MavFrames {
  import opened Framing
  import opened MavCrc

  const STX1: byte := 0xfe
  const STX2: byte := 0xfd
  const SIGNATURE: nat := 13

  /** The CRC_EXTRA seeds by message id. */
  type Seeds = seq<(nat, byte)>

  /** The seed of the first entry for id, or zero. */
  function Lookup(seeds: Seeds, id: nat): byte {
    if seeds == [] then 0 else if seeds[0].0 == id then seeds[0].1 else Lookup(seeds[1..], id)
  }

  /** A table that holds the id at i and not before, or not at all. */
  lemma {:induction false} LookupIsFirst(seeds: Seeds, id: nat, i: nat)
    requires i <= |seeds| && (forall j | 0 <= j < i :: seeds[j].0 != id) && (i < |seeds| ==> seeds[i].0 == id)
    ensures Lookup(seeds, id) == if i < |seeds| then seeds[i].1 else 0
  {
    if i > 0 {
      LookupIsFirst(seeds[1..], id, i - 1);
    }
  }

  datatype MavEvent = Accepted(vers: nat, cmd: nat, payload: seq<byte>) | Rejected(vers: nat)

  /** The register's initial value, 0xffff. */
  function Ones(): (w: word)
    ensures |w| == 16
  {
    seq(16, _ => true)
  }

  /** The checksum of a frame from its length byte up to position e, closed with its message's seed. */
  function Checksum(seeds: Seeds, s: seq<byte>, e: nat, cmd: nat): (w: word)
    requires 1 <= e <= |s|
    ensures |w| == 16
  {
    Step(CrcFrom(Ones(), s[1..e]), Bits(Lookup(seeds, cmd)))
  }

  /** The two bytes at e are the checksum, low byte first. */
  predicate Checked(seeds: Seeds, s: seq<byte>, e: nat, cmd: nat)
    requires 1 <= e && e + 2 <= |s|
  {
    Bits(s[e]) + Bits(s[e + 1]) == Checksum(seeds, s, e, cmd)
  }

  function Cmd2(s: seq<byte>): nat
    requires |s| >= 10
  {
    s[7] as int + 0x100 * s[8] as int + 0x1_0000 * s[9] as int
  }

  /** The length of a version 2 frame without its signature. */
  function Base2(s: seq<byte>): nat
    requires |s| >= 2
  {
    12 + s[1] as int
  }

  predicate IsSigned(s: seq<byte>)
    requires |s| >= 3
  {
    s[2] % 2 == 1
  }

  function Need(seeds: Seeds, s: seq<byte>): (n: nat)
    requires s != []
    ensures n >= 1
  {
    if s[0] == STX1 then if |s| < 2 then 2 else 8 + s[1] as int
    else if s[0] == STX2 then
      if |s| < 2 then 2
      else if |s| < Base2(s) then Base2(s)
      else if Checked(seeds, s, Base2(s) - 2, Cmd2(s)) && IsSigned(s) then Base2(s) + SIGNATURE
      else Base2(s)
    else 1
  }

  /** The report of a version 2 frame as soon as its checksum is in. */
  function Report2(seeds: Seeds, s: seq<byte>): seq<MavEvent>
    requires |s| >= 2 && |s| >= Base2(s)
  {
    var e := Base2(s) - 2;
    if Checked(seeds, s, e, Cmd2(s)) then [Accepted(2, Cmd2(s), s[10..e])] else [Rejected(2)]
  }

  function Report1(seeds: Seeds, s: seq<byte>): seq<MavEvent>
    requires |s| >= 8 && |s| - 8 == s[1]
  {
    var e := |s| - 2;
    if Checked(seeds, s, e, s[5]) then [Accepted(1, s[5], s[6..e])] else [Rejected(1)]
  }

  function Report(seeds: Seeds, s: seq<byte>): seq<MavEvent>
    requires s != [] && |s| == Need(seeds, s)
  {
    if s[0] == STX1 then Report1(seeds, s)
    else if s[0] == STX2 then Report2(seeds, s)
    else []
  }

  function Mav(seeds: Seeds): Grammar<MavEvent> {
    Grammar(s => if s == [] then 1 else Need(seeds, s),
            s => if s == [] || |s| != Need(seeds, s) then [] else Report(seeds, s))
  }

  /** The checksum looks only at the bytes up to its own end. */
  lemma CheckedIsLocal(seeds: Seeds, s: seq<byte>, t: seq<byte>, e: nat, cmd: nat)
    requires 1 <= e && e + 2 <= |s| && e + 2 <= |t| && s[..e + 2] == t[..e + 2]
    ensures Checked(seeds, s, e, cmd) == Checked(seeds, t, e, cmd) && s[1..e] == t[1..e]
  {
    hide CrcFrom, Step, Bits;
    SamePrefix(s, t, e + 2);
    assert s[1..e] == t[1..e];
  }

  lemma SamePrefix(s: seq<byte>, t: seq<byte>, n: nat)
    requires n <= |s| && n <= |t| && s[..n] == t[..n]
    ensures forall i | 0 <= i < n :: s[i] == t[i]
  {
    forall i | 0 <= i < n ensures s[i] == t[i] {
      assert s[i] == s[..n][i] && t[i] == t[..n][i];
    }
  }

  /** Need depends on the unit's own bytes only. */
  lemma NeedIsLocal(seeds: Seeds, s: seq<byte>, t: seq<byte>)
    requires s != [] && Need(seeds, s) <= |s| && Need(seeds, s) <= |t| && s[..Need(seeds, s)] == t[..Need(seeds, s)]
    ensures Need(seeds, t) == Need(seeds, s)
  {
    SamePrefix(s, t, Need(seeds, s));
    if s[0] == STX2 {
      assert s[..Base2(s)] == s[..Need(seeds, s)][..Base2(s)] && t[..Base2(s)] == t[..Need(seeds, s)][..Base2(s)];
      NeedIsLocal2(seeds, s, t);
    }
  }

  lemma NeedIsLocal2(seeds: Seeds, s: seq<byte>, t: seq<byte>)
    requires |s| >= 2 && |t| >= 2 && s[0] == t[0] == STX2 && s[1] == t[1] && |s| >= Base2(s) && |t| >= Base2(t)
    requires s[..Base2(s)] == t[..Base2(s)]
    ensures Need(seeds, t) == Need(seeds, s)
  {
    SameFields(s, t);
    CheckedIsLocal(seeds, s, t, Base2(s) - 2, Cmd2(s));
    NeedOf2(seeds, s, Checked(seeds, s, Base2(s) - 2, Cmd2(s)));
    NeedOf2(seeds, t, Checked(seeds, s, Base2(s) - 2, Cmd2(s)));
  }

  lemma SameFields(s: seq<byte>, t: seq<byte>)
    requires |s| >= 2 && |t| >= 2 && s[0] == t[0] == STX2 && s[1] == t[1] && |s| >= Base2(s) && |t| >= Base2(t)
    requires s[..Base2(s)] == t[..Base2(s)]
    ensures Base2(t) == Base2(s) && s[2] == t[2] && Cmd2(s) == Cmd2(t)
  {
    SamePrefix(s, t, Base2(s));
  }

  lemma NeedOf2(seeds: Seeds, s: seq<byte>, ok: bool)
    requires |s| >= 2 && s[0] == STX2 && |s| >= Base2(s) && ok == Checked(seeds, s, Base2(s) - 2, Cmd2(s))
    ensures Need(seeds, s) == Base2(s) + if ok && IsSigned(s) then SIGNATURE else 0
  {
  }

  lemma MavIsStable(seeds: Seeds)
    ensures Stable(Mav(seeds))
  {
    var g := Mav(seeds);
    forall s: seq<byte>, t: seq<byte> | s != [] && g.need(s) <= |s| ensures g.need(s + t) == g.need(s) {
      assert (s + t)[..Need(seeds, s)] == s[..Need(seeds, s)];
      NeedIsLocal(seeds, s, s + t);
    }
    forall s: seq<byte> | s != [] && g.need(s) <= |s| ensures g.need(s[..g.need(s)]) == g.need(s) {
      var n := Need(seeds, s);
      assert s[..n][..n] == s[..n];
      NeedIsLocal(seeds, s, s[..n]);
    }
  }

  /** The unit under way, t, is still unfinished after byte b. */
  predicate GoesOn(seeds: Seeds, t: seq<byte>, b: byte) {
    Need(seeds, t + [b]) > |t| + 1
  }

  /** Byte b completes the unit under way, which reports these events. */
  predicate Completes(seeds: Seeds, t: seq<byte>, b: byte, events: seq<MavEvent>) {
    Need(seeds, t + [b]) == |t| + 1 && events == Report(seeds, t + [b])
  }

  /** What a reader that has been fed these bytes should have read. */
  ghost predicate Follows(seeds: Seeds, fed: seq<byte>, tail: seq<byte>, events: seq<MavEvent>) {
    tail == Tail(Mav(seeds), fed) && events == Events(Mav(seeds), fed)
  }

  lemma ReadsOn(seeds: Seeds, fed: seq<byte>, t: seq<byte>, b: byte, events: seq<MavEvent>)
    requires Follows(seeds, fed, t, events) && GoesOn(seeds, t, b)
    ensures Follows(seeds, fed + [b], t + [b], events)
  {
    hide Need, Report;
    MavIsStable(seeds);
    EventsContinue(Mav(seeds), fed, [b]);
    OneByte(Mav(seeds), t, b);
  }

  lemma ReadsUnit(seeds: Seeds, fed: seq<byte>, t: seq<byte>, b: byte, events: seq<MavEvent>,
                                     report: seq<MavEvent>)
    requires Follows(seeds, fed, t, events) && Completes(seeds, t, b, report)
    ensures Follows(seeds, fed + [b], [], events + report)
  {
    hide Need, Report;
    MavIsStable(seeds);
    EventsContinue(Mav(seeds), fed, [b]);
    OneByte(Mav(seeds), t, b);
  }

  /** The length of a frame without its payload and signature. */
  function Overhead(stx: byte): nat {
    if stx == STX1 then 8 else 12
  }

  lemma MiddleGoesOn(seeds: Seeds, t: seq<byte>, b: byte)
    requires t != [] && (t[0] == STX1 || t[0] == STX2)
    requires |t| >= 2 ==> |t| + 1 < Overhead(t[0]) + t[1] as int
    ensures GoesOn(seeds, t, b)
  {
    hide Checked;
    assert (t + [b])[0] == t[0] && (t + [b])[1] == if |t| >= 2 then t[1] else b;
  }

  lemma EndsVersion1(seeds: Seeds, t: seq<byte>, b: byte, ok: bool)
    requires |t| >= 7 && t[0] == STX1 && |t| - 7 == t[1] as int
    requires ok == Checked(seeds, t + [b], |t| - 1, t[5])
    ensures Completes(seeds, t, b, [if ok then Accepted(1, t[5], t[6..|t| - 1]) else Rejected(1)])
  {
    hide Checked;
    assert (t + [b])[6..|t| - 1] == t[6..|t| - 1];
  }

  /** The unit under way is an accepted frame with this report; so many bytes of its signature are to come. */
  predicate Signing(seeds: Seeds, t: seq<byte>, left: nat, report: seq<MavEvent>) {
    && |t| >= 12 && t[0] == STX2 && |t| >= Base2(t) && IsSigned(t)
    && Checked(seeds, t, Base2(t) - 2, Cmd2(t)) && report == Report2(seeds, t)
    && 0 < left == Base2(t) + SIGNATURE - |t|
  }

  lemma EndsVersion2(seeds: Seeds, t: seq<byte>, b: byte, ok: bool)
    requires |t| >= 11 && t[0] == STX2 && |t| - 11 == t[1] as int
    requires ok == Checked(seeds, t + [b], |t| - 1, Cmd2(t))
    ensures var report := [if ok then Accepted(2, Cmd2(t), t[10..|t| - 1]) else Rejected(2)];
      if ok && IsSigned(t) then GoesOn(seeds, t, b) && Signing(seeds, t + [b], SIGNATURE, report)
      else Completes(seeds, t, b, report)
  {
    hide Checked;
    var next := t + [b];
    assert Cmd2(next) == Cmd2(t) && Base2(next) == |next| && IsSigned(next) == IsSigned(t);
    assert next[10..|t| - 1] == t[10..|t| - 1];
    NeedOf2(seeds, next, ok);
  }

  /** A signature byte changes neither the verdict on its frame nor the length the frame takes. */
  lemma SignatureByte(seeds: Seeds, t: seq<byte>, b: byte, left: nat, report: seq<MavEvent>)
    requires Signing(seeds, t, left, report)
    ensures left > 1 ==> GoesOn(seeds, t, b) && Signing(seeds, t + [b], left - 1, report)
    ensures left == 1 ==> Completes(seeds, t, b, report)
  {
    var next, e := t + [b], Base2(t) - 2;
    assert next[..e + 2] == t[..e + 2];
    CheckedIsLocal(seeds, t, next, e, Cmd2(t));
    SameFields(t, next);
    hide Checked;
    assert next[10..e] == t[10..e];
    NeedOf2(seeds, next, true);
  }
}

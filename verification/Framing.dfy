/** Byte streams cut into units, each unit reporting some events: a definition on whole strings against which
    byte-at-a-time readers are proved. */
module Framing {
  type byte = b: int | 0 <= b < 256

  /** `need` tells how many bytes the unit at the front of a string takes, as far as the string tells;
      `report` what a complete unit reports. */
  datatype Grammar<!E> = Grammar(need: seq<byte> -> nat, report: seq<byte> -> seq<E>)

  /** Every unit has at least one byte, and what a complete unit needs depends on its own bytes only. */
  ghost predicate Stable<E>(g: Grammar<E>) {
    && (forall s: seq<byte> {:trigger g.need(s)} | s != [] :: g.need(s) >= 1)
    && (forall s: seq<byte>, t: seq<byte> {:trigger g.need(s + t)} | s != [] && g.need(s) <= |s| ::
          g.need(s + t) == g.need(s))
    && (forall s: seq<byte> {:trigger g.need(s[..g.need(s)])} | s != [] && g.need(s) <= |s| ::
          g.need(s[..g.need(s)]) == g.need(s))
  }

  predicate Unfinished<E>(g: Grammar<E>, s: seq<byte>) {
    s == [] || |s| < g.need(s)
  }

  /** The length of the unit at the front; never zero, so that cutting ends. */
  function Front<E>(g: Grammar<E>, s: seq<byte>): (n: nat)
    requires !Unfinished(g, s)
    ensures 1 <= n <= |s|
  {
    if g.need(s) == 0 then 1 else g.need(s)
  }

  /** Everything reported for a byte string. */
  function Events<E>(g: Grammar<E>, s: seq<byte>): seq<E>
    decreases |s|
  {
    if Unfinished(g, s) then []
    else g.report(s[..Front(g, s)]) + Events(g, s[Front(g, s)..])
  }

  /** The unfinished unit at the end of a byte string. */
  function Tail<E>(g: Grammar<E>, s: seq<byte>): (t: seq<byte>)
    ensures Unfinished(g, t)
    decreases |s|
  {
    if Unfinished(g, s) then s else Tail(g, s[Front(g, s)..])
  }

  lemma FrontContinues<E>(g: Grammar<E>, s: seq<byte>, t: seq<byte>)
    requires Stable(g) && !Unfinished(g, s)
    ensures !Unfinished(g, s + t) && Front(g, s + t) == Front(g, s)
    ensures var n := Front(g, s); (s + t)[..n] == s[..n] && (s + t)[n..] == s[n..] + t
  {
  }

  /** Reading on: the events of s + t are those of s, then those of the unfinished end of s continued by t. */
  lemma {:induction false} EventsContinue<E>(g: Grammar<E>, s: seq<byte>, t: seq<byte>)
    requires Stable(g)
    ensures Events(g, s + t) == Events(g, s) + Events(g, Tail(g, s) + t)
    ensures Tail(g, s + t) == Tail(g, Tail(g, s) + t)
    decreases |s|
  {
    if Unfinished(g, s) {
      assert Events(g, s) == [];
    } else {
      var n := Front(g, s);
      FrontContinues(g, s, t);
      EventsContinue(g, s[n..], t);
      Regroup(g.report(s[..n]), Events(g, s[n..]), Events(g, Tail(g, s) + t));
    }
  }

  lemma Regroup<E>(a: seq<E>, b: seq<E>, c: seq<E>)
    ensures a + (b + c) == a + b + c
  {
  }

  /** A complete unit at the front reports first. */
  lemma UnitFirst<E>(g: Grammar<E>, unit: seq<byte>, rest: seq<byte>)
    requires Stable(g) && unit != [] && g.need(unit) == |unit|
    ensures Events(g, unit + rest) == g.report(unit) + Events(g, rest)
    ensures Tail(g, unit + rest) == Tail(g, rest)
  {
    FrontContinues(g, unit, rest);
    assert (unit + rest)[..|unit|] == unit && (unit + rest)[|unit|..] == rest;
  }

  /** One byte added to an unfinished unit either leaves it unfinished or completes it. */
  lemma OneByte<E>(g: Grammar<E>, tail: seq<byte>, b: byte)
    requires Stable(g) && g.need(tail + [b]) > |tail|
    ensures g.need(tail + [b]) > |tail| + 1 ==> Events(g, tail + [b]) == [] && Tail(g, tail + [b]) == tail + [b]
    ensures g.need(tail + [b]) == |tail| + 1 ==> Events(g, tail + [b]) == g.report(tail + [b]) && Tail(g, tail + [b]) == []
  {
    if g.need(tail + [b]) == |tail| + 1 {
      UnitFirst(g, tail + [b], []);
      assert tail + [b] + [] == tail + [b];
      assert Events(g, []) == [] && Tail(g, []) == [];
    }
  }

  /** A buffer as Go allocates it. */
  function Zeros(n: nat): (r: seq<byte>)
    ensures |r| == n
  {
    seq(n, _ => 0)
  }

  /** The payload bytes at the front of a buffer after one more. */
  lemma BufferGrows(data: seq<byte>, count: nat, tail: seq<byte>, p: nat, b: byte)
    requires |tail| == p + count && count < |data| && data[..count] == tail[p..]
    ensures data[count := b][..count + 1] == (tail + [b])[p..]
  {
    assert data[count := b][..count + 1] == data[..count] + [b];
    assert (tail + [b])[p..] == tail[p..] + [b];
  }

  /** Following a chunk byte by byte. */
  lemma NextOf(s: seq<byte>, inp: seq<byte>, i: nat)
    requires i < |inp|
    ensures s + inp[..i] + [inp[i]] == s + inp[..i + 1]
  {
  }

  lemma WholeOf(s: seq<byte>, inp: seq<byte>)
    ensures s + inp[..0] == s && s + inp[..|inp|] == s + inp
  {
  }

  /** Bytes that are units by themselves and report nothing leave no trace. */
  lemma {:induction false} NoiseIsSkipped<E>(g: Grammar<E>, noise: seq<byte>, rest: seq<byte>)
    requires Stable(g)
    requires forall i | 0 <= i < |noise| :: g.need([noise[i]]) == 1 && g.report([noise[i]]) == []
    ensures Events(g, noise + rest) == Events(g, rest) && Tail(g, noise + rest) == Tail(g, rest)
    decreases |noise|
  {
    hide Events, Tail;
    if noise == [] {
      assert noise + rest == rest;
    } else {
      NoiseIsSkipped(g, noise[1..], rest);
      SkipOne(g, noise[0], noise[1..] + rest);
      assert noise + rest == [noise[0]] + (noise[1..] + rest);
    }
  }

  lemma SkipOne<E>(g: Grammar<E>, x: byte, rest: seq<byte>)
    requires Stable(g) && g.need([x]) == 1 && g.report([x]) == []
    ensures Events(g, [x] + rest) == Events(g, rest) && Tail(g, [x] + rest) == Tail(g, rest)
  {
    UnitFirst(g, [x], rest);
    assert [] + Events(g, rest) == Events(g, rest);
  }

  /** Every event is among the reports of a unit that stands in the stream. */
  lemma {:induction false} EventIsReported<E>(g: Grammar<E>, s: seq<byte>, k: nat) returns (i: nat, j: nat)
    requires Stable(g) && k < |Events(g, s)|
    ensures i < j <= |s| && g.need(s[i..j]) == j - i && Events(g, s)[k] in g.report(s[i..j])
    decreases |s|
  {
    var n := Front(g, s);
    if k < |g.report(s[..n])| {
      i, j := 0, n;
      assert s[0..n] == s[..n];
    } else {
      var i', j' := EventIsReported(g, s[n..], k - |g.report(s[..n])|);
      i, j := i' + n, j' + n;
      SliceOfRest(s, n, i', j');
    }
  }

  lemma SliceOfRest(s: seq<byte>, n: nat, i: nat, j: nat)
    requires n <= |s| && i <= j <= |s| - n
    ensures s[n..][i..j] == s[i + n..j + n]
  {
  }
}

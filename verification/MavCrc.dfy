/** The MAVLink checksum, CRC-16/MCRF4XX, on machine words taken as their bits, least significant first. */
module MavCrc {
  import opened Framing
  import opened Ints

  type word = seq<bool>

  function Zero(n: nat): (w: word)
    ensures |w| == n
  {
    seq(n, _ => false)
  }

  /** The low bits of n, as many as `like` has. */
  function BitsOf(n: nat, like: word): (w: word)
    ensures |w| == |like|
    decreases |like|
  {
    if like == [] then [] else [n % 2 == 1] + BitsOf(n / 2, like[1..])
  }

  function Bits(b: byte): (w: word)
    ensures |w| == 8
  {
    BitsOf(b, Zero(8))
  }

  function Xor(a: word, b: word): (w: word)
    requires |a| == |b|
    ensures |w| == |a|
  {
    seq(|a|, i requires 0 <= i < |a| => a[i] != b[i])
  }

  /** Go's `a << k`. */
  function Left(a: word, k: nat): (w: word)
    ensures |w| == |a|
  {
    seq(|a|, i requires 0 <= i < |a| => i >= k && a[i - k])
  }

  /** Go's `a >> k`. */
  function Right(a: word, k: nat): (w: word)
    ensures |w| == |a|
  {
    seq(|a|, i requires 0 <= i < |a| => i + k < |a| && a[i + k])
  }

  /** uint16(a). */
  function Wide(a: word): (w: word)
    requires |a| == 8
    ensures |w| == 16
  {
    seq(16, i requires 0 <= i < 16 => i < 8 && a[i])
  }

  /** uint8(a & 0xff). */
  function Low(a: word): (w: word)
    requires |a| == 16
    ensures |w| == 8
  {
    a[..8]
  }

  /** What the mixed byte t contributes to the register. */
  function Kernel(t: word): (w: word)
    requires |t| == 8
    ensures |w| == 16
  {
    var tmp := Wide(Xor(t, Left(t, 4)));
    Xor(Xor(Left(tmp, 8), Left(tmp, 3)), Right(tmp, 4))
  }

  function Step(acc: word, v: word): (w: word)
    requires |acc| == 16 && |v| == 8
    ensures |w| == 16
  {
    Xor(Right(acc, 8), Kernel(Xor(v, Low(acc))))
  }

  /** The source's straight-line byte step. */
  method MavlinkCrc(acc: word, val: word) returns (r: word)
    requires |acc| == 16 && |val| == 8
    ensures r == BitSteps(Xor(acc, Wide(val)), 8) == Step(acc, val)
  {
    hide BitSteps, Xor, Left, Right, Wide, Low;
    StepIsBitByBit(acc, val);
    var tmp := Xor(val, Low(acc));
    tmp := Xor(tmp, Left(tmp, 4));
    XorRegroups(Right(acc, 8), Left(Wide(tmp), 8), Left(Wide(tmp), 3), Right(Wide(tmp), 4));
    r := Xor(Xor(Xor(Right(acc, 8), Left(Wide(tmp), 8)), Left(Wide(tmp), 3)), Right(Wide(tmp), 4));
  }

  lemma XorRegroups(a: word, b: word, c: word, d: word)
    requires |a| == |b| == |c| == |d|
    ensures Xor(Xor(Xor(a, b), c), d) == Xor(a, Xor(Xor(b, c), d))
  {
  }

  // ---------- the same checksum bit by bit ----------

  /** The polynomial 0x8408. */
  function Poly(): (w: word)
    ensures |w| == 16
  {
    seq(16, i => i == 3 || i == 10 || i == 15)
  }

  /** One bit of the reflected CRC. */
  function BitStep(c: word): (w: word)
    requires |c| == 16
    ensures |w| == 16
  {
    if c[0] then Xor(Right(c, 1), Poly()) else Right(c, 1)
  }

  function BitSteps(c: word, n: nat): (w: word)
    requires |c| == 16
    ensures |w| == 16
    decreases n
  {
    if n == 0 then c else BitSteps(BitStep(c), n - 1)
  }

  lemma BitStepLinear(a: word, b: word)
    requires |a| == |b| == 16
    ensures BitStep(Xor(a, b)) == Xor(BitStep(a), BitStep(b))
  {
  }

  lemma {:induction false} BitStepsLinear(a: word, b: word, n: nat)
    requires |a| == |b| == 16
    ensures BitSteps(Xor(a, b), n) == Xor(BitSteps(a, n), BitSteps(b, n))
    decreases n
  {
    if n > 0 {
      BitStepLinear(a, b);
      BitStepsLinear(BitStep(a), BitStep(b), n - 1);
    }
  }

  /** A register with n low bits clear is merely shifted by n steps. */
  lemma {:induction false} ClearBitsShift(c: word, n: nat)
    requires |c| == 16 && n <= 16 && forall i | 0 <= i < n :: !c[i]
    ensures BitSteps(c, n) == Right(c, n)
    decreases n
  {
    if n > 0 {
      ClearBitsShift(Right(c, 1), n - 1);
      assert Right(Right(c, 1), n - 1) == Right(c, n);
    } else {
      assert Right(c, 0) == c;
    }
  }

  lemma BitStepAt(c: word, i: nat)
    requires |c| == 16 && i < 16
    ensures BitStep(c)[i] == ((i < 15 && c[i + 1]) != (c[0] && (i == 3 || i == 10 || i == 15)))
  {
  }

  /** The register after two single-bit steps, written out. */
  function TwoBits(c: word): (w: word)
    requires |c| == 16
    ensures |w| == 16
  {
    [c[2], c[3], c[4] != c[0], c[5] != c[1], c[6], c[7], c[8], c[9],
     c[10], c[11] != c[0], c[12] != c[1], c[13], c[14], c[15], c[0], c[1]]
  }

  lemma TwoBitsAt(c: word, i: nat)
    requires |c| == 16 && i < 16
    ensures BitStep(BitStep(c))[i] == TwoBits(c)[i]
  {
    hide BitStep;
    BitStepAt(BitStep(c), i);
    BitStepAt(c, 0);
    if i < 15 {
      BitStepAt(c, i + 1);
    }
  }

  lemma TwoBitsAre(c: word)
    requires |c| == 16
    ensures BitSteps(c, 2) == TwoBits(c)
  {
    hide BitStep, TwoBits;
    var d := BitStep(c);
    assert BitSteps(c, 2) == BitSteps(d, 1) == BitStep(d);
    forall i | 0 <= i < 16 ensures BitStep(d)[i] == TwoBits(c)[i] {
      TwoBitsAt(c, i);
    }
  }

  lemma {:induction false} StepsAdd(c: word, m: nat, n: nat)
    requires |c| == 16
    ensures BitSteps(c, m + n) == BitSteps(BitSteps(c, m), n)
    decreases m
  {
    if m > 0 {
      StepsAdd(BitStep(c), m - 1, n);
    }
  }

  lemma EightBitsAre(c: word)
    requires |c| == 16
    ensures BitSteps(c, 8) == TwoBits(TwoBits(TwoBits(TwoBits(c))))
  {
    StepsAdd(c, 2, 6);
    TwoBitsAre(c);
    var c2 := TwoBits(c);
    StepsAdd(c2, 2, 4);
    TwoBitsAre(c2);
    var c4 := TwoBits(c2);
    StepsAdd(c4, 2, 2);
    TwoBitsAre(c4);
    TwoBitsAre(TwoBits(c4));
  }

  /** Eight steps on a register that holds only a byte t, written out. */
  function Spread(t: word): (w: word)
    requires |t| == 8
    ensures |w| == 16
  {
    var u4, u5, u6, u7 := t[4] != t[0], t[5] != t[1], t[6] != t[2], t[7] != t[3];
    [u4, u5, u6, t[0] != u7, t[1], t[2], t[3], u4,
     t[0] != u5, t[1] != u6, t[2] != u7, t[3], u4, u5, u6, u7]
  }

  lemma KernelIsSpread(t: word)
    requires |t| == 8
    ensures Kernel(t) == Spread(t)
  {
    hide Spread, Wide, Xor, Left, Right;
    var w := [t[0], t[1], t[2], t[3], t[4] != t[0], t[5] != t[1], t[6] != t[2], t[7] != t[3],
              false, false, false, false, false, false, false, false];
    Folded(t, w);
    SpreadOf(t, w);
  }

  /** The byte folded onto its own high half, as a 16-bit word. */
  lemma Folded(t: word, w: word)
    requires |t| == 8
    requires w == [t[0], t[1], t[2], t[3], t[4] != t[0], t[5] != t[1], t[6] != t[2], t[7] != t[3],
                   false, false, false, false, false, false, false, false]
    ensures Wide(Xor(t, Left(t, 4))) == w
  {
    hide Wide, Xor, Left;
    var r := Wide(Xor(t, Left(t, 4)));
    forall i | 0 <= i < 16 ensures r[i] == w[i] {
      FoldedAt(t, i);
    }
  }

  lemma FoldedAt(t: word, i: nat)
    requires |t| == 8 && i < 16
    ensures Wide(Xor(t, Left(t, 4)))[i] == (i < 8 && (t[i] != (i >= 4 && t[i - 4])))
  {
  }

  lemma SpreadOf(t: word, w: word)
    requires |t| == 8
    requires w == [t[0], t[1], t[2], t[3], t[4] != t[0], t[5] != t[1], t[6] != t[2], t[7] != t[3],
                   false, false, false, false, false, false, false, false]
    ensures Xor(Xor(Left(w, 8), Left(w, 3)), Right(w, 4)) == Spread(t)
  {
    hide Spread, Xor, Left, Right;
    var r := Xor(Xor(Left(w, 8), Left(w, 3)), Right(w, 4));
    forall i | 0 <= i < 16 ensures r[i] == Spread(t)[i] {
      MixedAt(w, i);
      if i < 8 {
        SpreadLow(t, w, i);
      } else {
        SpreadHigh(t, w, i);
      }
    }
  }

  lemma MixedAt(w: word, i: nat)
    requires |w| == 16 && i < 16
    ensures Xor(Xor(Left(w, 8), Left(w, 3)), Right(w, 4))[i]
         == (((i >= 8 && w[i - 8]) != (i >= 3 && w[i - 3])) != (i + 4 < 16 && w[i + 4]))
  {
  }

  lemma SpreadLow(t: word, w: word, i: nat)
    requires i < 8
    requires |t| == 8 && |w| == 16
    requires forall j | 8 <= j < 16 :: !w[j]
    requires w[0] == t[0] && w[1] == t[1] && w[2] == t[2] && w[3] == t[3]
    requires w[4] == (t[4] != t[0]) && w[5] == (t[5] != t[1]) && w[6] == (t[6] != t[2]) && w[7] == (t[7] != t[3])
    ensures ((i >= 3 && w[i - 3]) != w[i + 4]) == Spread(t)[i]
  {
  }

  lemma SpreadHigh(t: word, w: word, i: nat)
    requires 8 <= i < 16
    requires |t| == 8 && |w| == 16
    requires forall j | 8 <= j < 16 :: !w[j]
    requires w[0] == t[0] && w[1] == t[1] && w[2] == t[2] && w[3] == t[3]
    requires w[4] == (t[4] != t[0]) && w[5] == (t[5] != t[1]) && w[6] == (t[6] != t[2]) && w[7] == (t[7] != t[3])
    ensures (w[i - 8] != w[i - 3]) == Spread(t)[i]
  {
  }

  lemma EightBitsSpread(t: word)
    requires |t| == 8
    ensures TwoBits(TwoBits(TwoBits(TwoBits(Wide(t))))) == Spread(t)
  {
    var c := [t[0], t[1], t[2], t[3], t[4], t[5], t[6], t[7], false, false, false, false, false, false, false, false];
    assert Wide(t) == c;
  }

  lemma SplitRegister(acc: word, val: word)
    requires |acc| == 16 && |val| == 8
    ensures Xor(acc, Wide(val)) == Xor(Zero(8) + acc[8..], Wide(Xor(val, Low(acc))))
  {
  }

  /** The byte step is eight single-bit steps of the register with the byte mixed into its low end. */
  lemma StepIsBitByBit(acc: word, val: word)
    requires |acc| == 16 && |val| == 8
    ensures Step(acc, val) == BitSteps(Xor(acc, Wide(val)), 8)
  {
    hide BitSteps, Kernel, Wide, Xor;
    var high, t := Zero(8) + acc[8..], Xor(val, Low(acc));
    SplitRegister(acc, val);
    BitStepsLinear(high, Wide(t), 8);
    ClearBitsShift(high, 8);
    assert Right(high, 8) == Right(acc, 8);
    EightBitsOfByte(t);
  }

  lemma EightBitsOfByte(t: word)
    requires |t| == 8
    ensures BitSteps(Wide(t), 8) == Kernel(t)
  {
    hide BitSteps, Kernel, Wide, Spread, TwoBits;
    EightBitsAre(Wide(t));
    EightBitsSpread(t);
    KernelIsSpread(t);
  }

  // ---------- the checksum of a string ----------

  function CrcFrom(acc: word, s: seq<byte>): (w: word)
    requires |acc| == 16
    ensures |w| == 16
  {
    if s == [] then acc else Step(CrcFrom(acc, s[..|s| - 1]), Bits(s[|s| - 1]))
  }

  function BitCrcFrom(acc: word, s: seq<byte>): (w: word)
    requires |acc| == 16
    ensures |w| == 16
  {
    if s == [] then acc else BitSteps(Xor(BitCrcFrom(acc, s[..|s| - 1]), Wide(Bits(s[|s| - 1]))), 8)
  }

  /** Over any string the source's checksum is the reflected CRC with polynomial 0x8408. */
  lemma {:induction false} StringIsBitByBit(acc: word, s: seq<byte>)
    requires |acc| == 16
    ensures CrcFrom(acc, s) == BitCrcFrom(acc, s)
  {
    if s != [] {
      StringIsBitByBit(acc, s[..|s| - 1]);
      StepIsBitByBit(CrcFrom(acc, s[..|s| - 1]), Bits(s[|s| - 1]));
    }
  }

  lemma CrcGrows(acc: word, s: seq<byte>, b: byte)
    requires |acc| == 16
    ensures CrcFrom(acc, s + [b]) == Step(CrcFrom(acc, s), Bits(b))
  {
    assert (s + [b])[..|s|] == s;
  }

  // ---------- no two registers and no two byte pairs are confused ----------

  lemma {:induction false} BitsDiffer(a: nat, b: nat, like: word)
    requires a < Power2(|like|) && b < Power2(|like|) && BitsOf(a, like) == BitsOf(b, like)
    ensures a == b
    decreases |like|
  {
    if like != [] {
      assert BitsOf(a, like)[1..] == BitsOf(a / 2, like[1..]);
      assert BitsOf(b, like)[1..] == BitsOf(b / 2, like[1..]);
      BitsDiffer(a / 2, b / 2, like[1..]);
      assert BitsOf(a, like)[0] == BitsOf(b, like)[0];
    }
  }

  lemma BytesDiffer(a: byte, b: byte)
    requires Bits(a) == Bits(b)
    ensures a == b
  {
    assert Power2(8) == 256 by {
      assert Power2(4) == 16;
    }
    BitsDiffer(a, b, Zero(8));
  }

  lemma ShiftsLinear(a: word, b: word, k: nat)
    requires |a| == |b|
    ensures Xor(Left(a, k), Left(b, k)) == Left(Xor(a, b), k)
    ensures Xor(Right(a, k), Right(b, k)) == Right(Xor(a, b), k)
    ensures |a| == 8 ==> Xor(Wide(a), Wide(b)) == Wide(Xor(a, b))
  {
  }

  lemma KernelLinear(x: word, y: word)
    requires |x| == |y| == 8
    ensures Xor(Kernel(x), Kernel(y)) == Kernel(Xor(x, y))
  {
    var x4, y4 := Xor(x, Left(x, 4)), Xor(y, Left(y, 4));
    ShiftsLinear(x, y, 4);
    Combine(x, y, Left(x, 4), Left(y, 4));
    ShiftsLinear(x4, y4, 0);
    var xw, yw := Wide(x4), Wide(y4);
    ShiftsLinear(xw, yw, 8);
    ShiftsLinear(xw, yw, 3);
    ShiftsLinear(xw, yw, 4);
    Combine(Left(xw, 8), Left(yw, 8), Left(xw, 3), Left(yw, 3));
    Combine(Xor(Left(xw, 8), Left(xw, 3)), Xor(Left(yw, 8), Left(yw, 3)), Right(xw, 4), Right(yw, 4));
  }

  lemma KernelReachesHigh(t: word)
    requires |t| == 8 && forall i | 8 <= i < 16 :: !Kernel(t)[i]
    ensures t == Zero(8)
  {
    KernelIsSpread(t);
    var s := Spread(t);
    assert !s[8] && !s[9] && !s[10] && !s[11] && !s[12] && !s[13] && !s[14] && !s[15];
  }

  lemma XorZero(a: word, b: word)
    requires |a| == |b|
    ensures Xor(a, b) == Zero(|a|) <==> a == b
  {
    if Xor(a, b) == Zero(|a|) {
      forall i | 0 <= i < |a| ensures a[i] == b[i] {
        assert !Xor(a, b)[i];
      }
    }
  }

  /** The difference that a register difference and a byte difference leave after one step. */
  lemma StepDifference(a: word, a': word, v: word, v': word)
    requires |a| == |a'| == 16 && |v| == |v'| == 8
    ensures Xor(Step(a, v), Step(a', v'))
         == Xor(Right(Xor(a, a'), 8), Kernel(Xor(Xor(v, v'), Low(Xor(a, a')))))
  {
    var x, x' := Xor(v, Low(a)), Xor(v', Low(a'));
    var e := Xor(Xor(v, v'), Low(Xor(a, a')));
    assert Xor(x, x') == e;
    KernelLinear(x, x');
    Combine(Right(a, 8), Right(a', 8), Kernel(x), Kernel(x'));
    assert Xor(Right(a, 8), Right(a', 8)) == Right(Xor(a, a'), 8);
  }

  lemma Combine(h: word, h': word, k: word, k': word)
    requires |h| == |h'| == |k| == |k'|
    ensures Xor(Xor(h, k), Xor(h', k')) == Xor(Xor(h, h'), Xor(k, k'))
  {
  }

  /** A step that leaves no difference had none in the register's high byte, and a byte difference equal to the
      one in the low byte. */
  lemma NothingLeft(d: word, f: word)
    requires |d| == 16 && |f| == 8 && Xor(Right(d, 8), Kernel(Xor(f, Low(d)))) == Zero(16)
    ensures d[8..] == Zero(8) && f == Low(d)
  {
    var e := Xor(f, Low(d));
    XorZero(Right(d, 8), Kernel(e));
    KernelReachesHigh(e);
    XorZero(f, Low(d));
    KernelIsSpread(e);
    forall i | 8 <= i < 16 ensures !d[i] {
      assert Right(d, 8)[i - 8] == Spread(e)[i - 8];
    }
  }

  lemma StepInjective(a: word, a': word, v: word)
    requires |a| == |a'| == 16 && |v| == 8 && Step(a, v) == Step(a', v)
    ensures a == a'
  {
    StepDifference(a, a', v, v);
    XorZero(Step(a, v), Step(a', v));
    XorZero(v, v);
    NothingLeft(Xor(a, a'), Xor(v, v));
    var d := Xor(a, a');
    assert d == d[..8] + d[8..] == Zero(16);
    XorZero(a, a');
  }

  /** Two consecutive bytes are determined by the register before and after them. */
  lemma TwoStepsInjective(a: word, v: word, w: word, v': word, w': word)
    requires |a| == 16 && |v| == |w| == |v'| == |w'| == 8
    requires Step(Step(a, v), w) == Step(Step(a, v'), w')
    ensures v == v' && w == w'
  {
    var b, b' := Step(a, v), Step(a, v');
    var d := Xor(b, b');
    StepDifference(b, b', w, w');
    XorZero(Step(b, w), Step(b', w'));
    NothingLeft(d, Xor(w, w'));
    StepDifference(a, a, v, v');
    XorZero(a, a);
    assert Low(Zero(16)) == Zero(8) && Right(Zero(16), 8) == Zero(16);
    assert Xor(Xor(v, v'), Zero(8)) == Xor(v, v');
    var k := Kernel(Xor(v, v'));
    assert Xor(Zero(16), k) == k;
    assert forall i | 8 <= i < 16 :: d[i] == d[8..][i - 8];
    KernelReachesHigh(Xor(v, v'));
    XorZero(v, v');
    XorZero(b, b');
    XorZero(w, w');
  }

  lemma LastApart(s: seq<byte>, t: seq<byte>)
    requires t != []
    ensures s + t == s + t[..|t| - 1] + [t[|t| - 1]]
  {
  }

  lemma PairApart(s: seq<byte>, x: byte, y: byte)
    ensures s + [x, y] + [] == s + [x] + [y]
  {
  }

  /** Strings that differ in one byte, or in two adjacent bytes, have different checksums. */
  lemma {:induction false} CrcSeesTwoBytes(acc: word, s: seq<byte>, x: byte, y: byte, x': byte, y': byte, t: seq<byte>)
    requires |acc| == 16 && (x != x' || y != y')
    ensures CrcFrom(acc, s + [x, y] + t) != CrcFrom(acc, s + [x', y'] + t)
  {
    if t == [] {
      var c := CrcFrom(acc, s);
      PairApart(s, x, y);
      PairApart(s, x', y');
      CrcGrows(acc, s, x);
      CrcGrows(acc, s, x');
      CrcGrows(acc, s + [x], y);
      CrcGrows(acc, s + [x'], y');
      if CrcFrom(acc, s + [x] + [y]) == CrcFrom(acc, s + [x'] + [y']) {
        TwoStepsInjective(c, Bits(x), Bits(y), Bits(x'), Bits(y'));
        BytesDiffer(x, x');
        BytesDiffer(y, y');
      }
    } else {
      var n := |t| - 1;
      CrcSeesTwoBytes(acc, s, x, y, x', y', t[..n]);
      var u, u' := s + [x, y] + t[..n], s + [x', y'] + t[..n];
      LastApart(s + [x, y], t);
      LastApart(s + [x', y'], t);
      CrcGrows(acc, u, t[n]);
      CrcGrows(acc, u', t[n]);
      if CrcFrom(acc, u + [t[n]]) == CrcFrom(acc, u' + [t[n]]) {
        StepInjective(CrcFrom(acc, u), CrcFrom(acc, u'), Bits(t[n]));
      }
    }
  }

  // ---------- a byte difference after two steps ----------

  /** What a difference f of one byte leaves after a further step with equal bytes. */
  function Twice(f: word): (w: word)
    requires |f| == 8
    ensures |w| == 16
  {
    Xor(Right(Kernel(f), 8), Kernel(Low(Kernel(f))))
  }

  lemma AfterTwoSteps(c: word, v: word, v': word, s: word)
    requires |c| == 16 && |v| == |v'| == |s| == 8
    ensures Xor(Step(Step(c, v), s), Step(Step(c, v'), s)) == Twice(Xor(v, v'))
  {
    hide Step, Kernel;
    var f, a, a' := Xor(v, v'), Step(c, v), Step(c, v');
    StepDifference(c, c, v, v');
    XorZero(c, c);
    assert Low(Zero(16)) == Zero(8) && Right(Zero(16), 8) == Zero(16);
    assert Xor(f, Zero(8)) == f && Xor(Zero(16), Kernel(f)) == Kernel(f);
    StepDifference(a, a', s, s);
    XorZero(s, s);
    assert Xor(Zero(8), Low(Kernel(f))) == Low(Kernel(f));
  }

  /** The one difference of a byte that leaves the register's high byte alone, and what it leaves in the low byte. */
  const SILENT: byte := 0x91
  const SILENT_SUM: byte := 0x85

  lemma BitsFrom(n: nat, k: nat)
    ensures BitsOf(n, Zero(k + 1)) == [n % 2 == 1] + BitsOf(n / 2, Zero(k)) && BitsOf(n, Zero(0)) == []
  {
    assert Zero(k + 1)[1..] == Zero(k);
  }

  lemma SilentBits()
    ensures Bits(SILENT) == [true, false, false, false, true, false, false, true]
    ensures Bits(SILENT_SUM) == [true, false, true, false, false, false, false, true]
  {
    hide BitsOf;
    BitsFrom(0x91, 7);
    BitsFrom(0x48, 6);
    BitsFrom(0x24, 5);
    BitsFrom(0x12, 4);
    BitsFrom(0x09, 3);
    BitsFrom(0x04, 2);
    BitsFrom(0x02, 1);
    BitsFrom(0x01, 0);
    BitsFrom(0x85, 7);
    BitsFrom(0x42, 6);
    BitsFrom(0x21, 5);
    BitsFrom(0x10, 4);
    BitsFrom(0x08, 3);
  }

  /** The low half of what a byte contributes is clear for no byte and for one difference. */
  lemma LowClear(f: word)
    requires |f| == 8
    ensures (forall i | 0 <= i < 8 :: !Spread(f)[i])
        <==> f[0] == f[4] == f[7] && !f[1] && !f[2] && !f[3] && !f[5] && !f[6]
  {
    var s := Spread(f);
    if forall i | 0 <= i < 8 :: !s[i] {
      assert !s[0] && !s[1] && !s[2] && !s[3] && !s[4] && !s[5] && !s[6] && !s[7];
    }
  }

  lemma TwiceAt(f: word, i: nat)
    requires |f| == 8 && i < 16
    ensures Twice(f)[i] == ((i < 8 && Kernel(f)[i + 8]) != Kernel(Low(Kernel(f)))[i])
  {
    hide Kernel;
  }

  lemma HighClear(f: word)
    requires |f| == 8
    ensures Twice(f)[8..] == Zero(8) <==> Low(Kernel(f)) == Zero(8)
  {
    hide Kernel, Twice;
    var l := Low(Kernel(f));
    if Twice(f)[8..] == Zero(8) {
      forall i | 8 <= i < 16 ensures !Kernel(l)[i] {
        TwiceAt(f, i);
        assert Twice(f)[i] == Twice(f)[8..][i - 8];
      }
      KernelReachesHigh(l);
    }
    if l == Zero(8) {
      KernelOfZero();
      forall i | 0 <= i < 8 ensures !Twice(f)[8..][i] {
        TwiceAt(f, i + 8);
      }
    }
  }

  lemma KernelOfZero()
    ensures forall i | 0 <= i < 16 :: !Kernel(Zero(8))[i]
  {
    KernelIsSpread(Zero(8));
  }

  lemma SilentExactly(f: word)
    requires |f| == 8 && f != Zero(8)
    ensures Twice(f)[8..] == Zero(8) <==> f == Bits(SILENT)
    ensures f == Bits(SILENT) ==> Twice(f)[..8] == Bits(SILENT_SUM)
  {
    hide Kernel, Twice, Bits, Spread;
    HighClear(f);
    KernelIsSpread(f);
    LowClear(f);
    SilentBits();
    assert forall i | 0 <= i < 8 :: Low(Kernel(f))[i] == Spread(f)[i];
    if Twice(f)[8..] == Zero(8) {
      NotZero(f);
    }
    if f == Bits(SILENT) {
      assert Low(Kernel(f)) == Zero(8);
      SilentSum(f);
    }
  }

  lemma NotZero(f: word)
    requires |f| == 8 && f != Zero(8) && f[0] == f[4] == f[7] && !f[1] && !f[2] && !f[3] && !f[5] && !f[6]
    ensures f == [true, false, false, false, true, false, false, true]
  {
  }

  lemma SilentSum(f: word)
    requires f == [true, false, false, false, true, false, false, true]
    ensures Twice(f)[..8] == [true, false, true, false, false, false, false, true]
  {
    hide Kernel, Twice;
    KernelIsSpread(f);
    LowClear(f);
    assert Low(Kernel(f)) == Zero(8);
    KernelOfZero();
    forall i | 0 <= i < 8 ensures Twice(f)[i] == Spread(f)[i + 8] {
      TwiceAt(f, i);
    }
  }
}

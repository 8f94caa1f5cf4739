/** Terrain rework: raising waypoints until the straight path between them clears the sampled ground. */
module Rework {
  import opened Mission

  // ---------- Go's roundings of a real ----------

  function Ceil(x: real): (c: int)
    ensures (c - 1) as real < x <= c as real
  {
    -((-x).Floor)
  }

  /** Half away from zero. */
  function Round(x: real): int {
    if x >= 0.0 then (x + 0.5).Floor else -((0.5 - x).Floor)
  }

  /** Toward zero. */
  function Trunc(x: real): int {
    if x >= 0.0 then x.Floor else -((-x).Floor)
  }

  lemma RoundBelow(a: real, b: real)
    ensures Round(a) <= Round(b) ==> a < b + 1.0
    ensures Round(a) > Round(b) ==> a > b
  {
  }

  /** The nearest whole number, and of two the one farther from zero. */
  lemma RoundIsNearest(x: real)
    ensures var r := Round(x) as real; if x >= 0.0 then -0.5 < r - x <= 0.5 else -0.5 <= r - x < 0.5
  {
  }

  /** The whole number nearest to zero on the way there: nothing but the fraction is dropped. */
  lemma TruncDropsFraction(x: real)
    ensures if x >= 0.0 then 0.0 <= x - Trunc(x) as real < 1.0 && Trunc(x) >= 0 else -1.0 < x - Trunc(x) as real <= 0.0 && Trunc(x) <= 0
  {
  }

  // ---------- which ground samples belong to which leg ----------

  /** One entry per waypoint met while walking along the samples. */
  datatype Mindex = Mindex(midx: nat, pregnd: int, postgnd: int)

  /** The sum of n sample distances, added one by one as the source does. */
  function Walked(n: nat, ddif: real): real {
    if n == 0 then 0.0 else Walked(n - 1, ddif) + ddif
  }

  /** Sample n is at or past waypoint idx, after rounding both to whole metres. */
  predicate Reached(pts: seq<Point>, ddif: real, idx: nat, n: nat)
    requires idx < |pts|
  {
    Round(pts[idx].d) <= Round(Walked(n + 1, ddif))
  }

  predicate HalfPast(k: int, x: real) {
    k as real + 0.5 <= x
  }

  lemma RoundAtLeast(x: real, k: int)
    requires x >= 0.0
    ensures HalfPast(k, x) <==> Round(x) >= k + 1
  {
  }

  /** Being reached, said without rounding: the walk is half past every whole metre that the waypoint is half past. */
  lemma ReachedExactly(pts: seq<Point>, ddif: real, idx: nat, n: nat)
    requires idx < |pts| && pts[idx].d >= 0.0 && ddif >= 0.0
    ensures Reached(pts, ddif, idx, n) <==> forall k: int | HalfPast(k, pts[idx].d) :: HalfPast(k, Walked(n + 1, ddif))
  {
    hide Round, HalfPast, Walked;
    var a, b := pts[idx].d, Walked(n + 1, ddif);
    WalkedGrows(0, n + 1, ddif);
    WalkedNone(ddif);
    forall k: int ensures HalfPast(k, a) <==> Round(a) >= k + 1 {
      RoundAtLeast(a, k);
    }
    forall k: int ensures HalfPast(k, b) <==> Round(b) >= k + 1 {
      RoundAtLeast(b, k);
    }
    if !Reached(pts, ddif, idx, n) {
      var k := Round(a) - 1;
      assert HalfPast(k, a) && !HalfPast(k, b);
    }
  }

  /** The sample at which each waypoint from idx on is met, walking from sample n. */
  function Marks(pts: seq<Point>, ddif: real, np: nat, n: nat, idx: nat): (ms: seq<nat>)
    requires n <= np && idx <= |pts|
    ensures |ms| <= |pts| - idx
    decreases np - n
  {
    if n == np || idx == |pts| then []
    else if Reached(pts, ddif, idx, n) then [n] + Marks(pts, ddif, np, n + 1, idx + 1)
    else Marks(pts, ddif, np, n + 1, idx)
  }

  predicate NotReachedWithin(pts: seq<Point>, ddif: real, idx: nat, from: nat, to: nat)
    requires idx < |pts|
  {
    forall n: nat | from <= n < to :: !Reached(pts, ddif, idx, n)
  }

  /** The first sample that can belong to entry i. */
  function Start(ms: seq<nat>, n: nat, i: nat): nat
    requires i <= |ms|
  {
    if i == 0 then n else ms[i - 1] + 1
  }

  /** Waypoint idx + i is met at the first sample that reaches it and comes after the previous waypoint's sample;
      when the walk ends early, no remaining sample reaches the next waypoint. */
  lemma {:induction false} MarkIsFirst(pts: seq<Point>, ddif: real, np: nat, n: nat, idx: nat, i: nat)
    requires n <= np && idx <= |pts| && i <= |Marks(pts, ddif, np, n, idx)|
    ensures var ms := Marks(pts, ddif, np, n, idx);
      if i < |ms| then
        && Start(ms, n, i) <= ms[i] < np
        && Reached(pts, ddif, idx + i, ms[i])
        && NotReachedWithin(pts, ddif, idx + i, Start(ms, n, i), ms[i])
      else
        idx + i < |pts| ==> NotReachedWithin(pts, ddif, idx + i, Start(ms, n, i), np)
    decreases np - n
  {
    if n < np && idx < |pts| {
      if !Reached(pts, ddif, idx, n) {
        MarkIsFirst(pts, ddif, np, n + 1, idx, i);
      } else if i > 0 {
        MarkIsFirst(pts, ddif, np, n + 1, idx + 1, i - 1);
      }
    }
  }

  function MindexOf(ms: seq<nat>, i: nat): Mindex
    requires i < |ms|
  {
    if i == 0 then Mindex(0, 0, 0) else Mindex(i, ms[i] as int - 1, ms[i])
  }

  /** One sample of the walk, and the end of it. */
  lemma MarkHere(pts: seq<Point>, ddif: real, np: nat, n: nat, idx: nat, ms: seq<nat>)
    requires n < np && idx < |pts| && idx <= |ms| && ms == ms[..idx] + Marks(pts, ddif, np, n, idx)
    ensures Walked(n + 1, ddif) == Walked(n, ddif) + ddif
    ensures if Reached(pts, ddif, idx, n)
            then idx < |ms| && ms[idx] == n && ms == ms[..idx + 1] + Marks(pts, ddif, np, n + 1, idx + 1)
            else ms == ms[..idx] + Marks(pts, ddif, np, n + 1, idx)
  {
    hide Reached;
  }

  lemma MarksDone(pts: seq<Point>, ddif: real, np: nat, n: nat, idx: nat, ms: seq<nat>)
    requires n <= np && idx <= |pts| && (n == np || idx == |pts|)
    requires idx <= |ms| && ms == ms[..idx] + Marks(pts, ddif, np, n, idx)
    ensures |ms| == idx
  {
  }

  /** The first loop of Rework. */
  method Bucket(mpts: array<Point>, np: nat, ddif: real) returns (mlist: seq<Mindex>)
    ensures var ms := Marks(mpts[..], ddif, np, 0, 0);
      |mlist| == |ms| && forall i | 0 <= i < |ms| :: mlist[i] == MindexOf(ms, i)
  {
    hide Round, Marks, Walked;
    ghost var ms := Marks(mpts[..], ddif, np, 0, 0);
    WalkedNone(ddif);
    var d := 0.0;
    var idx: nat := 0;
    mlist := [];
    var n: nat := 0;
    while n < np && idx < mpts.Length
      invariant n <= np && idx <= mpts.Length
      invariant d == Walked(n, ddif)
      invariant |mlist| == idx <= |ms|
      invariant ms == ms[..idx] + Marks(mpts[..], ddif, np, n, idx)
      invariant forall i | 0 <= i < idx :: mlist[i] == MindexOf(ms, i)
    {
      MarkHere(mpts[..], ddif, np, n, idx, ms);
      d := d + ddif;
      if Round(mpts[idx].d) <= Round(d) {
        mlist := mlist + [if idx == 0 then Mindex(idx, 0, 0) else Mindex(idx, n - 1, n)];
        idx := idx + 1;
      }
      n := n + 1;
    }
    MarksDone(mpts[..], ddif, np, n, idx, ms);
  }

  lemma WalkedNone(ddif: real)
    ensures Walked(0, ddif) == 0.0
  {
  }

  // ---------- raising the ends of each leg ----------

  /** What the second loop reads: ground heights, clearance margin, sample distance, and the waypoints' samples. */
  datatype Survey = Survey(gnd: seq<int>, margin: int, ddif: real, ms: seq<nat>)

  function LegLength(pts: seq<Point>, n: nat): real
    requires n + 1 < |pts|
  {
    pts[n + 1].d - pts[n].d
  }

  /** Leg n has samples to scan: those from ms[n] up to two before the next waypoint's. */
  predicate HasSamples(sv: Survey, n: nat)
    requires n + 1 < |sv.ms|
  {
    sv.ms[n] + 1 < sv.ms[n + 1]
  }

  /** A leg with samples to scan has a length, so no division is by zero. */
  predicate Measured(sv: Survey, pts: seq<Point>, n: nat)
    requires n + 1 < |sv.ms| <= |pts|
  {
    HasSamples(sv, n) ==> LegLength(pts, n) > 0.0
  }

  predicate Fits(sv: Survey, pts: seq<Point>) {
    && sv.ddif >= 0.0 && |sv.ms| <= |pts|
    && (forall i | 0 <= i < |sv.ms| :: sv.ms[i] < |sv.gnd|)
    && (forall i | 0 <= i < |sv.ms| - 1 :: sv.ms[i] < sv.ms[i + 1])
    && (forall n | 1 <= n < |sv.ms| - 1 :: Measured(sv, pts, n))
  }

  /** Every scanned sample lies on its leg, short of the far end. */
  predicate OnLeg(sv: Survey, pts: seq<Point>, n: nat)
    requires n + 1 < |sv.ms| <= |pts|
  {
    HasSamples(sv, n) ==> Walked(sv.ms[n + 1] - 2 - sv.ms[n], sv.ddif) < LegLength(pts, n)
  }

  /** The straight line from altitude astart, rising by wpadelta over wpdist metres, after ldiff metres. */
  function Interpolated(astart: int, wpadelta: int, ldiff: real, wpdist: real): real
    requires wpdist != 0.0
  {
    astart as real + wpadelta as real * ldiff / wpdist
  }

  /** Altitude of the straight path of leg n after ldiff metres. */
  function PathAltitude(pts: seq<Point>, n: nat, ldiff: real): real
    requires n + 1 < |pts| && LegLength(pts, n) != 0.0
  {
    Interpolated(pts[n].xz, pts[n + 1].xz - pts[n].xz, ldiff, LegLength(pts, n))
  }

  predicate Scanned(sv: Survey, n: nat, j: nat) {
    1 <= n && n + 1 < |sv.ms| && sv.ms[n] <= j && j + 1 < sv.ms[n + 1]
  }

  /** How far the path lies below the required clearance over sample j. */
  function Deficit(sv: Survey, pts: seq<Point>, n: nat, j: nat): real
    requires Fits(sv, pts) && Scanned(sv, n, j)
  {
    assert Measured(sv, pts, n);
    (sv.margin + sv.gnd[j]) as real - PathAltitude(pts, n, Walked(j - sv.ms[n], sv.ddif))
  }

  /** The largest positive deficit among the samples before `last`, else zero, and the sample where it first occurs. */
  function Worst(sv: Survey, pts: seq<Point>, n: nat, last: nat): (real, nat)
    requires Fits(sv, pts) && 1 <= n && n + 1 < |sv.ms| && sv.ms[n] <= last < sv.ms[n + 1]
    decreases last
  {
    if last == sv.ms[n] then (0.0, last)
    else
      var (adj, jj) := Worst(sv, pts, n, last - 1);
      var adif := Deficit(sv, pts, n, last - 1);
      if adif > adj then (adif, last - 1) else (adj, jj)
  }

  /** What the source does to the two ends of a leg whose worst deficit adj lies at sample jj of [j0, j1). */
  function Adjusted(pts: seq<Point>, n: nat, adj: real, jj: int, j0: int, j1: int, margin: int): (r: seq<Point>)
    requires n + 1 < |pts| && (adj != 0.0 ==> j0 < j1)
    ensures |r| == |pts|
  {
    var p, q := pts[n], pts[n + 1];
    var up := Ceil(adj);
    if adj == 0.0 then pts[n := p.(mark := Updated)]
    else if q.mark != Return then
      pts[n := p.(xz := p.xz + up, mark := Updated)][n + 1 := q.(xz := q.xz + up, mark := Updated)]
    else
      var xadj := Trunc(up as real * (1.0 - (jj - j0) as real / (j1 - j0) as real)) - margin;
      var z := p.xz + up + xadj;
      pts[n := p.(xz := if z < p.gz + margin then p.gz + margin else z, mark := Updated)]
  }

  /** Points that differ at most in the adjusted altitude and the mark. */
  predicate SameTrack(pts: seq<Point>, pts': seq<Point>) {
    |pts| == |pts'| && forall i | 0 <= i < |pts| :: pts'[i] == pts[i].(xz := pts'[i].xz, mark := pts'[i].mark)
  }

  predicate SameDistances(pts: seq<Point>, pts': seq<Point>) {
    |pts| == |pts'| && forall i | 0 <= i < |pts| :: pts'[i].d == pts[i].d
  }

  lemma FitsSameDistances(sv: Survey, pts: seq<Point>, pts': seq<Point>)
    requires Fits(sv, pts) && SameDistances(pts, pts')
    ensures Fits(sv, pts')
  {
    forall n | 1 <= n < |sv.ms| - 1 ensures Measured(sv, pts', n) {
      assert Measured(sv, pts, n);
      assert pts'[n].d == pts[n].d && pts'[n + 1].d == pts[n + 1].d;
    }
  }

  function LegDone(sv: Survey, pts: seq<Point>, n: nat): (r: seq<Point>)
    requires Fits(sv, pts) && 1 <= n && n + 1 < |sv.ms|
    ensures Fits(sv, r) && SameTrack(pts, r)
  {
    assert sv.ms[n] < sv.ms[n + 1];
    var j1: nat := sv.ms[n + 1] - 1;
    var (adj, jj) := Worst(sv, pts, n, j1);
    WorstIsWorst(sv, pts, n, j1);
    var r := Adjusted(pts, n, adj, jj, sv.ms[n], j1, sv.margin);
    FitsSameDistances(sv, pts, r);
    r
  }

  /** The points after the legs from n on have been treated in order. */
  function Reworked(sv: Survey, pts: seq<Point>, n: nat): (r: seq<Point>)
    requires Fits(sv, pts) && 1 <= n
    ensures Fits(sv, r) && SameTrack(pts, r)
    decreases |sv.ms| - n
  {
    if n + 1 >= |sv.ms| then pts else Reworked(sv, LegDone(sv, pts, n), n + 1)
  }

  lemma {:induction false} WorstIsWorst(sv: Survey, pts: seq<Point>, n: nat, last: nat)
    requires Fits(sv, pts) && 1 <= n && n + 1 < |sv.ms| && sv.ms[n] <= last < sv.ms[n + 1]
    ensures var (adj, jj) := Worst(sv, pts, n, last);
      && adj >= 0.0
      && (forall j: nat | sv.ms[n] <= j < last :: Deficit(sv, pts, n, j) <= adj)
      && (adj > 0.0 ==> sv.ms[n] <= jj < last && Deficit(sv, pts, n, jj) == adj
                        && forall j: nat | sv.ms[n] <= j < jj :: Deficit(sv, pts, n, j) < adj)
    decreases last
  {
    if last > sv.ms[n] {
      WorstIsWorst(sv, pts, n, last - 1);
    }
  }

  // ---------- the second loop ----------

  function SurveyOf(pts: seq<Point>, gnd: seq<int>, margin: int): Survey
    requires |pts| > 0
  {
    var ddif := if gnd == [] then 0.0 else pts[|pts| - 1].d / |gnd| as real;
    Survey(gnd, margin, ddif, Marks(pts, ddif, |gnd|, 0, 0))
  }

  /** The walked distance grows with the number of samples. */
  lemma {:induction false} WalkedGrows(m: nat, n: nat, ddif: real)
    requires m <= n && ddif >= 0.0
    ensures Walked(m, ddif) <= Walked(n, ddif)
  {
    if m < n {
      WalkedGrows(m, n - 1, ddif);
    }
  }

  lemma RoundGrows(a: real, b: real)
    requires a <= b
    ensures Round(a) <= Round(b)
  {
  }

  /** A leg with samples to scan has a length, whatever the distance between samples and despite the roundings. */
  lemma MarksMeasured(pts: seq<Point>, sv: Survey, n: nat)
    requires sv.ddif >= 0.0 && sv.ms == Marks(pts, sv.ddif, |sv.gnd|, 0, 0)
    requires 1 <= n && n + 1 < |sv.ms|
    ensures Measured(sv, pts, n)
  {
    var ddif, p, q := sv.ddif, sv.ms[n], sv.ms[n + 1];
    MarkIsFirst(pts, ddif, |sv.gnd|, 0, 0, n);
    MarkIsFirst(pts, ddif, |sv.gnd|, 0, 0, n + 1);
    if HasSamples(sv, n) {
      assert !Reached(pts, ddif, n + 1, q - 1);
      WalkedGrows(p + 1, q, ddif);
      RoundGrows(Walked(p + 1, ddif), Walked(q, ddif));
      RoundBelow(pts[n + 1].d, pts[n].d);
    }
  }

  /** With samples at least a metre apart, rounding to whole metres never pushes a scanned sample past its leg. */
  lemma MarksOnLeg(pts: seq<Point>, sv: Survey, n: nat)
    requires sv.ddif >= 1.0 && sv.ms == Marks(pts, sv.ddif, |sv.gnd|, 0, 0)
    requires 1 <= n && n + 1 < |sv.ms|
    ensures OnLeg(sv, pts, n)
  {
    var ddif, p, q := sv.ddif, sv.ms[n], sv.ms[n + 1];
    MarkIsFirst(pts, ddif, |sv.gnd|, 0, 0, n);
    MarkIsFirst(pts, ddif, |sv.gnd|, 0, 0, n + 1);
    if HasSamples(sv, n) {
      assert !Reached(pts, ddif, n + 1, q - 1);
      RoundBelow(pts[n + 1].d, Walked(q, ddif));
      RoundBelow(pts[n].d, Walked(p + 1, ddif));
      WalkedApart(p, q - 2 - p, ddif);
      WalkedGrows(0, q - 2 - p, ddif);
    }
  }

  /** p + 2 + k samples lie k + 1 sample distances beyond p + 1 samples. */
  lemma {:induction false} WalkedApart(p: nat, k: nat, ddif: real)
    ensures Walked(p + 2 + k, ddif) == Walked(p + 1, ddif) + Walked(k, ddif) + ddif
  {
    if k > 0 {
      WalkedApart(p, k - 1, ddif);
    }
  }

  lemma QuotientAtLeastOne(a: real, b: real)
    requires a >= b > 0.0
    ensures a / b >= 1.0
  {
    var q := a / b;
    assert q * b == a;
    if q < 1.0 {
      assert (1.0 - q) * b == b - a;
      StrictProduct(1.0 - q, b);
    }
  }

  lemma StrictProduct(x: real, y: real)
    requires x > 0.0 && y > 0.0
    ensures x * y > 0.0
  {
  }

  /** The survey of any track whose length is not negative. */
  lemma SurveyFits(pts: seq<Point>, gnd: seq<int>, margin: int)
    requires |pts| > 0 && pts[|pts| - 1].d >= 0.0
    ensures Fits(SurveyOf(pts, gnd, margin), pts)
  {
    var sv := SurveyOf(pts, gnd, margin);
    if gnd != [] {
      NotNegative(pts[|pts| - 1].d, |gnd| as real);
    }
    forall i | 0 <= i < |sv.ms| ensures Start(sv.ms, 0, i) <= sv.ms[i] < |gnd| {
      MarkIsFirst(pts, sv.ddif, |gnd|, 0, 0, i);
    }
    forall n | 1 <= n < |sv.ms| - 1 ensures Measured(sv, pts, n) {
      MarksMeasured(pts, sv, n);
    }
    assert forall i | 0 <= i < |sv.ms| - 1 :: Start(sv.ms, 0, i + 1) == sv.ms[i] + 1;
  }

  lemma NotNegative(a: real, b: real)
    requires a >= 0.0 && b > 0.0
    ensures a / b >= 0.0
  {
  }

  /** On a mission at least as long in metres as there are samples, all scanned samples lie on their legs. */
  lemma LongMissionOnLeg(pts: seq<Point>, gnd: seq<int>, margin: int, n: nat)
    requires |pts| > 0 && gnd != [] && pts[|pts| - 1].d >= |gnd| as real
    requires var sv := SurveyOf(pts, gnd, margin); 1 <= n && n + 1 < |sv.ms|
    ensures OnLeg(SurveyOf(pts, gnd, margin), pts, n)
  {
    QuotientAtLeastOne(pts[|pts| - 1].d, |gnd| as real);
    MarksOnLeg(pts, SurveyOf(pts, gnd, margin), n);
  }

  /** Scans the samples of leg n for the worst deficit: the source's innermost loop. */
  method ScanLeg(mpts: array<Point>, gnd: seq<int>, margin: int, ddif: real, n: nat, j0: nat, j1: nat, ghost sv: Survey)
    returns (adj: real, jj: int)
    requires Fits(sv, mpts[..]) && sv.gnd == gnd && sv.margin == margin && sv.ddif == ddif
    requires 1 <= n && n + 1 < |sv.ms| && j0 == sv.ms[n] && j1 + 1 == sv.ms[n + 1]
    ensures (adj, jj) == Worst(sv, mpts[..], n, j1)
  {
    hide Interpolated;
    assert Measured(sv, mpts[..], n) && sv.ms[n] < sv.ms[n + 1];
    assert j0 < j1 ==> LegLength(mpts[..], n) > 0.0;
    var wpdist := mpts[n + 1].d - mpts[n].d;
    var astart := mpts[n].xz;
    var wpadelta := mpts[n + 1].xz - astart;
    var ldiff := 0.0;
    adj := 0.0;
    jj := j0;
    var j := j0;
    while j < j1
      invariant j0 <= j <= j1
      invariant ldiff == Walked(j - j0, ddif)
      invariant (adj, jj) == Worst(sv, mpts[..], n, j)
    {
      var ax := Interpolated(astart, wpadelta, ldiff, wpdist);
      var adif := (margin + gnd[j]) as real - ax;
      assert Scanned(sv, n, j) && adif == Deficit(sv, mpts[..], n, j);
      if adif > adj {
        adj := adif;
        jj := j;
      }
      ldiff := ldiff + ddif;
      j := j + 1;
    }
  }

  /** Raises the ends of leg n by the deficit found. */
  method AdjustLeg(mpts: array<Point>, n: nat, adj: real, jj: int, j0: int, j1: int, margin: int)
    requires n + 1 < mpts.Length && (adj != 0.0 ==> j0 < j1)
    modifies mpts
    ensures mpts[..] == Adjusted(old(mpts[..]), n, adj, jj, j0, j1, margin)
  {
    if adj != 0.0 {
      mpts[n] := mpts[n].(xz := mpts[n].xz + Ceil(adj), mark := Updated);
      if mpts[n + 1].mark != Return {
        mpts[n + 1] := mpts[n + 1].(xz := mpts[n + 1].xz + Ceil(adj), mark := Updated);
      } else {
        var xadj := Trunc(Ceil(adj) as real * (1.0 - (jj - j0) as real / (j1 - j0) as real)) - margin;
        mpts[n] := mpts[n].(xz := mpts[n].xz + xadj);
        if mpts[n].xz < mpts[n].gz + margin {
          mpts[n] := mpts[n].(xz := mpts[n].gz + margin);
        }
      }
    } else {
      mpts[n] := mpts[n].(mark := Updated);
    }
  }

  method TreatLeg(mpts: array<Point>, gnd: seq<int>, margin: int, ddif: real, n: nat, j0: nat, j1: nat, ghost sv: Survey)
    requires Fits(sv, mpts[..]) && sv.gnd == gnd && sv.margin == margin && sv.ddif == ddif
    requires 1 <= n && n + 1 < |sv.ms| && j0 == sv.ms[n] && j1 + 1 == sv.ms[n + 1]
    modifies mpts
    ensures mpts[..] == LegDone(sv, old(mpts[..]), n)
  {
    WorstIsWorst(sv, mpts[..], n, j1);
    var adj, jj := ScanLeg(mpts, gnd, margin, ddif, n, j0, j1, sv);
    AdjustLeg(mpts, n, adj, jj, j0, j1, margin);
  }

  /** The whole of Rework. Without samples Go's sample distance is no number, and is not used. */
  method Rework(mpts: array<Point>, gnd: seq<int>, margin: int)
    requires mpts.Length > 0 && mpts[mpts.Length - 1].d >= 0.0
    modifies mpts
    ensures Fits(SurveyOf(old(mpts[..]), gnd, margin), old(mpts[..]))
    ensures mpts[..] == Reworked(SurveyOf(old(mpts[..]), gnd, margin), old(mpts[..]), 1)
  {
    hide LegDone, Marks, HasSamples;
    var nmp := mpts.Length;
    var np := |gnd|;
    var ddif := if np == 0 then 0.0 else mpts[nmp - 1].d / np as real;
    var mlist := Bucket(mpts, np, ddif);
    ghost var was := mpts[..];
    ghost var sv := SurveyOf(was, gnd, margin);
    SurveyFits(was, gnd, margin);
    var n: nat := 0;
    while n < |mlist|
      invariant n <= |mlist| == |sv.ms|
      invariant Fits(sv, mpts[..])
      invariant Reworked(sv, mpts[..], if n == 0 then 1 else n) == Reworked(sv, was, 1)
    {
      if n == 0 || n == |mlist| - 1 {
        n := n + 1;
        continue;
      }
      assert sv.ms[n] < sv.ms[n + 1];
      TreatLeg(mpts, gnd, margin, ddif, n, mlist[n].postgnd, mlist[n + 1].pregnd, sv);
      n := n + 1;
    }
  }

  // ---------- what the rework guarantees ----------

  /** Every scanned sample of leg n is cleared by the straight path between the leg's ends. */
  ghost predicate Cleared(sv: Survey, pts: seq<Point>, n: nat)
    requires Fits(sv, pts)
  {
    forall j: nat | Scanned(sv, n, j) :: Deficit(sv, pts, n, j) <= 0.0
  }

  /** How far along its leg sample j is taken to lie, as a part of the leg. */
  function Part(sv: Survey, pts: seq<Point>, n: nat, j: nat): real
    requires Fits(sv, pts) && Scanned(sv, n, j)
  {
    assert Measured(sv, pts, n);
    Walked(j - sv.ms[n], sv.ddif) / LegLength(pts, n)
  }

  lemma PartBounds(sv: Survey, pts: seq<Point>, n: nat, j: nat)
    requires Fits(sv, pts) && Scanned(sv, n, j)
    ensures Part(sv, pts, n, j) >= 0.0
    ensures OnLeg(sv, pts, n) ==> Part(sv, pts, n, j) < 1.0
  {
    assert Measured(sv, pts, n);
    var l, w := LegLength(pts, n), Walked(j - sv.ms[n], sv.ddif);
    WalkedGrows(0, j - sv.ms[n], sv.ddif);
    WalkedGrows(j - sv.ms[n], sv.ms[n + 1] - 2 - sv.ms[n], sv.ddif);
    NotNegative(w, l);
    if w < l {
      FractionInUnit(w, l);
    }
  }

  lemma FractionInUnit(w: real, l: real)
    requires 0.0 <= w < l
    ensures 0.0 <= w / l < 1.0
  {
  }

  /** The mean of two altitudes, the second weighted by t. */
  function Mean(t: real, a: int, b: int): real {
    (1.0 - t) * a as real + t * b as real
  }

  /** The path is the mean of its ends, weighted by the part of the leg. */
  lemma PathIsMean(sv: Survey, pts: seq<Point>, n: nat, j: nat)
    requires Fits(sv, pts) && Scanned(sv, n, j)
    ensures LegLength(pts, n) > 0.0
    ensures PathAltitude(pts, n, Walked(j - sv.ms[n], sv.ddif)) == Mean(Part(sv, pts, n, j), pts[n].xz, pts[n + 1].xz)
  {
    assert Measured(sv, pts, n);
    var l, w, t := LegLength(pts, n), Walked(j - sv.ms[n], sv.ddif), Part(sv, pts, n, j);
    var a, b := pts[n].xz as real, (pts[n + 1].xz - pts[n].xz) as real;
    assert b * w / l == b * t;
    assert a + b * t == (1.0 - t) * a + t * (a + b);
  }

  /** What moving the ends of a leg does to the deficit over a sample. */
  lemma DeficitMoves(sv: Survey, pts: seq<Point>, pts': seq<Point>, n: nat, j: nat)
    requires Fits(sv, pts) && Fits(sv, pts') && SameDistances(pts, pts') && Scanned(sv, n, j)
    ensures Deficit(sv, pts', n, j)
      == Deficit(sv, pts, n, j) - Mean(Part(sv, pts, n, j), pts'[n].xz - pts[n].xz, pts'[n + 1].xz - pts[n + 1].xz)
  {
    hide PathAltitude, Part, Mean;
    PathIsMean(sv, pts, n, j);
    PathIsMean(sv, pts', n, j);
    SamePart(sv, pts, pts', n, j);
    MeanMoves(Part(sv, pts, n, j), pts[n].xz, pts[n + 1].xz, pts'[n].xz, pts'[n + 1].xz);
  }

  lemma SamePart(sv: Survey, pts: seq<Point>, pts': seq<Point>, n: nat, j: nat)
    requires Fits(sv, pts) && Fits(sv, pts') && SameDistances(pts, pts') && Scanned(sv, n, j)
    ensures Part(sv, pts', n, j) == Part(sv, pts, n, j)
  {
    assert pts'[n].d == pts[n].d && pts'[n + 1].d == pts[n + 1].d;
  }

  lemma MeanMoves(t: real, a: int, b: int, a': int, b': int)
    ensures Mean(t, a', b') == Mean(t, a, b) + Mean(t, a' - a, b' - b)
  {
  }

  lemma MeanOfEqual(t: real, k: int)
    ensures Mean(t, k, k) == k as real
  {
  }

  lemma MeanNotNegative(t: real, a: int, b: int)
    requires t >= 0.0 && b >= 0 && (a == 0 || (a > 0 && t < 1.0))
    ensures Mean(t, a, b) >= 0.0
  {
    NonNegativeProduct(t, b as real);
    if a > 0 {
      NonNegativeProduct(1.0 - t, a as real);
    }
  }

  lemma NonNegativeProduct(x: real, y: real)
    requires x >= 0.0 && y >= 0.0
    ensures x * y >= 0.0
  {
  }

  /** Raising both ends of a leg by k lowers every deficit on it by k, even at samples past the far end. */
  lemma RaisingBoth(sv: Survey, pts: seq<Point>, pts': seq<Point>, n: nat, j: nat, k: int)
    requires Fits(sv, pts) && Fits(sv, pts') && SameDistances(pts, pts') && Scanned(sv, n, j)
    requires pts'[n].xz == pts[n].xz + k && pts'[n + 1].xz == pts[n + 1].xz + k
    ensures Deficit(sv, pts', n, j) == Deficit(sv, pts, n, j) - k as real
  {
    hide Deficit, Part, Mean;
    DeficitMoves(sv, pts, pts', n, j);
    MeanOfEqual(Part(sv, pts, n, j), k);
  }

  /** Raising the far end never adds to a deficit, nor does raising the near end where the samples lie on their leg. */
  lemma RaisingEnds(sv: Survey, pts: seq<Point>, pts': seq<Point>, n: nat, j: nat)
    requires Fits(sv, pts) && Fits(sv, pts') && SameDistances(pts, pts') && Scanned(sv, n, j)
    requires pts'[n].xz >= pts[n].xz && pts'[n + 1].xz >= pts[n + 1].xz
    requires pts'[n].xz == pts[n].xz || OnLeg(sv, pts, n)
    ensures Deficit(sv, pts', n, j) <= Deficit(sv, pts, n, j)
  {
    hide Deficit, Part, Mean;
    DeficitMoves(sv, pts, pts', n, j);
    PartBounds(sv, pts, n, j);
    MeanNotNegative(Part(sv, pts, n, j), pts'[n].xz - pts[n].xz, pts'[n + 1].xz - pts[n + 1].xz);
  }

  /** Higher waypoints on the same track stay clear. */
  lemma HigherStaysClear(sv: Survey, pts: seq<Point>, pts': seq<Point>, n: nat)
    requires Fits(sv, pts) && Fits(sv, pts') && SameDistances(pts, pts')
    requires n + 1 < |sv.ms| ==> pts[n].xz <= pts'[n].xz && pts[n + 1].xz <= pts'[n + 1].xz
    requires n + 1 < |sv.ms| ==> pts'[n].xz == pts[n].xz || OnLeg(sv, pts, n)
    requires Cleared(sv, pts, n)
    ensures Cleared(sv, pts', n)
  {
    forall j: nat | Scanned(sv, n, j) ensures Deficit(sv, pts', n, j) <= 0.0 {
      RaisingEnds(sv, pts, pts', n, j);
    }
  }

  /** Treating a leg whose far end is not the return home clears it. */
  lemma LegDoneClears(sv: Survey, pts: seq<Point>, n: nat)
    requires Fits(sv, pts) && 1 <= n && n + 1 < |sv.ms| && pts[n + 1].mark != Return
    ensures Cleared(sv, LegDone(sv, pts, n), n)
  {
    assert sv.ms[n] < sv.ms[n + 1];
    var j1 := sv.ms[n + 1] - 1;
    var adj := Worst(sv, pts, n, j1).0;
    WorstIsWorst(sv, pts, n, j1);
    var r := LegDone(sv, pts, n);
    forall j: nat | Scanned(sv, n, j) ensures Deficit(sv, r, n, j) <= 0.0 {
      RaisingBoth(sv, pts, r, n, j, if adj == 0.0 then 0 else Ceil(adj));
    }
  }

  /** The legs whose two ends the return-home adjustment cannot lower. */
  predicate AwayFromReturn(sv: Survey, pts: seq<Point>, m: nat)
    requires |sv.ms| <= |pts|
  {
    forall k | m < k <= m + 2 && k < |sv.ms| :: pts[k].mark != Return
  }

  /** Treating the legs from n on clears leg m if it is among them, and never spoils it if it is already done. */
  lemma {:induction false} ReworkClears(sv: Survey, pts: seq<Point>, n: nat, m: nat)
    requires Fits(sv, pts) && 1 <= n && 1 <= m && m + 1 < |sv.ms|
    requires n <= m + 1 ==> forall k | m < k <= m + 2 && n < k < |sv.ms| :: pts[k].mark != Return
    requires n > m ==> Cleared(sv, pts, m)
    ensures Cleared(sv, Reworked(sv, pts, n), m)
    decreases |sv.ms| - n
  {
    if n + 1 < |sv.ms| {
      var r := LegDone(sv, pts, n);
      assert sv.ms[n] < sv.ms[n + 1];
      WorstIsWorst(sv, pts, n, sv.ms[n + 1] - 1);
      if n == m {
        LegDoneClears(sv, pts, n);
      } else if n > m {
        HigherStaysClear(sv, pts, r, m);
      }
      ReworkClears(sv, r, n + 1, m);
    }
  }

  /** The tool's promise: after Rework, each leg between interior waypoints that is not next to the return home
      clears every sample scanned for it by the margin. */
  lemma ReworkedMissionClears(pts: seq<Point>, gnd: seq<int>, margin: int, m: nat)
    requires |pts| > 0 && pts[|pts| - 1].d >= 0.0
    requires var sv := SurveyOf(pts, gnd, margin); 1 <= m && m + 1 < |sv.ms| && AwayFromReturn(sv, pts, m)
    ensures var sv := SurveyOf(pts, gnd, margin);
      Fits(sv, pts) && Cleared(sv, Reworked(sv, pts, 1), m)
  {
    SurveyFits(pts, gnd, margin);
    ReworkClears(SurveyOf(pts, gnd, margin), pts, 1, m);
  }

  /** The common raise of both ends is the least whole number of metres that clears the leg. */
  lemma RaiseIsLeast(sv: Survey, pts: seq<Point>, pts': seq<Point>, n: nat, k: nat)
    requires Fits(sv, pts) && Fits(sv, pts') && SameDistances(pts, pts') && 1 <= n && n + 1 < |sv.ms|
    requires pts'[n].xz == pts[n].xz + k && pts'[n + 1].xz == pts[n + 1].xz + k
    ensures sv.ms[n] < sv.ms[n + 1]
    ensures Cleared(sv, pts', n) <==> k >= Ceil(Worst(sv, pts, n, sv.ms[n + 1] - 1).0)
  {
    assert sv.ms[n] < sv.ms[n + 1];
    var (adj, jj) := Worst(sv, pts, n, sv.ms[n + 1] - 1);
    WorstIsWorst(sv, pts, n, sv.ms[n + 1] - 1);
    if k >= Ceil(adj) {
      forall j: nat | Scanned(sv, n, j) ensures Deficit(sv, pts', n, j) <= 0.0 {
        RaisingBoth(sv, pts, pts', n, j, k);
      }
    } else {
      assert Scanned(sv, n, jj);
      RaisingBoth(sv, pts, pts', n, jj, k);
    }
  }

  /** Without a return home on the legs treated, no waypoint is ever lowered. */
  lemma {:induction false} ReworkOnlyRaises(sv: Survey, pts: seq<Point>, n: nat, i: nat)
    requires Fits(sv, pts) && 1 <= n && i < |pts|
    requires forall k | n < k < |sv.ms| :: pts[k].mark != Return
    ensures pts[i].xz <= Reworked(sv, pts, n)[i].xz
    decreases |sv.ms| - n
  {
    if n + 1 < |sv.ms| {
      assert sv.ms[n] < sv.ms[n + 1];
      WorstIsWorst(sv, pts, n, sv.ms[n + 1] - 1);
      ReworkOnlyRaises(sv, LegDone(sv, pts, n), n + 1, i);
    }
  }

  /** The first end of every treated leg is marked as updated, and a waypoint left unmarked keeps its altitude. */
  lemma {:induction false} TreatedAreMarked(sv: Survey, pts: seq<Point>, n: nat, i: nat)
    requires Fits(sv, pts) && 1 <= n && i < |pts|
    ensures (n <= i && i + 1 < |sv.ms|) || pts[i].mark == Updated ==> Reworked(sv, pts, n)[i].mark == Updated
    ensures Reworked(sv, pts, n)[i].mark == Updated || Reworked(sv, pts, n)[i] == pts[i]
    decreases |sv.ms| - n
  {
    if n + 1 < |sv.ms| {
      TreatedAreMarked(sv, LegDone(sv, pts, n), n + 1, i);
    }
  }

  // ---------- how far apart the tool's samples are ----------

  function AtMost(n: int, most: int): int {
    if n > most then most else n
  }

  /** The number of samples the tool takes along a mission; elevations from a web service are rationed. */
  function SampleCount(length: real, points: nat, web: bool): (n: int) {
    var npts := Trunc(length) / 30;
    var rationed := if web then AtMost(AtMost(npts, 20 * points), 1024) else npts;
    if rationed < 4 then 4 else rationed
  }

  /** Samples are at least a metre apart exactly when the mission is at least four metres long. */
  lemma FourMetresSuffice(length: real, points: nat, web: bool)
    requires length >= 0.0
    ensures length >= SampleCount(length, points, web) as real <==> length >= 4.0
  {
    var npts := Trunc(length) / 30;
    assert npts as real <= length;
  }

  /** From 120 m on, samples of local terrain are thirty metres apart, or up to thirty more shared among all of them; a web
      service is asked for 1024 at the most. */
  lemma ThirtyMetres(length: real, points: nat, web: bool)
    requires length >= 120.0
    ensures var n := SampleCount(length, points, web); if web then n <= 1024 else 30.0 * n as real <= length < 30.0 * (n + 1) as real
  {
    var npts := Trunc(length) / 30;
    assert 30 * npts <= Trunc(length) < 30 * npts + 30;
    assert Trunc(length) as real <= length < Trunc(length) as real + 1.0;
  }

  // ---------- the return home can spoil the leg before it ----------

  /** A mission of four points whose third is lowered on account of the return home. */
  const SPOILED: seq<Point> := [
    Point(0.0, 0.0, 0.0, 0.0, 0, 0, 0, 0, 0, 0, Home),
    Point(0.0, 0.0, 2.0, 0.0, 0, 0, 100, 100, 0, 1, Init),
    Point(0.0, 0.0, 5.0, 0.0, 0, 0, 100, 100, 0, 2, Init),
    Point(0.0, 0.0, 7.0, 0.0, 0, 0, 100, 100, 0, -1, Return)]

  const SPOILED_GROUND: seq<int> := [0, 50, 50, 0, 51, 0, 0]

  lemma SpoiledMarks()
    ensures Marks(SPOILED, 1.0, 7, 0, 0) == [0, 1, 4, 6]
  {
    assert Marks(SPOILED, 1.0, 7, 6, 3) == [6];
    assert Marks(SPOILED, 1.0, 7, 5, 3) == [6];
    assert Marks(SPOILED, 1.0, 7, 4, 2) == [4, 6];
    assert Marks(SPOILED, 1.0, 7, 3, 2) == [4, 6];
    assert Marks(SPOILED, 1.0, 7, 2, 2) == [4, 6];
    assert Marks(SPOILED, 1.0, 7, 1, 1) == [1, 4, 6];
  }

  const SPOILED_SURVEY := Survey(SPOILED_GROUND, 50, 1.0, [0, 1, 4, 6])

  lemma SpoiledSurvey()
    ensures SurveyOf(SPOILED, SPOILED_GROUND, 50) == SPOILED_SURVEY && Fits(SPOILED_SURVEY, SPOILED)
  {
    SpoiledMarks();
    SurveyFits(SPOILED, SPOILED_GROUND, 50);
  }

  lemma SpoiledFirstLeg()
    ensures Fits(SPOILED_SURVEY, SPOILED) && Cleared(SPOILED_SURVEY, SPOILED, 1)
    ensures LegDone(SPOILED_SURVEY, SPOILED, 1) == SPOILED[1 := SPOILED[1].(mark := Updated)]
  {
    SpoiledSurvey();
    var sv := SPOILED_SURVEY;
    assert Deficit(sv, SPOILED, 1, 1) == 0.0;
    assert Deficit(sv, SPOILED, 1, 2) == 0.0;
    assert Worst(sv, SPOILED, 1, 1) == (0.0, 1);
    assert Worst(sv, SPOILED, 1, 2) == (0.0, 1);
  }

  lemma SpoiledLastLeg(pts: seq<Point>)
    requires pts == SPOILED[1 := SPOILED[1].(mark := Updated)] && Fits(SPOILED_SURVEY, pts)
    ensures LegDone(SPOILED_SURVEY, pts, 2) == pts[2 := pts[2].(xz := 52, mark := Updated)]
  {
    var sv := SPOILED_SURVEY;
    assert Deficit(sv, pts, 2, 4) == 1.0;
    assert Worst(sv, pts, 2, 4) == (0.0, 4);
    assert Worst(sv, pts, 2, 5) == (1.0, 4);
  }

  /** The leg in front of the return home starts out clear and ends up 16 metres short. */
  lemma ReturnCanSpoil()
    ensures var sv := SurveyOf(SPOILED, SPOILED_GROUND, 50);
      && Fits(sv, SPOILED) && Cleared(sv, SPOILED, 1)
      && Scanned(sv, 1, 2) && Deficit(sv, Reworked(sv, SPOILED, 1), 1, 2) == 16.0
  {
    SpoiledSurvey();
    SpoiledFirstLeg();
    var sv := SPOILED_SURVEY;
    var r1 := LegDone(sv, SPOILED, 1);
    SpoiledLastLeg(r1);
    var r2 := LegDone(sv, r1, 2);
    assert Reworked(sv, r2, 3) == r2;
    assert Reworked(sv, r1, 2) == r2;
    assert Reworked(sv, SPOILED, 1) == r2;
    assert Walked(1, 1.0) == 1.0;
    assert PathAltitude(r2, 1, 1.0) == 84.0;
  }
}

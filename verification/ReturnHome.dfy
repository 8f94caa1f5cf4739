/** What the return home does to the legs next to it: when the adjustment lowers a waypoint, and when the legs stay clear. */
module ReturnHome {
  import opened Mission
  import opened Options
  import opened Rework

  // ---------- the adjustment ----------

  /** The part of a raise that falls on sample jj of [j0, j1), in whole metres. */
  function Share(up: int, jj: int, j0: int, j1: int): int
    requires j0 != j1
  {
    Trunc(up as real * (1.0 - (jj - j0) as real / (j1 - j0) as real))
  }

  /** The altitude of the first waypoint of a leg to the return home, whose worst deficit adj lies at sample jj of [j0, j1). */
  function AfterReturn(p: Point, adj: real, jj: int, j0: int, j1: int, margin: int): int
    requires adj != 0.0 ==> j0 != j1
  {
    if adj == 0.0 then p.xz
    else
      var z := p.xz + Ceil(adj) + Share(Ceil(adj), jj, j0, j1) - margin;
      if z < p.gz + margin then p.gz + margin else z
  }

  /** The adjustment of a leg that ends at the return home lowers the leg's first waypoint exactly when there is a
      deficit, the waypoint stands above its own ground by more than the margin, and the whole raise together with its
      part at the worst sample is less than the margin. */
  lemma LowersExactly(pts: seq<Point>, n: nat, adj: real, jj: int, j0: int, j1: int, margin: int)
    requires n + 1 < |pts| && pts[n + 1].mark == Return && adj >= 0.0 && (adj != 0.0 ==> j0 < j1)
    ensures Adjusted(pts, n, adj, jj, j0, j1, margin)[n].xz < pts[n].xz <==> Lowers(pts[n], adj, jj, j0, j1, margin)
    ensures Adjusted(pts, n, adj, jj, j0, j1, margin)[n].xz == AfterReturn(pts[n], adj, jj, j0, j1, margin)
  {
  }

  predicate Lowers(p: Point, adj: real, jj: int, j0: int, j1: int, margin: int) {
    && adj > 0.0 && j0 != j1 && p.gz + margin < p.xz
    && Ceil(adj) + Share(Ceil(adj), jj, j0, j1) < margin
  }

  // ---------- the legs before the adjustment ----------

  /** The points after the legs before k have been treated in order. */
  function Treated(sv: Survey, pts: seq<Point>, k: nat): (r: seq<Point>)
    requires Fits(sv, pts) && 1 <= k && (k == 1 || k < |sv.ms|)
    ensures Fits(sv, r) && SameTrack(pts, r)
    ensures forall i | k < i < |pts| :: r[i] == pts[i]
    decreases k
  {
    if k == 1 then pts else LegDone(sv, Treated(sv, pts, k - 1), k - 1)
  }

  lemma {:induction false} TreatedThenRest(sv: Survey, pts: seq<Point>, k: nat)
    requires Fits(sv, pts) && 1 <= k && (k == 1 || k < |sv.ms|)
    ensures Reworked(sv, Treated(sv, pts, k), k) == Reworked(sv, pts, 1)
    decreases k
  {
    if k > 1 {
      TreatedThenRest(sv, pts, k - 1);
    }
  }

  // ---------- how much a leg can take ----------

  /** The most by which the far end of a leg can come down before one of the samples before `last` is no longer cleared;
      None when no such sample lies past the leg's start. */
  function Spare(sv: Survey, pts: seq<Point>, n: nat, last: nat): Option<real>
    requires Fits(sv, pts) && 1 <= n && n + 1 < |sv.ms| && sv.ms[n] <= last < sv.ms[n + 1]
    decreases last
  {
    if last == sv.ms[n] then None
    else
      var rest, t := Spare(sv, pts, n, last - 1), Part(sv, pts, n, last - 1);
      if t <= 0.0 then rest
      else
        Capped(rest, -Deficit(sv, pts, n, last - 1) / t)
  }

  function Capped(most: Option<real>, x: real): Option<real> {
    if most.Some? && most.value <= x then most else Some(x)
  }

  function Floored(least: Option<real>, x: real): Option<real> {
    if least.Some? && least.value >= x then least else Some(x)
  }

  predicate Within(lowered: int, spare: Option<real>) {
    spare.None? || lowered as real <= spare.value
  }

  lemma Bound(t: real, x: real, d: real)
    requires t > 0.0
    ensures d + t * x <= 0.0 <==> x <= -d / t
  {
    var q := -d / t;
    assert q * t == -d;
    if x <= q {
      NonNegativeProduct(t, q - x);
    } else {
      StrictProduct(t, x - q);
    }
  }

  lemma FarMean(t: real, b: int)
    ensures Mean(t, 0, -b) == -(t * b as real)
  {
  }

  lemma SpareAt(sv: Survey, pts: seq<Point>, pts': seq<Point>, n: nat, j: nat)
    requires Fits(sv, pts) && Fits(sv, pts') && SameDistances(pts, pts') && Scanned(sv, n, j)
    requires pts'[n].xz == pts[n].xz && Deficit(sv, pts, n, j) <= 0.0
    ensures var t, lowered := Part(sv, pts, n, j), (pts[n + 1].xz - pts'[n + 1].xz) as real;
      Deficit(sv, pts', n, j) <= 0.0 <==> t <= 0.0 || lowered <= -Deficit(sv, pts, n, j) / t
  {
    hide Deficit, Part, Mean;
    DeficitMoves(sv, pts, pts', n, j);
    PartBounds(sv, pts, n, j);
    var t, lowered := Part(sv, pts, n, j), pts[n + 1].xz - pts'[n + 1].xz;
    FarMean(t, lowered);
    if t > 0.0 {
      Bound(t, lowered as real, Deficit(sv, pts, n, j));
    }
  }

  /** The samples before `last` are cleared. */
  ghost predicate ClearedBefore(sv: Survey, pts: seq<Point>, n: nat, last: nat)
    requires Fits(sv, pts) && 1 <= n && n + 1 < |sv.ms| && last < sv.ms[n + 1]
  {
    forall j: nat | sv.ms[n] <= j < last :: Deficit(sv, pts, n, j) <= 0.0
  }

  lemma ClearedStep(sv: Survey, pts: seq<Point>, n: nat, last: nat)
    requires Fits(sv, pts) && 1 <= n && n + 1 < |sv.ms| && sv.ms[n] < last < sv.ms[n + 1]
    ensures ClearedBefore(sv, pts, n, last) <==> ClearedBefore(sv, pts, n, last - 1) && Deficit(sv, pts, n, last - 1) <= 0.0
  {
    hide Deficit;
  }

  lemma ClearedWhole(sv: Survey, pts: seq<Point>, n: nat)
    requires Fits(sv, pts) && 1 <= n && n + 1 < |sv.ms|
    ensures sv.ms[n] < sv.ms[n + 1]
    ensures Cleared(sv, pts, n) <==> ClearedBefore(sv, pts, n, sv.ms[n + 1] - 1)
  {
    hide Deficit;
    assert sv.ms[n] < sv.ms[n + 1];
  }

  /** Lowering the far end of a cleared leg keeps it clear exactly when it stays within the leg's spare height. */
  lemma {:induction false} SpareIsExact(sv: Survey, pts: seq<Point>, pts': seq<Point>, n: nat, last: nat)
    requires Fits(sv, pts) && Fits(sv, pts') && SameDistances(pts, pts') && Cleared(sv, pts, n)
    requires 1 <= n && n + 1 < |sv.ms| && sv.ms[n] <= last < sv.ms[n + 1] && pts'[n].xz == pts[n].xz
    ensures ClearedBefore(sv, pts', n, last) <==> Within(pts[n + 1].xz - pts'[n + 1].xz, Spare(sv, pts, n, last))
    decreases last
  {
    if last > sv.ms[n] {
      assert Scanned(sv, n, last - 1);
      SpareIsExact(sv, pts, pts', n, last - 1);
      SpareAt(sv, pts, pts', n, last - 1);
      ClearedStep(sv, pts', n, last);
      hide Deficit, Part, ClearedBefore;
    }
  }

  /** What is asked of a change of a leg's near end: at least, for the samples short of the far end; at most, for those the
      rounding has put past it, where the path falls when the near end rises; and whether those level with it are clear. */
  datatype Band = Band(least: Option<real>, most: Option<real>, level: bool)

  /** The change that clears all samples before `last`. */
  function Lack(sv: Survey, pts: seq<Point>, n: nat, last: nat): Band
    requires Fits(sv, pts) && 1 <= n && n + 1 < |sv.ms| && sv.ms[n] <= last < sv.ms[n + 1]
    decreases last
  {
    if last == sv.ms[n] then Band(None, None, true)
    else
      var rest, t, d := Lack(sv, pts, n, last - 1), Part(sv, pts, n, last - 1), Deficit(sv, pts, n, last - 1);
      if t < 1.0 then rest.(least := Floored(rest.least, d / (1.0 - t)))
      else if t > 1.0 then rest.(most := Capped(rest.most, -d / (t - 1.0)))
      else rest.(level := rest.level && d <= 0.0)
  }

  predicate Covers(raised: int, lack: Band) {
    (lack.least.Some? ==> raised as real >= lack.least.value) && Within(raised, lack.most) && lack.level
  }

  lemma NearMean(t: real, a: int)
    ensures Mean(t, a, 0) == (1.0 - t) * a as real
  {
  }

  lemma LackAt(sv: Survey, pts: seq<Point>, pts': seq<Point>, n: nat, j: nat)
    requires Fits(sv, pts) && Fits(sv, pts') && SameDistances(pts, pts') && Scanned(sv, n, j)
    requires pts'[n + 1].xz == pts[n + 1].xz
    ensures var t, d, raised := Part(sv, pts, n, j), Deficit(sv, pts, n, j), (pts'[n].xz - pts[n].xz) as real;
      Deficit(sv, pts', n, j) <= 0.0 <==>
        (if t < 1.0 then raised >= d / (1.0 - t) else if t > 1.0 then raised <= -d / (t - 1.0) else d <= 0.0)
  {
    hide Deficit, Part, Mean;
    DeficitMoves(sv, pts, pts', n, j);
    var t, raised, d := Part(sv, pts, n, j), pts'[n].xz - pts[n].xz, Deficit(sv, pts, n, j);
    NearMean(t, raised);
    if t < 1.0 {
      Bound(1.0 - t, -(raised as real), d);
      assert -d / (1.0 - t) == -(d / (1.0 - t));
    } else if t > 1.0 {
      Bound(t - 1.0, raised as real, d);
      assert (1.0 - t) * raised as real == -((t - 1.0) * raised as real);
    }
  }

  /** Moving the near end of a leg clears it exactly when it moves by what the leg lacks. */
  lemma {:induction false} LackIsExact(sv: Survey, pts: seq<Point>, pts': seq<Point>, n: nat, last: nat)
    requires Fits(sv, pts) && Fits(sv, pts') && SameDistances(pts, pts') && 1 <= n && n + 1 < |sv.ms|
    requires sv.ms[n] <= last < sv.ms[n + 1] && pts'[n + 1].xz == pts[n + 1].xz
    ensures ClearedBefore(sv, pts', n, last) <==> Covers(pts'[n].xz - pts[n].xz, Lack(sv, pts, n, last))
    decreases last
  {
    if last > sv.ms[n] {
      assert Scanned(sv, n, last - 1);
      LackIsExact(sv, pts, pts', n, last - 1);
      LackAt(sv, pts, pts', n, last - 1);
      ClearedStep(sv, pts', n, last);
      hide Deficit, Part, ClearedBefore;
    }
  }

  // ---------- every leg of a mission ----------

  /** The return home, if there is one, is the last point. */
  predicate ReturnLast(pts: seq<Point>) {
    forall i | 0 <= i < |pts| - 1 :: pts[i].mark != Return
  }

  /** The altitude of leg n's first waypoint once the leg, which ends at the return home, has been treated. */
  function Moved(sv: Survey, pts: seq<Point>, n: nat): int
    requires Fits(sv, pts) && 1 <= n && n + 1 < |sv.ms|
  {
    assert sv.ms[n] < sv.ms[n + 1];
    var last: nat := sv.ms[n + 1] - 1;
    var (adj, jj) := Worst(sv, pts, n, last);
    AfterReturn(pts[n], adj, jj, sv.ms[n], last, sv.margin)
  }

  /** Leg m ends clear: always, unless the leg after it or the leg itself ends at the return home. */
  predicate EndsClear(sv: Survey, pts: seq<Point>, m: nat)
    requires Fits(sv, pts) && 1 <= m && m + 1 < |sv.ms|
  {
    assert sv.ms[m] < sv.ms[m + 1];
    var last: nat := sv.ms[m + 1] - 1;
    if pts[m + 1].mark == Return then
      var was := Treated(sv, pts, m);
      Covers(Moved(sv, was, m) - was[m].xz, Lack(sv, was, m, last))
    else if m + 2 < |sv.ms| && pts[m + 2].mark == Return then
      var was := Treated(sv, pts, m + 1);
      Within(was[m + 1].xz - Moved(sv, was, m + 1), Spare(sv, was, m, last))
    else true
  }

  /** The exact clearance of a whole reworked mission. In front of the return home a leg stays clear if and only if the
      adjustment lowers their common waypoint by no more than the leg's spare height; the last leg is clear if and only if
      its first waypoint is moved by what it lacks. */
  lemma ClearExactly(sv: Survey, pts: seq<Point>, m: nat)
    requires Fits(sv, pts) && ReturnLast(pts) && 1 <= m && m + 1 < |sv.ms|
    ensures Cleared(sv, Reworked(sv, pts, 1), m) <==> EndsClear(sv, pts, m)
  {
    if pts[m + 1].mark == Return {
      LastLegExactly(sv, pts, m);
    } else if m + 2 < |sv.ms| && pts[m + 2].mark == Return {
      LegBeforeLastExactly(sv, pts, m);
    } else {
      ReworkClears(sv, pts, 1, m);
    }
  }

  lemma LastLegExactly(sv: Survey, pts: seq<Point>, m: nat)
    requires Fits(sv, pts) && ReturnLast(pts) && 1 <= m && m + 1 < |sv.ms| && pts[m + 1].mark == Return
    ensures Cleared(sv, Reworked(sv, pts, 1), m) <==> EndsClear(sv, pts, m)
  {
    hide Lack, Adjusted, Worst, Moved, Deficit, ClearedBefore, LegDone;
    var was := Treated(sv, pts, m);
    TreatedThenRest(sv, pts, m);
    var r := LegDone(sv, was, m);
    assert m + 2 == |sv.ms| && Reworked(sv, r, m + 1) == r;
    ReturnLegMoves(sv, was, m);
    ClearedWhole(sv, r, m);
    LackIsExact(sv, was, r, m, sv.ms[m + 1] - 1);
  }

  /** Treating a leg that ends at the return home moves its first waypoint only. */
  lemma ReturnLegMoves(sv: Survey, pts: seq<Point>, n: nat)
    requires Fits(sv, pts) && 1 <= n && n + 1 < |sv.ms| && pts[n + 1].mark == Return
    ensures forall i | 0 <= i < |pts| && i != n :: LegDone(sv, pts, n)[i] == pts[i]
    ensures LegDone(sv, pts, n)[n].xz == Moved(sv, pts, n)
  {
    hide Worst;
    assert sv.ms[n] < sv.ms[n + 1];
    WorstIsWorst(sv, pts, n, sv.ms[n + 1] - 1);
  }

  /** In front of the return home: the legs up to m are done, then the last one, which moves the end of leg m only. */
  lemma LegBeforeLast(sv: Survey, pts: seq<Point>, m: nat)
    requires Fits(sv, pts) && ReturnLast(pts) && 1 <= m && m + 2 < |sv.ms| && pts[m + 2].mark == Return
    ensures var was := Treated(sv, pts, m + 1);
      && Cleared(sv, was, m) && was[m + 2].mark == Return
      && Reworked(sv, pts, 1) == LegDone(sv, was, m + 1)
      && (forall i | 0 <= i < |pts| && i != m + 1 :: LegDone(sv, was, m + 1)[i] == was[i])
      && LegDone(sv, was, m + 1)[m + 1].xz == Moved(sv, was, m + 1)
  {
    hide Adjusted, Worst, Moved, Deficit, Cleared;
    var was := Treated(sv, pts, m + 1);
    TreatedThenRest(sv, pts, m + 1);
    assert m + 3 == |sv.ms| && Reworked(sv, LegDone(sv, was, m + 1), m + 2) == LegDone(sv, was, m + 1);
    assert was[m + 2] == pts[m + 2];
    ReturnLegMoves(sv, was, m + 1);
    LegDoneClears(sv, Treated(sv, pts, m), m);
  }

  lemma LegBeforeLastExactly(sv: Survey, pts: seq<Point>, m: nat)
    requires Fits(sv, pts) && ReturnLast(pts) && 1 <= m && m + 2 < |sv.ms| && pts[m + 2].mark == Return
    ensures Cleared(sv, Reworked(sv, pts, 1), m) <==> EndsClear(sv, pts, m)
  {
    hide Spare, Lack, Moved, ClearedBefore, Cleared, Reworked, Treated, LegDone;
    LegBeforeLast(sv, pts, m);
    var was := Treated(sv, pts, m + 1);
    var r := LegDone(sv, was, m + 1);
    ClearedWhole(sv, r, m);
    SpareIsExact(sv, was, r, m, sv.ms[m + 1] - 1);
  }

  /** The adjustment of leg n, which ends at the return home, lowers the leg's first waypoint. */
  predicate LowersAt(sv: Survey, pts: seq<Point>, n: nat)
    requires Fits(sv, pts) && 1 <= n && n + 1 < |sv.ms|
  {
    assert sv.ms[n] < sv.ms[n + 1];
    var last: nat := sv.ms[n + 1] - 1;
    var (adj, jj) := Worst(sv, pts, n, last);
    Lowers(pts[n], adj, jj, sv.ms[n], last, sv.margin)
  }

  lemma LegLowersExactly(sv: Survey, pts: seq<Point>, n: nat)
    requires Fits(sv, pts) && 1 <= n && n + 1 < |sv.ms| && pts[n + 1].mark == Return
    ensures LegDone(sv, pts, n)[n].xz < pts[n].xz <==> LowersAt(sv, pts, n)
  {
    assert sv.ms[n] < sv.ms[n + 1];
    var last: nat := sv.ms[n + 1] - 1;
    WorstIsWorst(sv, pts, n, last);
    var (adj, jj) := Worst(sv, pts, n, last);
    LowersExactly(pts, n, adj, jj, sv.ms[n], last, sv.margin);
  }

  /** In particular a leg in front of the return home stays clear whenever the adjustment's guard fails. */
  lemma UnloweredStaysClear(sv: Survey, pts: seq<Point>, m: nat)
    requires Fits(sv, pts) && ReturnLast(pts) && 1 <= m && m + 2 < |sv.ms| && pts[m + 2].mark == Return
    requires !LowersAt(sv, Treated(sv, pts, m + 1), m + 1)
    ensures Cleared(sv, Reworked(sv, pts, 1), m)
  {
    hide Cleared, Reworked, Treated, LegDone, LowersAt, Moved;
    LegBeforeLast(sv, pts, m);
    var was := Treated(sv, pts, m + 1);
    var r := LegDone(sv, was, m + 1);
    LegLowersExactly(sv, was, m + 1);
    HigherStaysClear(sv, was, r, m);
  }

  /** The same for a mission and its samples, whatever the distance between samples. */
  lemma MissionClearsExactly(pts: seq<Point>, gnd: seq<int>, margin: int, m: nat)
    requires |pts| > 0 && pts[|pts| - 1].d >= 0.0 && ReturnLast(pts)
    requires var sv := SurveyOf(pts, gnd, margin); 1 <= m && m + 1 < |sv.ms|
    ensures var sv := SurveyOf(pts, gnd, margin);
      Fits(sv, pts) && (Cleared(sv, Reworked(sv, pts, 1), m) <==> EndsClear(sv, pts, m))
  {
    SurveyFits(pts, gnd, margin);
    ClearExactly(SurveyOf(pts, gnd, margin), pts, m);
  }
}

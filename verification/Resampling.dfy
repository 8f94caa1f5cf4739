/** Ground samples at even distances along a path, taken with one cursor that moves along its points. */
module Resampling {
  import opened Mission
  import opened MissionPath
  import opened Options
  import opened Rework

  /** The elevation model at a latitude and longitude. */
  type Dem = (real, real) -> real

  /** The place reached from a latitude and longitude on a course for a distance in nautical miles. */
  type Posit = (real, real, real, real) -> (real, real)

  /** Distances along the path start at zero and never fall. */
  ghost predicate Along(pts: seq<Point>) {
    && pts != [] && pts[0].d == 0.0
    && forall i, j | 0 <= i < j < |pts| :: pts[i].d <= pts[j].d
  }

  /** The first point of the whole path that lies beyond a distance; their number when none does. */
  function FirstBeyond(pts: seq<Point>, dist: real): (k: nat)
    ensures k <= |pts| && (k < |pts| ==> dist < pts[k].d)
  {
    if pts == [] || dist < pts[0].d then 0 else 1 + FirstBeyond(pts[1..], dist)
  }

  lemma {:induction false} FirstBeyondIsFirst(pts: seq<Point>, dist: real, k: nat)
    requires k < |pts| && dist < pts[k].d && forall i | 0 <= i < k :: pts[i].d <= dist
    ensures FirstBeyond(pts, dist) == k
  {
    if k > 0 {
      assert pts[0].d <= dist;
      forall i | 0 <= i < k - 1 ensures pts[1..][i].d <= dist {
        assert pts[1..][i] == pts[i + 1];
      }
      FirstBeyondIsFirst(pts[1..], dist, k - 1);
    }
  }

  /** The distance of sample j of n along a path of this length. */
  function Distance(length: real, j: nat, n: nat): real
    requires n >= 2
  {
    length * j as real / (n - 1) as real
  }

  /** The samples run from one end of the path to the other in even steps. */
  lemma EvenSteps(length: real, j: nat, n: nat)
    requires n >= 2 && j + 1 < n
    ensures Distance(length, 0, n) == 0.0 && Distance(length, n - 1, n) == length
    ensures (Distance(length, j + 1, n) - Distance(length, j, n)) * (n - 1) as real == length
  {
    var m, a := (n - 1) as real, j as real;
    Divides(length * a, m);
    Divides(length * (a + 1.0), m);
    Divides(length * m, m);
    assert length * (a + 1.0) - length * a == length;
    var x, y := length * (a + 1.0) / m, length * a / m;
    assert (x - y) * m == x * m - y * m;
    Whole(length, m);
  }

  lemma Divides(x: real, m: real)
    requires m != 0.0
    ensures x / m * m == x
  {
  }

  lemma Whole(x: real, m: real)
    requires m != 0.0
    ensures x * m / m == x
  {
  }

  lemma DistanceBounds(length: real, j: nat, n: nat)
    requires n >= 2 && 1 <= j < n - 1 && length >= 0.0
    ensures 0.0 <= Distance(length, j - 1, n) <= Distance(length, j, n) <= length
    ensures length > 0.0 ==> Distance(length, j, n) < length
    ensures length == 0.0 ==> Distance(length, j, n) == 0.0
  {
    var m := (n - 1) as real;
    var a, b := j as real, (j - 1) as real;
    assert length * b <= length * a;
    Quotients(length * b, length * a, m);
    if length > 0.0 {
      assert length * a < length * m;
      Quotient(length, m, length * a);
    }
  }

  lemma Quotients(x: real, y: real, m: real)
    requires 0.0 <= x <= y && m > 0.0
    ensures 0.0 <= x / m <= y / m
  {
  }

  lemma Quotient(x: real, m: real, y: real)
    requires m > 0.0 && y < x * m
    ensures y / m < x
  {
    assert x * m / m == x;
  }

  /** The elevation on the leg to point k, at a distance along the path. */
  function Sample(pts: seq<Point>, dem: Dem, posit: Posit, k: nat, dist: real): int
    requires 0 < k < |pts|
  {
    var from := pts[k - 1];
    var place := posit(from.y, from.x, pts[k].c, (dist - from.d) / 1852.0);
    Trunc(dem(place.0, place.1))
  }

  /** The sample, said of the place: as many miles, of 1852 metres, from the point before on the course of the leg, and the
      elevation there without its fraction. */
  lemma SampleStands(pts: seq<Point>, dem: Dem, posit: Posit, k: nat, dist: real, miles: real)
    requires 0 < k < |pts| && pts[k - 1].d + miles * 1852.0 == dist
    ensures var place := posit(pts[k - 1].y, pts[k - 1].x, pts[k].c, miles);
      var e, h := Sample(pts, dem, posit, k, dist), dem(place.0, place.1);
      if h >= 0.0 then 0.0 <= h - e as real < 1.0 && e >= 0 else -1.0 < h - e as real <= 0.0 && e <= 0
  {
    assert (dist - pts[k - 1].d) / 1852.0 == miles;
    var place := posit(pts[k - 1].y, pts[k - 1].x, pts[k].c, miles);
    TruncDropsFraction(dem(place.0, place.1));
  }

  lemma {:induction false} NoneBeyond(pts: seq<Point>, dist: real)
    requires forall i | 0 <= i < |pts| :: pts[i].d <= dist
    ensures FirstBeyond(pts, dist) == |pts|
  {
    if pts != [] {
      assert forall i | 0 <= i < |pts| - 1 :: pts[1..][i] == pts[i + 1];
      NoneBeyond(pts[1..], dist);
    }
  }

  lemma {:induction false} BeforeFirst(pts: seq<Point>, dist: real, i: nat)
    requires i < FirstBeyond(pts, dist)
    ensures pts[i].d <= dist
  {
    if i > 0 {
      BeforeFirst(pts[1..], dist, i - 1);
    }
  }

  /** The first point beyond a distance, looking from point lastp on. */
  function NextBeyond(pts: seq<Point>, lastp: nat, dist: real): (k: nat)
    requires lastp <= |pts|
    ensures lastp <= k <= |pts|
  {
    lastp + FirstBeyond(pts[lastp..], dist)
  }

  /** The source's inner loop: the cursor moves to the next point beyond the distance, if there is one. */
  method Advance(pts: seq<Point>, lastp: nat, dist: real) returns (r: nat)
    requires lastp < |pts|
    ensures var k := NextBeyond(pts, lastp, dist); r == if k < |pts| then k else lastp
  {
    for k := lastp to |pts|
      invariant forall i | lastp <= i < k :: pts[i].d <= dist
    {
      if dist < pts[k].d {
        FirstBeyondIsFirst(pts[lastp..], dist, k - lastp);
        return k;
      }
    }
    r := lastp;
    NoneBeyond(pts[lastp..], dist);
  }

  /** Where the cursor stands after sample j - 1 of a path: not past a point that lies beyond that sample. */
  ghost predicate Behind(pts: seq<Point>, lastp: nat, dist: real) {
    lastp < |pts| && forall i | 0 <= i < lastp :: pts[i].d <= dist
  }

  /** From there the next point beyond sample j is the first of the whole path, and is not the start. */
  lemma CursorMoves(pts: seq<Point>, lastp: nat, j: nat, n: nat)
    requires Along(pts) && pts[|pts| - 1].d > 0.0 && n >= 2 && 1 <= j < n - 1
    requires Behind(pts, lastp, Distance(pts[|pts| - 1].d, j - 1, n))
    ensures var dist := Distance(pts[|pts| - 1].d, j, n); var k := FirstBeyond(pts, dist);
      && NextBeyond(pts, lastp, dist) == k && 0 < k < |pts| && pts[k - 1].d <= dist < pts[k].d && Behind(pts, k, dist)
  {
    var last := |pts| - 1;
    var dist := Distance(pts[last].d, j, n);
    DistanceBounds(pts[last].d, j, n);
    hide Distance;
    var k := FirstBeyond(pts, dist);
    if k == |pts| {
      BeforeFirst(pts, dist, last);
    }
    forall i | 0 <= i < k ensures pts[i].d <= dist {
      BeforeFirst(pts, dist, i);
    }
    assert lastp <= k;
    SameFromCursor(pts, lastp, dist, k);
  }

  lemma SameFromCursor(pts: seq<Point>, lastp: nat, dist: real, k: nat)
    requires lastp <= k < |pts| && dist < pts[k].d && forall i | 0 <= i < k :: pts[i].d <= dist
    ensures NextBeyond(pts, lastp, dist) == k
  {
    FirstBeyondIsFirst(pts[lastp..], dist, k - lastp);
  }

  /** On a path of no length the cursor never leaves the start. */
  lemma CursorStays(pts: seq<Point>, j: nat, n: nat)
    requires Along(pts) && pts[|pts| - 1].d == 0.0 && n >= 2 && 1 <= j < n - 1
    ensures NextBeyond(pts, 0, Distance(pts[|pts| - 1].d, j, n)) == |pts|
  {
    DistanceBounds(0.0, j, n);
    hide Distance;
    assert pts[0..] == pts;
    forall i | 0 <= i < |pts| ensures pts[i].d <= 0.0 {
      assert i < |pts| - 1 ==> pts[i].d <= pts[|pts| - 1].d;
    }
    NoneBeyond(pts, 0.0);
  }

  ghost predicate UpTo(writes: seq<nat>, n: nat) {
    |writes| == n && forall i | 0 <= i < n :: writes[i] == i
  }

  /** Entry j holds the sample at its distance, taken on the leg to the first point beyond it. */
  ghost predicate Sampled(pts: seq<Point>, dem: Dem, posit: Posit, n: nat, j: nat, elev: int)
    requires pts != [] && n >= 2
  {
    var dist := Distance(pts[|pts| - 1].d, j, n);
    var k := FirstBeyond(pts, dist);
    0 < k < |pts| && pts[k - 1].d <= dist < pts[k].d && elev == Sample(pts, dem, posit, k, dist)
  }

  /** The resampling branch. first is the checked elevation of the first point. On a path of some length every entry is
      written exactly once, in order, and holds its sample; on a path of no length only two entries are written. */
  method Resample(pts: seq<Point>, nsamp: nat, first: real, dem: Dem, posit: Posit)
    returns (elevs: array<int>, ghost writes: seq<nat>)
    requires pts != [] && nsamp >= 2
    ensures fresh(elevs) && elevs.Length == nsamp
    ensures Along(pts) ==> UpTo(writes, if pts[|pts| - 1].d > 0.0 then nsamp else 2)
    ensures Along(pts) ==> elevs[0] == Trunc(first)
    ensures Along(pts) ==> elevs[|writes| - 1] == Trunc(dem(pts[|pts| - 1].y, pts[|pts| - 1].x))
    ensures Along(pts) && pts[|pts| - 1].d > 0.0 ==>
      forall j | 1 <= j < nsamp - 1 :: Sampled(pts, dem, posit, nsamp, j, elevs[j])
  {
    hide Distance, FirstBeyond, NextBeyond, Sample, Trunc;
    elevs := new int[nsamp](_ => 0);
    var nmp := |pts|;
    var maxr := pts[nmp - 1].d;
    elevs[0] := Trunc(first);
    writes := [0];
    var lastp: nat, ep: nat := 0, 1;
    for j := 1 to nsamp - 1
      invariant lastp < nmp && 1 <= ep <= j
      invariant Along(pts) && maxr > 0.0 ==> ep == j && UpTo(writes, j) && Behind(pts, lastp, Distance(maxr, j - 1, nsamp))
      invariant Along(pts) && maxr > 0.0 ==> forall i | 1 <= i < j :: Sampled(pts, dem, posit, nsamp, i, elevs[i])
      invariant Along(pts) && maxr <= 0.0 ==> ep == 1 && UpTo(writes, 1) && lastp == 0
      invariant elevs[0] == Trunc(first)
    {
      var adist := Distance(maxr, j, nsamp);
      if Along(pts) {
        if maxr > 0.0 {
          CursorMoves(pts, lastp, j, nsamp);
        } else {
          CursorStays(pts, j, nsamp);
        }
      }
      lastp := Advance(pts, lastp, adist);
      if lastp != 0 {
        elevs[ep] := Sample(pts, dem, posit, lastp, adist);
        writes := writes + [ep];
        ep := ep + 1;
      }
    }
    elevs[ep] := Trunc(dem(pts[nmp - 1].y, pts[nmp - 1].x));
    writes := writes + [ep];
  }

  /** A place checked for data, which may have been downloaded first. */
  type Checked = (real, real) -> Option<real>

  datatype Outcome = Elevations(es: seq<int>) | NoData | Panicked

  /** The elevations of the points themselves. */
  predicate AtPoints(pts: seq<Point>, check: Checked, r: Outcome) {
    match r
    case Elevations(es) =>
      |es| == |pts| && forall i | 0 <= i < |pts| :: check(pts[i].y, pts[i].x).Some? && es[i] == Trunc(check(pts[i].y, pts[i].x).value)
    case NoData => exists i :: 0 <= i < |pts| && check(pts[i].y, pts[i].x) == None
    case Panicked => false
  }

  /** Both branches: the elevations of the points, or so many samples along the path. */
  method GetDemElevations(pts: seq<Point>, nsamp: nat, check: Checked, dem: Dem, posit: Posit) returns (r: Outcome)
    ensures nsamp == 0 ==> AtPoints(pts, check, r)
    ensures nsamp > 0 && pts == [] ==> r == Outcome.Panicked
    ensures nsamp > 0 && pts != [] && check(pts[0].y, pts[0].x) == None ==> r == NoData
    ensures nsamp == 1 && pts != [] && check(pts[0].y, pts[0].x).Some? ==> r == Outcome.Panicked
    ensures nsamp >= 2 && pts != [] && check(pts[0].y, pts[0].x).Some? ==> r.Elevations? && |r.es| == nsamp
    ensures nsamp >= 2 && Along(pts) && pts[|pts| - 1].d > 0.0 && check(pts[0].y, pts[0].x).Some? ==>
      && r.es[0] == Trunc(check(pts[0].y, pts[0].x).value)
      && (forall j | 1 <= j < nsamp - 1 :: Sampled(pts, dem, posit, nsamp, j, r.es[j]))
      && r.es[nsamp - 1] == Trunc(dem(pts[|pts| - 1].y, pts[|pts| - 1].x))
  {
    hide Distance, FirstBeyond, Sample, Trunc, Sampled;
    if nsamp == 0 {
      var elevs := new int[|pts|](_ => 0);
      for i := 0 to |pts|
        invariant forall k | 0 <= k < i :: check(pts[k].y, pts[k].x).Some? && elevs[k] == Trunc(check(pts[k].y, pts[k].x).value)
      {
        var e := check(pts[i].y, pts[i].x);
        if e == None {
          return NoData;
        }
        elevs[i] := Trunc(e.value);
      }
      r := Elevations(elevs[..]);
    } else if pts == [] {
      r := Outcome.Panicked;
    } else {
      var e := check(pts[0].y, pts[0].x);
      if e == None {
        return NoData;
      }
      if nsamp == 1 {
        // the last elevation would be the second of one
        return Outcome.Panicked;
      }
      var elevs, writes := Resample(pts, nsamp, e.value, dem, posit);
      r := Elevations(elevs[..]);
    }
  }

  /** The points that a mission expands to are such a path, when home is set and no distance is negative. */
  lemma MissionIsAlong(cs: CourseAndDistance, homep: Point, items: seq<Item>, pts: seq<Point>)
    requires homep.mark.Home? && homep.d == 0.0 && Expansion(cs, homep, items) == Some(pts)
    requires forall a, b, c, d :: cs(a, b, c, d).1 >= 0.0
    ensures Along(pts)
  {
    var t := Visit(items, FreshCounters(items), 0);
    var rest := Fly(cs, homep, items, t, homep.y, homep.x, 0.0);
    DistancesGrow(cs, homep, items, t, homep.y, homep.x, 0.0);
    hide Fly, Visit;
    assert forall i | 1 <= i < |pts| :: pts[i] == rest[i - 1];
  }
}

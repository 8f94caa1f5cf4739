/** How far the places where the ground was sampled are from those where the rework takes them to be. */
module SampledGround {
  import opened Mission
  import opened Resampling
  import opened Rework

  lemma {:induction false} WalkedIs(n: nat, ddif: real)
    ensures Walked(n, ddif) == n as real * ddif
  {
    if n > 0 {
      WalkedIs(n - 1, ddif);
    }
  }

  /** How many waypoints of the unbroken run of samples that ends with waypoint n's lie less than a sample distance behind
      the waypoint before them: each of them is given a sample of its own all the same. */
  function Crowd(pts: seq<Point>, ddif: real, ms: seq<nat>, n: nat): nat
    requires n < |ms| <= |pts|
  {
    if n == 0 || ms[n] != ms[n - 1] + 1 then 0
    else Crowd(pts, ddif, ms, n - 1) + if pts[n].d - pts[n - 1].d < ddif then 1 else 0
  }

  lemma {:induction false} WalkedAdds(m: nat, n: nat, ddif: real)
    ensures Walked(m + n, ddif) == Walked(m, ddif) + Walked(n, ddif)
  {
    if n > 0 {
      WalkedAdds(m, n - 1, ddif);
    }
  }

  /** A waypoint lies less than a sample and the rounding past the sample that meets it, and before it by no more than a
      sample distance for each waypoint that is crowded. */
  lemma {:induction false} MarkIsNear(pts: seq<Point>, ddif: real, np: nat, n: nat)
    requires Along(pts) && ddif >= 0.0 && n < |Marks(pts, ddif, np, 0, 0)|
    ensures var ms := Marks(pts, ddif, np, 0, 0);
      Walked(ms[n], ddif) - Walked(Crowd(pts, ddif, ms, n), ddif) <= pts[n].d < Walked(ms[n], ddif) + ddif + 1.0
  {
    hide Marks, Round, Reached, Walked;
    var ms := Marks(pts, ddif, np, 0, 0);
    if n == 0 {
      FirstMark(pts, ddif, np);
    } else {
      MarkIsNear(pts, ddif, np, n - 1);
      WalkedAdds(Crowd(pts, ddif, ms, n - 1), 1, ddif);
    }
    MarkSteps(pts, ddif, np, n);
  }

  /** A waypoint and the sample that meets it, given the waypoint before. */
  lemma MarkSteps(pts: seq<Point>, ddif: real, np: nat, n: nat)
    requires Along(pts) && ddif >= 0.0 && n < |Marks(pts, ddif, np, 0, 0)|
    ensures Walked(0, ddif) == 0.0 && Walked(1, ddif) == ddif
    ensures var k := Marks(pts, ddif, np, 0, 0)[n]; pts[n].d < Walked(k, ddif) + ddif + 1.0
    ensures n > 0 ==> var k, j := Marks(pts, ddif, np, 0, 0)[n], Marks(pts, ddif, np, 0, 0)[n - 1];
      if k == j + 1 then Walked(k, ddif) == Walked(j, ddif) + ddif else Walked(k, ddif) < pts[n].d
  {
    hide Marks, Round;
    var ms := Marks(pts, ddif, np, 0, 0);
    MarkIsFirst(pts, ddif, np, 0, 0, n);
    RoundBelow(pts[n].d, Walked(ms[n] + 1, ddif));
    if n > 0 && ms[n] != ms[n - 1] + 1 {
      assert !Reached(pts, ddif, n, ms[n] - 1);
      RoundBelow(pts[n].d, Walked(ms[n], ddif));
    }
  }

  /** The start is met by the first sample. */
  lemma FirstMark(pts: seq<Point>, ddif: real, np: nat)
    requires Along(pts) && ddif >= 0.0 && Marks(pts, ddif, np, 0, 0) != []
    ensures Marks(pts, ddif, np, 0, 0)[0] == 0
  {
    RoundGrows(0.0, ddif);
    assert Reached(pts, ddif, 0, 0);
  }

  /** The sample spacing of the survey is one sample short of that of the resampling. */
  lemma {:induction false} PlaceOfSample(length: real, np: nat, j: nat)
    requires np >= 2 && j < np && length >= 0.0
    ensures var ddif := length / np as real;
      ddif >= 0.0 && Walked(j, ddif) <= Distance(length, j, np) <= Walked(j, ddif) + ddif
  {
    var ddif := length / np as real;
    WalkedIs(j, ddif);
    NotNegative(length, np as real);
    WholeIs(length, np as real);
    hide Walked;
    Stretched(ddif, j as real, (np - 1) as real, length);
  }

  lemma WholeIs(length: real, np: real)
    requires np > 0.0
    ensures length == length / np * np
  {
  }

  lemma Stretched(ddif: real, j: real, m: real, length: real)
    requires ddif >= 0.0 && 0.0 <= j <= m && m > 0.0 && length == ddif * (m + 1.0)
    ensures j * ddif <= length * j / m <= j * ddif + ddif
  {
    var t := j / m;
    PartOfWhole(j, m);
    DistanceIs(ddif, j, m, t, length);
    PartOfSample(ddif, t);
  }

  lemma PartOfSample(ddif: real, t: real)
    requires ddif >= 0.0 && 0.0 <= t <= 1.0
    ensures 0.0 <= ddif * t <= ddif
  {
    NonNegativeProduct(ddif, t);
    NonNegativeProduct(ddif, 1.0 - t);
  }

  lemma PartOfWhole(j: real, m: real)
    requires 0.0 <= j <= m && m > 0.0
    ensures 0.0 <= j / m <= 1.0
  {
  }

  lemma DistanceIs(ddif: real, j: real, m: real, t: real, length: real)
    requires m > 0.0 && t == j / m && length == ddif * (m + 1.0)
    ensures length * j / m == j * ddif + ddif * t
  {
    assert t * m == j;
    assert length * j == (j * ddif + ddif * t) * m;
  }

  /** A scanned sample was taken within a sample distance, and the metre that the rounding can lose, of the place where the
      rework takes it to be, and one sample distance more for each crowded waypoint in front of it. */
  lemma SampleIsNear(pts: seq<Point>, gnd: seq<int>, margin: int, n: nat, j: nat)
    requires Along(pts) && |gnd| >= 2 && Scanned(SurveyOf(pts, gnd, margin), n, j)
    ensures var sv := SurveyOf(pts, gnd, margin);
      var assumed := pts[n].d + Walked(j - sv.ms[n], sv.ddif);
      -Walked(Crowd(pts, sv.ddif, sv.ms, n) + 1, sv.ddif)
        <= assumed - Distance(pts[|pts| - 1].d, j, |gnd|) < sv.ddif + 1.0
  {
    var sv := SurveyOf(pts, gnd, margin);
    var length, ddif, k := pts[|pts| - 1].d, sv.ddif, sv.ms[n];
    hide Marks, Distance, Round, Crowd;
    assert |pts| > 1 ==> pts[0].d <= length;
    SurveyFits(pts, gnd, margin);
    assert sv.ms[n + 1] < |gnd|;
    PlaceOfSample(length, |gnd|, j);
    MarkIsNear(pts, ddif, |gnd|, n);
    WalkedAdds(k, j - k, ddif);
  }

  function AbsReal(x: real): real {
    if x >= 0.0 then x else -x
  }

  /** The altitude of a path changes along it by no more than its slope allows. */
  lemma PathSlope(a: int, rise: int, l: real, l': real, length: real, far: real)
    requires length > 0.0 && -far <= l - l' <= far
    ensures Interpolated(a, rise, l', length) >= Interpolated(a, rise, l, length) - AbsReal(rise as real) / length * far
  {
    var s, r := rise as real / length, rise as real;
    assert s * length == r;
    assert r * l / length == s * l && r * l' / length == s * l' by { Slide(r, s, l, length); Slide(r, s, l', length); }
    assert s * l - s * l' == s * (l - l');
    if rise >= 0 {
      NotNegative(r, length);
      NonNegativeProduct(s, far - (l - l'));
    } else {
      NotNegative(-r, length);
      assert -r / length == -s;
      NonNegativeProduct(-s, far + (l - l'));
    }
  }

  lemma Slide(r: real, s: real, l: real, length: real)
    requires length > 0.0 && s * length == r
    ensures r * l / length == s * l
  {
    assert r * l == s * l * length;
  }

  /** At the very place where a cleared sample was taken, the path stands above the ground by the margin, less what it can
      rise or fall within a metre and a sample distance, and another for each crowded waypoint. */
  lemma GroundIsCleared(pts: seq<Point>, gnd: seq<int>, margin: int, pts': seq<Point>, n: nat, j: nat)
    requires Along(pts) && |gnd| >= 2 && SameDistances(pts, pts')
    requires var sv := SurveyOf(pts, gnd, margin); Scanned(sv, n, j) && Fits(sv, pts') && Cleared(sv, pts', n)
    ensures var sv := SurveyOf(pts, gnd, margin);
      && LegLength(pts', n) > 0.0
      && var place := Distance(pts[|pts| - 1].d, j, |gnd|) - pts'[n].d;
         PathAltitude(pts', n, place) >= (gnd[j] + margin) as real
           - AbsReal((pts'[n + 1].xz - pts'[n].xz) as real) / LegLength(pts', n)
             * (Walked(Crowd(pts, sv.ddif, sv.ms, n) + 1, sv.ddif) + 1.0)
  {
    hide Distance, Marks, Round, Interpolated, AbsReal, Walked, Crowd;
    var sv := SurveyOf(pts, gnd, margin);
    assert Measured(sv, pts', n) && pts'[n].d == pts[n].d;
    SampleIsNear(pts, gnd, margin, n, j);
    assert Deficit(sv, pts', n, j) <= 0.0;
    var place := Distance(pts[|pts| - 1].d, j, |gnd|) - pts'[n].d;
    var length, crowd := LegLength(pts', n), Crowd(pts, sv.ddif, sv.ms, n);
    OneOrMore(crowd, sv.ddif);
    PathSlope(pts'[n].xz, pts'[n + 1].xz - pts'[n].xz, Walked(j - sv.ms[n], sv.ddif), place, length,
              Walked(crowd + 1, sv.ddif) + 1.0);
  }

  lemma OneOrMore(n: nat, ddif: real)
    requires ddif >= 0.0
    ensures Walked(n + 1, ddif) >= ddif
  {
    WalkedGrows(0, n, ddif);
  }
}

/** The legs of a mission that has been reworked, saved and read back: which of them are still clear. */
module SavedLegs {
  import opened Ints
  import opened Mission
  import opened MissionPath
  import opened MissionSave
  import opened Options
  import opened ReturnHome
  import opened Rework

  predicate Sampled(tool: Tool, items: seq<Item>)
    requires CanFly(tool, items)
  {
    var was := Started(tool, items);
    was[|was| - 1].d >= 0.0 && forall j | 0 <= j < |was| :: was[j].xz >= -99999
  }

  /** The return home is the last point of a trail and no waypoint. */
  lemma {:induction false} FlyReturnsLast(cs: CourseAndDistance, homep: Point, items: seq<Item>, t: Trail,
                                          ly: real, lx: real, dist: real, k: nat)
    requires InRange(items, t.visits) && k < |Fly(cs, homep, items, t, ly, lx, dist)|
    requires Fly(cs, homep, items, t, ly, lx, dist)[k].mark == Return
    ensures k == |Fly(cs, homep, items, t, ly, lx, dist)| - 1 && Fly(cs, homep, items, t, ly, lx, dist)[k].wpno == -1
    decreases |t.visits|
  {
    if t.visits != [] {
      var mi := items[t.visits[0]];
      var p := PointAt(cs, ly, lx, dist, mi);
      FlyReturnsLast(cs, homep, items, Trail(t.visits[1..], t.end), mi.lat, mi.lon, p.d, k - 1);
    }
  }

  lemma StartedReturnsLast(tool: Tool, items: seq<Item>, i: nat)
    requires CanFly(tool, items) && i < |tool.elev| && Started(tool, items)[i].mark == Return
    ensures i == |tool.elev| - 1 && i > 0 && Started(tool, items)[i].wpno == -1
    ensures Started(tool, items)[i].xz == tool.elev[0] + tool.rthalt
  {
    hide Visit, Fly;
    var first := Expansion(tool.cs, tool.homep, items).value;
    var t := Visit(items, FreshCounters(items), 0);
    assert first[0].mark == Home && Started(tool, items)[i].mark == first[i].mark;
    FlyReturnsLast(tool.cs, tool.homep, items, t, tool.homep.y, tool.homep.x, 0.0, i - 1);
  }

  /** Rework leaves the altitude of the return home alone. */
  lemma {:induction false} ReworkKeepsReturn(sv: Survey, pts: seq<Point>, n: nat)
    requires Fits(sv, pts) && 1 <= n && pts != [] && pts[|pts| - 1].mark == Return
    ensures Reworked(sv, pts, n)[|pts| - 1] == pts[|pts| - 1]
    decreases |sv.ms| - n
  {
    if n + 1 < |sv.ms| {
      hide Worst;
      ReworkKeepsReturn(sv, LegDone(sv, pts, n), n + 1);
    }
  }

  /** The return home is read back as it was. */
  lemma ReturnReadBack(tool: Tool, items: seq<Item>, pts: seq<Point>, o: Settings, i: nat)
    requires CanFly(tool, items) && SameTrack(Started(tool, items), pts) && i < |pts|
    requires Started(tool, items)[i].mark == Return
    ensures var saved := SavedMission(items, pts, o);
      && saved.Some?
      && var again := Expansion(tool.cs, tool.homep, saved.value);
      && again.Some? && |again.value| == |pts| && ReadBack(tool, again.value)[i].xz == Started(tool, items)[i].xz
  {
    hide Visit, Fly;
    AltitudesRoundTrip(tool, items, pts, o, i);
    StartedReturnsLast(tool, items, i);
    var saved := SavedMission(items, pts, o).value;
    SameRouteExpansion(tool.cs, tool.homep, items, saved, i);
  }

  lemma SameOnLeg(sv: Survey, pts: seq<Point>, pts': seq<Point>, n: nat)
    requires n + 1 < |sv.ms| <= |pts| && SameDistances(pts, pts') && OnLeg(sv, pts, n)
    ensures OnLeg(sv, pts', n)
  {
    assert pts'[n].d == pts[n].d && pts'[n + 1].d == pts[n + 1].d;
  }

  lemma ReworkMarks(tool: Tool, items: seq<Item>, sv: Survey)
    requires CanFly(tool, items) && Sampled(tool, items) && Fits(sv, Started(tool, items))
    ensures Marking(Started(tool, items), Reworked(sv, Started(tool, items), 1))
  {
    hide LegDone;
    var was := Started(tool, items);
    var pts := Reworked(sv, was, 1);
    forall j | 0 <= j < |pts| && pts[j].mark != Updated ensures pts[j].xz == was[j].xz {
      TreatedAreMarked(sv, was, 1, j);
    }
  }

  lemma EndsTreated(tool: Tool, items: seq<Item>, sv: Survey, m: nat)
    requires CanFly(tool, items) && Fits(sv, Started(tool, items)) && 1 <= m && m + 1 < |sv.ms|
    ensures var was := Started(tool, items); var pts := Reworked(sv, was, 1);
      && was[m].mark != Return && pts[m].mark == Updated
      && (if was[m + 1].mark == Return then pts[m + 1].xz == was[m + 1].xz else m + 2 < |sv.ms| ==> pts[m + 1].mark == Updated)
  {
    var was := Started(tool, items);
    if was[m].mark == Return {
      StartedReturnsLast(tool, items, m);
    }
    TreatedAreMarked(sv, was, 1, m);
    TreatedAreMarked(sv, was, 1, m + 1);
    if was[m + 1].mark == Return {
      StartedReturnsLast(tool, items, m + 1);
      ReworkKeepsReturn(sv, was, 1);
    }
  }

  // ---------- a leg that has been left clear ----------

  /** The points after terrain work, and after find_best_alt. */
  function Done(tool: Tool, items: seq<Item>, sv: Survey): (r: seq<Point>)
    requires CanFly(tool, items) && Fits(sv, Started(tool, items))
    ensures Fits(sv, r) && SameTrack(Started(tool, items), r)
  {
    Reworked(sv, Started(tool, items), 1)
  }

  function Levelled(tool: Tool, items: seq<Item>, sv: Survey): (r: seq<Point>)
    requires CanFly(tool, items) && Fits(sv, Started(tool, items))
    ensures Fits(sv, r) && SameDistances(Done(tool, items, sv), r)
  {
    var pts := Done(tool, items, sv);
    var r := AllBest(pts, items, |items|);
    AllBestRaises(pts, items, |items|);
    FitsSameDistances(sv, pts, r);
    r
  }

  /** The points of the saved mission read again. */
  function Again(tool: Tool, items: seq<Item>, sv: Survey, o: Settings): (r: seq<Point>)
    requires CanFly(tool, items) && Fits(sv, Started(tool, items))
    ensures Fits(sv, r) && SameDistances(Done(tool, items, sv), r)
  {
    var pts := Done(tool, items, sv);
    ReadBackTrack(tool, items, pts, o);
    var r := ReadBack(tool, Expansion(tool.cs, tool.homep, SavedMission(items, pts, o).value).value);
    FitsSameDistances(sv, pts, r);
    r
  }

  /** The number written for the altitude of point m fits the file. */
  predicate Storable(tool: Tool, items: seq<Item>, sv: Survey, o: Settings, m: nat)
    requires CanFly(tool, items) && Fits(sv, Started(tool, items)) && m < |tool.elev|
  {
    var p := Levelled(tool, items, sv)[m];
    1 <= p.wpno <= |items| ==> Fits32(Number(p.xz, ModeSaved(items[p.wpno - 1], o), tool.elev[0]))
  }

  /** The end of leg m comes back no lower than the leg can bear: it is the return home, or what is missing of its altitude
      when it is read back is within the leg's spare height. */
  ghost predicate FarEndHolds(tool: Tool, items: seq<Item>, sv: Survey, o: Settings, m: nat)
    requires CanFly(tool, items) && Fits(sv, Started(tool, items)) && 1 <= m && m + 1 < |sv.ms|
  {
    var pts, best := Done(tool, items, sv), Levelled(tool, items, sv);
    assert sv.ms[m] < sv.ms[m + 1];
    || !(1 <= pts[m + 1].wpno <= |items|)
    || Within(best[m + 1].xz - AltitudeRead(items, pts, o, m + 1), Spare(sv, best, m, sv.ms[m + 1] - 1))
  }

  /** find_best_alt never spoils a leg whose samples lie on it. */
  lemma LevelledStaysClear(tool: Tool, items: seq<Item>, sv: Survey, m: nat)
    requires CanFly(tool, items) && Fits(sv, Started(tool, items)) && 1 <= m && m + 1 < |sv.ms|
    requires OnLeg(sv, Started(tool, items), m) && Cleared(sv, Done(tool, items, sv), m)
    ensures Cleared(sv, Levelled(tool, items, sv), m)
  {
    hide Cleared, OnLeg, AllBest, Reworked;
    var pts := Done(tool, items, sv);
    AllBestRaises(pts, items, |items|);
    SameOnLeg(sv, Started(tool, items), pts, m);
    HigherStaysClear(sv, pts, Levelled(tool, items, sv), m);
  }

  /** The near end of a treated leg is written, and comes back as it was. */
  lemma NearEndReturns(tool: Tool, items: seq<Item>, sv: Survey, o: Settings, m: nat)
    requires CanFly(tool, items) && Fits(sv, Started(tool, items)) && 1 <= m && m + 1 < |sv.ms| && Storable(tool, items, sv, o, m)
    ensures Again(tool, items, sv, o)[m].xz == Levelled(tool, items, sv)[m].xz
  {
    hide AllBest, Reworked, Expansion, SavedMission, AltitudeRead, Fits32;
    var pts := Done(tool, items, sv);
    EndsTreated(tool, items, sv, m);
    WaypointNumbers(tool, items, m);
    assert pts[m].wpno == Started(tool, items)[m].wpno > 0 && IsWritten(pts[m], o);
    AllBestRaises(pts, items, |items|);
    assert Levelled(tool, items, sv)[m].wpno == pts[m].wpno;
    WaypointReturns(tool, items, pts, o, m);
  }

  /** The far end is the return home, which Rework and Save leave alone, or a waypoint. */
  lemma FarEndReads(tool: Tool, items: seq<Item>, sv: Survey, o: Settings, m: nat)
    requires CanFly(tool, items) && Fits(sv, Started(tool, items)) && 1 <= m && m + 1 < |sv.ms|
    ensures var pts, back, w := Done(tool, items, sv), Again(tool, items, sv, o), Done(tool, items, sv)[m + 1].wpno;
      if 1 <= w <= |items| then back[m + 1].xz == AltitudeRead(items, pts, o, m + 1) else back[m + 1].xz == pts[m + 1].xz
  {
    hide AllBest, Reworked, Expansion, SavedMission, AltitudeRead;
    var was, pts := Started(tool, items), Done(tool, items, sv);
    EndsTreated(tool, items, sv, m);
    assert pts[m + 1].wpno == was[m + 1].wpno;
    if pts[m + 1].wpno > 0 {
      WaypointReads(tool, items, pts, o, m + 1);
    } else {
      if was[m + 1].mark != Return {
        WaypointNumbers(tool, items, m + 1);
      }
      ReturnReadBack(tool, items, pts, o, m + 1);
    }
  }

  /** The exact clearance of the mission read back. A treated leg that Rework leaves clear, and whose samples lie on it, is
      clear in the mission read back if and only if its far end holds. */
  lemma SavedMissionStaysClear(tool: Tool, items: seq<Item>, sv: Survey, o: Settings, m: nat)
    requires CanFly(tool, items) && Fits(sv, Started(tool, items)) && 1 <= m && m + 1 < |sv.ms|
    requires OnLeg(sv, Started(tool, items), m) && Cleared(sv, Done(tool, items, sv), m) && Storable(tool, items, sv, o, m)
    ensures Cleared(sv, Again(tool, items, sv, o), m) <==> FarEndHolds(tool, items, sv, o, m)
  {
    hide Cleared, OnLeg, Done, Levelled, Again, Expansion, SavedMission, AltitudeRead, Spare, ClearedBefore, Storable;
    var pts, best, back := Done(tool, items, sv), Levelled(tool, items, sv), Again(tool, items, sv, o);
    LevelledStaysClear(tool, items, sv, m);
    NearEndReturns(tool, items, sv, o, m);
    FarEndReads(tool, items, sv, o, m);
    if 1 <= pts[m + 1].wpno <= |items| {
      ClearedWhole(sv, back, m);
      SpareIsExact(sv, best, back, m, sv.ms[m + 1] - 1);
    } else {
      LevelledHigher(tool, items, sv, m);
      SameOnLeg(sv, Started(tool, items), pts, m);
      HigherStaysClear(sv, pts, back, m);
    }
  }

  lemma LevelledHigher(tool: Tool, items: seq<Item>, sv: Survey, m: nat)
    requires CanFly(tool, items) && Fits(sv, Started(tool, items)) && m < |tool.elev|
    ensures Levelled(tool, items, sv)[m].xz >= Done(tool, items, sv)[m].xz
  {
    hide AllBest, Reworked;
    AllBestRaises(Done(tool, items, sv), items, |items|);
  }

  // ---------- when the far end holds ----------

  lemma {:induction false} SpareNotNegative(sv: Survey, pts: seq<Point>, n: nat, last: nat)
    requires Fits(sv, pts) && 1 <= n && n + 1 < |sv.ms| && sv.ms[n] <= last < sv.ms[n + 1] && Cleared(sv, pts, n)
    ensures var spare := Spare(sv, pts, n, last); spare.None? || spare.value >= 0.0
    decreases last
  {
    hide Deficit, Part;
    if last > sv.ms[n] {
      SpareNotNegative(sv, pts, n, last - 1);
      assert Scanned(sv, n, last - 1);
      if Part(sv, pts, n, last - 1) > 0.0 {
        NotNegative(-Deficit(sv, pts, n, last - 1), Part(sv, pts, n, last - 1));
      }
    }
  }

  lemma NoReturn(tool: Tool, items: seq<Item>, sv: Survey, i: nat)
    requires CanFly(tool, items) && Fits(sv, Started(tool, items)) && i < |tool.elev| && Done(tool, items, sv)[i].wpno > 0
    ensures Started(tool, items)[i].mark != Return
  {
    hide Reworked, Expansion;
    if Started(tool, items)[i].mark == Return {
      StartedReturnsLast(tool, items, i);
    }
  }

  /** The far end holds when its altitude is in the file: because it is the first end of a treated leg itself, because
      altitudes started from the mission, or because it is the return home. */
  lemma FarEndSaved(tool: Tool, items: seq<Item>, sv: Survey, o: Settings, m: nat)
    requires CanFly(tool, items) && Sampled(tool, items) && Fits(sv, Started(tool, items)) && 1 <= m && m + 1 < |sv.ms|
    requires Cleared(sv, Levelled(tool, items, sv), m) && Storable(tool, items, sv, o, m + 1)
    requires m + 2 < |sv.ms| || !tool.noalts || Started(tool, items)[m + 1].mark == Return
    ensures FarEndHolds(tool, items, sv, o, m)
  {
    hide AllBest, Reworked, Expansion, SavedMission, Fits32, Int32, Spare, Cleared, Rewritten;
    var was, pts, best := Started(tool, items), Done(tool, items, sv), Levelled(tool, items, sv);
    assert sv.ms[m] < sv.ms[m + 1];
    if 1 <= pts[m + 1].wpno <= |items| {
      NoReturn(tool, items, sv, m + 1);
      AllBestRaises(pts, items, |items|);
      assert best[m + 1].wpno == pts[m + 1].wpno;
      FarEndBest(tool, items, sv, o, m);
      SpareNotNegative(sv, best, m, sv.ms[m + 1] - 1);
    }
  }

  lemma FarEndBest(tool: Tool, items: seq<Item>, sv: Survey, o: Settings, m: nat)
    requires CanFly(tool, items) && Sampled(tool, items) && Fits(sv, Started(tool, items)) && 1 <= m && m + 1 < |sv.ms|
    requires Storable(tool, items, sv, o, m + 1) && 1 <= Done(tool, items, sv)[m + 1].wpno <= |items|
    requires m + 2 < |sv.ms| || !tool.noalts
    ensures AltitudeRead(items, Done(tool, items, sv), o, m + 1) == Levelled(tool, items, sv)[m + 1].xz
  {
    hide AllBest, Reworked, Expansion, SavedMission, Fits32, Int32, Spare, Cleared;
    var pts, best := Done(tool, items, sv), Levelled(tool, items, sv);
    ReworkMarks(tool, items, sv);
    NoReturn(tool, items, sv, m + 1);
    EndsTreated(tool, items, sv, m);
    BestKeepsTrack(tool, items, pts);
    AllBestRaises(pts, items, |items|);
    assert best[m + 1].wpno == pts[m + 1].wpno;
    assert m + 2 < |sv.ms| ==> Rewritten(pts, o, pts[m + 1].wpno) by {
      assert m + 2 < |sv.ms| ==> IsWritten(pts[m + 1], o);
    }
    if Rewritten(pts, o, pts[m + 1].wpno) {
      Truncates(Number(best[m + 1].xz, ModeSaved(items[pts[m + 1].wpno - 1], o), tool.elev[0]));
    } else {
      KeptIsMeant(tool, items, pts, o, m + 1);
    }
  }

  // ---------- the whole of the tool's promise ----------

  /** A treated leg whose samples lie on it, and that the adjustment for the return home leaves clear, is clear in the
      mission read back if and only if its far end holds. The survey of any ground along a mission fits it. */
  lemma SavedMissionClears(tool: Tool, items: seq<Item>, sv: Survey, o: Settings, m: nat)
    requires CanFly(tool, items) && Fits(sv, Started(tool, items)) && 1 <= m && m + 1 < |sv.ms|
    requires OnLeg(sv, Started(tool, items), m) && EndsClear(sv, Started(tool, items), m) && Storable(tool, items, sv, o, m)
    ensures Cleared(sv, Again(tool, items, sv, o), m) <==> FarEndHolds(tool, items, sv, o, m)
  {
    hide Cleared, Visit, Fly, Expansion, Levelled, Again, OnLeg, EndsClear, Storable;
    var was := Started(tool, items);
    forall i | 0 <= i < |was| - 1 ensures was[i].mark != Return {
      if was[i].mark == Return {
        StartedReturnsLast(tool, items, i);
      }
    }
    ClearExactly(sv, was, m);
    SavedMissionStaysClear(tool, items, sv, o, m);
  }

  // ---------- the far end can be missed ----------

  /** A run that ignores the mission's altitudes, over flat ground, with the distances of a straight line. */
  const FLAT_TOOL: Tool := Tool((ly: real, _: real, lat: real, _: real) => (0.0, (lat - ly) / 1852.0),
                                Point(0.0, 0.0, 0.0, 0.0, 0, 0, 0, 0, 0, 0, Home), [0, 0, 0], 0, 50, true)

  /** Two waypoints at altitude zero, 2 and 5 metres away. */
  const FLAT_ITEMS: seq<Item> := [
    Item(1, Place("WAYPOINT"), 2.0, 0.0, 0, 0, 0, 0, 0),
    Item(2, Place("WAYPOINT"), 5.0, 0.0, 0, 0, 0, 0, 0)]

  /** The points Rework starts from. */
  const FLAT_START: seq<Point> := [
    Point(0.0, 0.0, 0.0, 0.0, 0, 0, 0, 0, 0, 0, Home),
    Point(2.0, 0.0, 2.0, 0.0, 0, 0, 0, 50, 0, 1, Init),
    Point(5.0, 0.0, 5.0, 0.0, 0, 0, 0, 50, 0, 2, Init)]

  const FLAT_SURVEY: Survey := Survey([0, 0, 0, 0, 0], 50, 1.0, [0, 1, 4])

  const UNFORCED: Settings := Settings(-1, false)

  lemma FlatTrail()
    ensures Visit(FLAT_ITEMS, FreshCounters(FLAT_ITEMS), 0) == Trail([0, 1], Finished)
  {
    var jc := FreshCounters(FLAT_ITEMS);
    assert Visit(FLAT_ITEMS, jc, 2) == Trail([], Finished);
    assert Visit(FLAT_ITEMS, jc, 1) == Trail([1], Finished);
  }

  lemma FlatExpansion()
    ensures Expansion(FLAT_TOOL.cs, FLAT_TOOL.homep, FLAT_ITEMS).Some?
    ensures CanFly(FLAT_TOOL, FLAT_ITEMS) && Started(FLAT_TOOL, FLAT_ITEMS) == FLAT_START
  {
    FlatTrail();
    var cs, homep, items := FLAT_TOOL.cs, FLAT_TOOL.homep, FLAT_ITEMS;
    var p1 := Point(2.0, 0.0, 2.0, 0.0, 0, 0, 0, 0, 0, 1, Init);
    var p2 := Point(5.0, 0.0, 5.0, 0.0, 0, 0, 0, 0, 0, 2, Init);
    assert PointAt(cs, 0.0, 0.0, 0.0, items[0]) == p1 && PointAt(cs, 2.0, 0.0, 2.0, items[1]) == p2;
    FlyEnds(cs, homep, items, Finished, 5.0, 0.0, 5.0);
    assert [0 as nat, 1][1..] == [1] && [1 as nat][1..] == [];
    assert Fly(cs, homep, items, Trail([1], Finished), 2.0, 0.0, 2.0) == [p2];
    assert Fly(cs, homep, items, Trail([0, 1], Finished), 0.0, 0.0, 0.0) == [p1, p2];
    var first := [homep, p1, p2];
    assert homep.(flag := 0) == homep && [homep] + [p1, p2] == first;
    assert Expansion(cs, homep, items) == Some(first);
    assert Started(FLAT_TOOL, items) == FLAT_START;
  }

  lemma FlatMarks()
    ensures SurveyOf(FLAT_START, [0, 0, 0, 0, 0], 50) == FLAT_SURVEY && Fits(FLAT_SURVEY, FLAT_START)
  {
    assert Marks(FLAT_START, 1.0, 5, 5, 3) == [];
    assert Walked(2, 1.0) == 2.0 && Walked(3, 1.0) == 3.0 && Walked(4, 1.0) == 4.0 && Walked(5, 1.0) == 5.0;
    assert Marks(FLAT_START, 1.0, 5, 4, 2) == [4];
    assert Marks(FLAT_START, 1.0, 5, 3, 2) == [4];
    assert Marks(FLAT_START, 1.0, 5, 2, 2) == [4];
    assert Marks(FLAT_START, 1.0, 5, 1, 1) == [1, 4];
    assert Marks(FLAT_START, 1.0, 5, 0, 0) == [0, 1, 4];
    SurveyFits(FLAT_START, [0, 0, 0, 0, 0], 50);
  }
  /** What Rework makes of it: the leg between the waypoints lacks nothing, and its first end is marked. */
  lemma FlatDone()
    ensures Fits(FLAT_SURVEY, FLAT_START)
    ensures Reworked(FLAT_SURVEY, FLAT_START, 1) == FLAT_START[1 := FLAT_START[1].(mark := Updated)]
    ensures Cleared(FLAT_SURVEY, FLAT_START[1 := FLAT_START[1].(mark := Updated)], 1)
  {
    FlatMarks();
    var sv, was := FLAT_SURVEY, FLAT_START;
    var r := was[1 := was[1].(mark := Updated)];
    assert Deficit(sv, was, 1, 1) == 0.0 && Deficit(sv, was, 1, 2) == 0.0;
    assert Worst(sv, was, 1, 1) == (0.0, 1);
    assert Worst(sv, was, 1, 2) == (0.0, 1);
    assert Worst(sv, was, 1, 3) == (0.0, 1);
    assert LegDone(sv, was, 1) == r;
    assert Reworked(sv, r, 2) == r;
    FitsSameDistances(sv, was, r);
    forall j: nat | Scanned(sv, 1, j) ensures Deficit(sv, r, 1, j) <= 0.0 {
      assert j == 1 || j == 2;
      assert Deficit(sv, r, 1, j) == Deficit(sv, was, 1, j);
    }
  }

  /** The last waypoint starts no leg, so it is not written and comes back at its old altitude. */
  lemma FlatReads()
    ensures var pts := FLAT_START[1 := FLAT_START[1].(mark := Updated)];
      AltitudeRead(FLAT_ITEMS, pts, UNFORCED, 1) == 50 && AltitudeRead(FLAT_ITEMS, pts, UNFORCED, 2) == 0
  {
    var pts := FLAT_START[1 := FLAT_START[1].(mark := Updated)];
    assert IsWritten(pts[1], UNFORCED) && Rewritten(pts, UNFORCED, 1);
    assert !Rewritten(pts, UNFORCED, 2);
    AllBestRaises(pts, FLAT_ITEMS, 2);
    AllBestOfEqual(pts, FLAT_ITEMS, 2, 0, 0);
    AllBestOfEqual(pts, FLAT_ITEMS, 2, 1, 50);
  }

  lemma FlatStorable()
    ensures CanFly(FLAT_TOOL, FLAT_ITEMS) && Fits(FLAT_SURVEY, Started(FLAT_TOOL, FLAT_ITEMS))
    ensures Storable(FLAT_TOOL, FLAT_ITEMS, FLAT_SURVEY, UNFORCED, 1) && Storable(FLAT_TOOL, FLAT_ITEMS, FLAT_SURVEY, UNFORCED, 2)
    ensures Levelled(FLAT_TOOL, FLAT_ITEMS, FLAT_SURVEY)[2].xz == 50
  {
    FlatExpansion();
    FlatMarks();
    FlatDone();
    var pts := Done(FLAT_TOOL, FLAT_ITEMS, FLAT_SURVEY);
    AllBestRaises(pts, FLAT_ITEMS, 2);
    AllBestOfEqual(pts, FLAT_ITEMS, 2, 1, 50);
    AllBestOfEqual(pts, FLAT_ITEMS, 2, 2, 50);
    hide AllBest, Reworked, Expansion, Started;
  }

  lemma FlatAgain()
    ensures CanFly(FLAT_TOOL, FLAT_ITEMS) && Fits(FLAT_SURVEY, Started(FLAT_TOOL, FLAT_ITEMS))
    ensures !Cleared(FLAT_SURVEY, Again(FLAT_TOOL, FLAT_ITEMS, FLAT_SURVEY, UNFORCED), 1)
    ensures Again(FLAT_TOOL, FLAT_ITEMS, FLAT_SURVEY, UNFORCED)[2].xz == 0
  {
    FlatExpansion();
    FlatMarks();
    FlatDone();
    FlatReads();
    var pts := Done(FLAT_TOOL, FLAT_ITEMS, FLAT_SURVEY);
    WaypointReads(FLAT_TOOL, FLAT_ITEMS, pts, UNFORCED, 1);
    WaypointReads(FLAT_TOOL, FLAT_ITEMS, pts, UNFORCED, 2);
    var back := Again(FLAT_TOOL, FLAT_ITEMS, FLAT_SURVEY, UNFORCED);
    FlatPath(back);
    hide Reworked, Expansion, SavedMission, AltitudeRead, AllBest, Started, ReadBack;
  }

  lemma FlatPath(back: seq<Point>)
    requires Fits(FLAT_SURVEY, back) && SameDistances(FLAT_START, back) && back[1].xz == 50 && back[2].xz == 0
    ensures !Cleared(FLAT_SURVEY, back, 1)
  {
    assert back[1].d == FLAT_START[1].d && back[2].d == FLAT_START[2].d;
    assert LegLength(back, 1) == 3.0 && Walked(1, 1.0) == 1.0;
    assert Scanned(FLAT_SURVEY, 1, 2);
    assert Deficit(FLAT_SURVEY, back, 1, 2) == 50.0 / 3.0;
  }

  /** With the mission's altitudes ignored, a leg can be clear after Rework and find_best_alt and lack 16 metres and more in
      the mission read back, though everything fits the file: its last waypoint was never written. */
  lemma FarEndCanBeMissed()
    ensures CanFly(FLAT_TOOL, FLAT_ITEMS) && Sampled(FLAT_TOOL, FLAT_ITEMS)
    ensures var sv := SurveyOf(Started(FLAT_TOOL, FLAT_ITEMS), [0, 0, 0, 0, 0], 50);
      && Fits(sv, Started(FLAT_TOOL, FLAT_ITEMS)) && 2 < |sv.ms| && OnLeg(sv, Started(FLAT_TOOL, FLAT_ITEMS), 1)
      && Cleared(sv, Done(FLAT_TOOL, FLAT_ITEMS, sv), 1)
      && Storable(FLAT_TOOL, FLAT_ITEMS, sv, UNFORCED, 1) && Storable(FLAT_TOOL, FLAT_ITEMS, sv, UNFORCED, 2)
      && Levelled(FLAT_TOOL, FLAT_ITEMS, sv)[2].xz == 50 && Again(FLAT_TOOL, FLAT_ITEMS, sv, UNFORCED)[2].xz == 0
      && !Cleared(sv, Again(FLAT_TOOL, FLAT_ITEMS, sv, UNFORCED), 1)
  {
    FlatExpansion();
    FlatMarks();
    FlatDone();
    FlatReads();
    FlatStorable();
    FlatAgain();
    hide Reworked, Expansion, SavedMission, AltitudeRead, AllBest, Again, Cleared, SurveyOf, Storable, Started;
    assert Walked(1, 1.0) == 1.0;
  }
}

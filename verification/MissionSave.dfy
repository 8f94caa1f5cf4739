/** Altitudes on their way back into the mission file and out of it again. */
module MissionSave {
  import opened Ints
  import opened Mission
  import opened MissionPath
  import opened Options
  import opened Rework

  // ---------- Update_details ----------

  /** A point with ground, mission and adjusted altitude filled in; ground is its own terrain height. */
  function Detail(p: Point, home: int, ground: int, rthalt: int, margin: int, noalts: bool): Point {
    if p.wpno == -1 then
      p.(gz := home, mz := rthalt, az := home + rthalt, xz := home + rthalt)
    else
      var az := if p.flag == 0 then home + p.mz else p.mz;
      p.(gz := ground, mz := if p.flag == 0 then p.mz else p.mz - home, az := az,
         xz := if noalts then ground + margin else az)
  }

  function Detailed(pts: seq<Point>, elev: seq<int>, rthalt: int, margin: int, noalts: bool): (r: seq<Point>)
    requires 0 < |pts| == |elev|
    ensures |r| == |pts|
  {
    seq(|pts|, i requires 0 <= i < |pts| =>
      if i == 0 && pts[0].mark.Home? then pts[0].(gz := elev[0], mz := 0, az := elev[0], xz := elev[0])
      else Detail(pts[i], elev[0], elev[i], rthalt, margin, noalts))
  }

  method UpdateDetails(mpts: array<Point>, elev: seq<int>, rthalt: int, margin: int, noalts: bool)
    requires 0 < mpts.Length == |elev|
    modifies mpts
    ensures mpts[..] == Detailed(old(mpts[..]), elev, rthalt, margin, noalts)
  {
    var n := 0;
    if mpts[0].mark == Home {
      mpts[0] := mpts[0].(gz := elev[0], mz := 0, az := elev[0], xz := elev[0]);
      n := 1;
    }
    while n < mpts.Length
      invariant 0 <= n <= mpts.Length
      invariant mpts[0].mark == old(mpts[0].mark)
      invariant old(mpts[0].mark) == Home ==> n > 0
      invariant forall i | 0 <= i < n :: mpts[i] == Detailed(old(mpts[..]), elev, rthalt, margin, noalts)[i]
      invariant forall i | n <= i < mpts.Length :: mpts[i] == old(mpts[i])
    {
      if mpts[n].wpno == -1 {
        mpts[n] := mpts[n].(gz := elev[0], mz := rthalt, az := elev[0] + rthalt);
        mpts[n] := mpts[n].(xz := mpts[n].az);
      } else {
        mpts[n] := mpts[n].(gz := elev[n]);
        var alt := mpts[n].mz;
        if mpts[n].flag == 0 {
          mpts[n] := mpts[n].(az := elev[0] + alt);
        } else {
          mpts[n] := mpts[n].(mz := mpts[n].mz - elev[0], az := alt);
        }
        mpts[n] := mpts[n].(xz := if noalts then elev[n] + margin else mpts[n].az);
      }
      n := n + 1;
    }
  }

  // ---------- find_best_alt ----------

  /** The highest adjusted altitude among the first k visits of waypoint w, and at least -99999. */
  function Best(pts: seq<Point>, w: int8, k: nat): int
    requires k <= |pts|
  {
    if k == 0 then -99999
    else
      var ba := Best(pts, w, k - 1);
      if pts[k - 1].wpno == w && pts[k - 1].xz > ba then pts[k - 1].xz else ba
  }

  function WithBest(pts: seq<Point>, w: int8): (r: seq<Point>)
    ensures |r| == |pts|
  {
    seq(|pts|, i requires 0 <= i < |pts| => if pts[i].wpno == w then pts[i].(xz := Best(pts, w, |pts|)) else pts[i])
  }

  method FindBestAlt(mpts: array<Point>, wpno: int)
    modifies mpts
    ensures mpts[..] == WithBest(old(mpts[..]), Int8(wpno))
  {
    var ba := -99999;
    for i := 0 to mpts.Length
      invariant ba == Best(mpts[..], Int8(wpno), i)
    {
      if mpts[i].wpno == Int8(wpno) && mpts[i].xz > ba {
        ba := mpts[i].xz;
      }
    }
    ghost var was := mpts[..];
    for j := 0 to mpts.Length
      invariant forall i | 0 <= i < j :: mpts[i] == WithBest(was, Int8(wpno))[i]
      invariant forall i | j <= i < mpts.Length :: mpts[i] == was[i]
    {
      if mpts[j].wpno == Int8(wpno) {
        mpts[j] := mpts[j].(xz := ba);
      }
    }
  }

  lemma {:induction false} BestIsHighest(pts: seq<Point>, w: int8, k: nat, i: nat)
    requires i < k <= |pts| && pts[i].wpno == w
    ensures pts[i].xz <= Best(pts, w, k)
  {
    if i < k - 1 {
      BestIsHighest(pts, w, k - 1, i);
    }
  }

  // ---------- Save ----------

  /** The points after find_best_alt has run for the first k items. */
  function AllBest(pts: seq<Point>, items: seq<Item>, k: nat): (r: seq<Point>)
    requires k <= |items|
    ensures |r| == |pts|
  {
    if k == 0 then pts else WithBest(AllBest(pts, items, k - 1), Int8(items[k - 1].no))
  }

  /** The number taken from the first LAND among the first k items, or -1. */
  function LandNumber(items: seq<Item>, k: nat): int8
    requires k <= |items|
  {
    if k == 0 then -1
    else
      var l := LandNumber(items, k - 1);
      if items[k - 1].action == Land && l == -1 then Int8(items[k - 1].no) else l
  }

  datatype Settings = Settings(forcedP3: int, upland: bool)

  /** Point p is written back: it was reworked, or its altitude mode changes. */
  predicate IsWritten(p: Point, o: Settings) {
    (p.mark == Updated || (o.forcedP3 != -1 && p.flag != Int8(o.forcedP3))) && p.wpno > 0
  }

  /** Item mi with the altitude of point p, above home when the mode bit is clear and above sea level otherwise. */
  function WithAltitude(mi: Item, p: Point, home: int, o: Settings): Item {
    var p3: int16 := if o.forcedP3 != -1 then Int16(o.forcedP3) else mi.p3;
    mi.(p3 := p3, alt := Int32(if LowBit(p3) == 0 then p.xz - home else p.xz))
  }

  function WithLanding(mi: Item, p: Point, home: int): Item {
    mi.(p2 := Int16(if LowBit(mi.p3) == 0 then p.gz - home else p.gz))
  }

  /** One round of Save's second loop; None where Go panics. */
  function SavePoint(items: seq<Item>, p: Point, home: int, landno: int8, o: Settings): (r: Option<seq<Item>>)
    ensures r.Some? ==> |r.value| == |items|
  {
    var midx := Int8(p.wpno as int - 1);
    if IsWritten(p, o) && (midx >= |items| || items[midx].no != p.wpno) then None
    else
      var items1 := if IsWritten(p, o) then items[midx := WithAltitude(items[midx], p, home, o)] else items;
      if o.upland && landno > 0 && p.wpno == landno then
        if landno > |items| || items1[landno - 1].action != Land then None
        else Some(items1[landno - 1 := WithLanding(items1[landno - 1], p, home)])
      else Some(items1)
  }

  function SavePoints(items: seq<Item>, pts: seq<Point>, k: nat, home: int, landno: int8, o: Settings): (r: Option<seq<Item>>)
    requires k <= |pts|
    ensures r.Some? ==> |r.value| == |items|
  {
    if k == 0 then Some(items)
    else
      var r := SavePoints(items, pts, k - 1, home, landno, o);
      if r.None? then None else SavePoint(r.value, pts[k - 1], home, landno, o)
  }

  /** The mission as Save leaves it after terrain work has turned the detailed points into pts. */
  function SavedMission(items: seq<Item>, pts: seq<Point>, o: Settings): Option<seq<Item>>
    requires |pts| > 0
  {
    var best := AllBest(pts, items, |items|);
    SavePoints(items, best, |pts|, best[0].gz, LandNumber(items, |items|), o)
  }

  /** Save's first loop: every waypoint's visits brought to one altitude, and the first LAND looked up. */
  method BestAltitudes(items: array<Item>, mpts: array<Point>) returns (landno: int8)
    modifies mpts
    ensures mpts[..] == AllBest(old(mpts[..]), items[..], items.Length)
    ensures landno == LandNumber(items[..], items.Length)
  {
    landno := -1;
    for i := 0 to items.Length
      invariant landno == LandNumber(items[..], i)
      invariant mpts[..] == AllBest(old(mpts[..]), items[..], i)
    {
      var mi := items[i];
      if mi.action == Land && landno == -1 {
        landno := Int8(mi.no);
      }
      FindBestAlt(mpts, mi.no);
    }
  }

  /** Save, without the file: the items are changed in place; ok is false where Go panics. */
  method Save(items: array<Item>, mpts: array<Point>, o: Settings) returns (ok: bool)
    requires mpts.Length > 0
    modifies items, mpts
    ensures mpts[..] == AllBest(old(mpts[..]), old(items[..]), items.Length)
    ensures var r := SavedMission(old(items[..]), old(mpts[..]), o);
      ok == r.Some? && (ok ==> items[..] == r.value)
  {
    ghost var was := items[..];
    var landno := BestAltitudes(items, mpts);
    ghost var best := mpts[..];
    var home := mpts[0].gz;
    for k := 0 to mpts.Length
      invariant mpts[..] == best
      invariant SavePoints(was, best, k, home, landno, o) == Some(items[..])
    {
      ok := SaveOne(items, mpts[k], home, landno, o);
      if !ok {
        assert SavePoints(was, best, k + 1, home, landno, o) == None;
        PanicsForGood(was, best, k + 1, mpts.Length, home, landno, o);
        return;
      }
    }
    ok := true;
  }

  /** The body of Save's second loop. */
  method SaveOne(items: array<Item>, p: Point, home: int, landno: int8, o: Settings) returns (ok: bool)
    modifies items
    ensures var r := SavePoint(old(items[..]), p, home, landno, o);
      ok == r.Some? && (ok ==> items[..] == r.value)
  {
    ghost var was := items[..];
    var mark := p.mark;
    if o.forcedP3 != -1 && p.flag != Int8(o.forcedP3) {
      mark := Updated;
    }
    var midx := Int8(p.wpno as int - 1);
    if mark == Updated && p.wpno > 0 {
      if midx >= items.Length || items[midx].no != p.wpno {
        return false;
      }
      if o.forcedP3 != -1 {
        items[midx] := items[midx].(p3 := Int16(o.forcedP3));
      }
      items[midx] := items[midx].(alt := Int32(if LowBit(items[midx].p3) == 0 then p.xz - home else p.xz));
      assert items[..] == was[midx := WithAltitude(was[midx], p, home, o)];
    }
    if o.upland && landno > 0 && p.wpno == landno {
      var lidx := landno - 1;
      if lidx >= items.Length || items[lidx].action != Land {
        return false;
      }
      ghost var mid := items[..];
      items[lidx] := items[lidx].(p2 := Int16(if LowBit(items[lidx].p3) == 0 then p.gz - home else p.gz));
      assert items[..] == mid[lidx := WithLanding(mid[lidx], p, home)];
    }
    ok := true;
  }

  lemma {:induction false} PanicsForGood(items: seq<Item>, pts: seq<Point>, k: nat, l: nat, home: int, landno: int8, o: Settings)
    requires k <= l <= |pts| && SavePoints(items, pts, k, home, landno, o).None?
    ensures SavePoints(items, pts, l, home, landno, o).None?
  {
    if k < l {
      PanicsForGood(items, pts, k, l - 1, home, landno, o);
    }
  }

  // ---------- find_best_alt makes repeated visits agree and only raises ----------

  lemma {:induction false} AllBestRaises(pts: seq<Point>, items: seq<Item>, k: nat)
    requires k <= |items|
    ensures SameTrack(pts, AllBest(pts, items, k))
    ensures forall i | 0 <= i < |pts| ::
      pts[i].xz <= AllBest(pts, items, k)[i].xz && pts[i].mark == AllBest(pts, items, k)[i].mark
  {
    if k > 0 {
      AllBestRaises(pts, items, k - 1);
      var mid := AllBest(pts, items, k - 1);
      var w := Int8(items[k - 1].no);
      forall i | 0 <= i < |pts| && mid[i].wpno == w ensures mid[i].xz <= Best(mid, w, |mid|) {
        BestIsHighest(mid, w, |mid|, i);
      }
    }
  }

  /** All visits of a waypoint that belongs to the first k items have the same altitude. */
  ghost predicate Agreed(pts: seq<Point>, items: seq<Item>, k: nat)
    requires k <= |items|
  {
    forall m, i, j | 0 <= m < k && 0 <= i < |pts| && 0 <= j < |pts|
      && pts[i].wpno == pts[j].wpno == Int8(items[m].no) :: pts[i].xz == pts[j].xz
  }

  lemma {:induction false} AllBestAgrees(pts: seq<Point>, items: seq<Item>, k: nat)
    requires k <= |items|
    ensures Agreed(AllBest(pts, items, k), items, k)
  {
    if k > 0 {
      AllBestAgrees(pts, items, k - 1);
    }
  }

  // ---------- the saved mission, read back ----------

  /** Numbered from 1 and short enough for the 8-bit waypoint numbers of the points. */
  predicate Numbered(items: seq<Item>) {
    |items| <= 127 && forall i | 0 <= i < |items| :: items[i].no == i + 1
  }

  /** Missions that fly the same route: they differ at most in altitudes, modes and the P2 of LAND items. */
  predicate SameRoute(items: seq<Item>, items': seq<Item>) {
    |items| == |items'| && forall i | 0 <= i < |items| ::
      items'[i] == items[i].(alt := items'[i].alt, p3 := items'[i].p3,
                             p2 := if items[i].action.Land? then items'[i].p2 else items[i].p2)
  }

  predicate HasAltitudeOf(mi: Item, p: Point, home: int) {
    mi.alt == Int32(if LowBit(mi.p3) == 0 then p.xz - home else p.xz)
  }

  predicate FromMission(pts: seq<Point>, items: seq<Item>) {
    forall i | 0 <= i < |pts| :: pts[i].wpno <= |items|
  }

  /** What has been written after the first k points. */
  predicate Written(items: seq<Item>, pts: seq<Point>, k: nat, home: int, o: Settings)
    requires k <= |pts| && FromMission(pts, items)
  {
    forall i | 0 <= i < k && IsWritten(pts[i], o) ::
      && HasAltitudeOf(items[pts[i].wpno - 1], pts[i], home)
      && (o.forcedP3 != -1 ==> items[pts[i].wpno - 1].p3 == Int16(o.forcedP3))
  }

  lemma {:induction false} LandNumberIsLand(items: seq<Item>, k: nat)
    requires Numbered(items) && k <= |items|
    ensures var l := LandNumber(items, k); l != -1 ==> 1 <= l <= k && items[l - 1].action == Land
  {
    if k > 0 {
      LandNumberIsLand(items, k - 1);
    }
  }

  lemma NumberedAgree(pts: seq<Point>, items: seq<Item>, i: nat, j: nat)
    requires Numbered(items) && Agreed(pts, items, |items|)
    requires i < |pts| && j < |pts| && 1 <= pts[i].wpno == pts[j].wpno <= |items|
    ensures pts[i].xz == pts[j].xz
  {
    var m := pts[i].wpno - 1;
    assert items[m].no == pts[i].wpno && Int8(items[m].no) == pts[i].wpno;
  }

  /** On a numbered mission Save never panics, and each waypoint ends with the altitude of its written visits. */
  lemma {:induction false} SaveWrites(items: seq<Item>, pts: seq<Point>, k: nat, home: int, o: Settings)
    requires Numbered(items) && k <= |pts| && FromMission(pts, items) && Agreed(pts, items, |items|)
    ensures var r := SavePoints(items, pts, k, home, LandNumber(items, |items|), o);
      r.Some? && SameRoute(items, r.value) && Written(r.value, pts, k, home, o)
  {
    hide SavePoint, LandNumber;
    LandNumberIsLand(items, |items|);
    if k > 0 {
      SaveWrites(items, pts, k - 1, home, o);
      var landno := LandNumber(items, |items|);
      var mid := SavePoints(items, pts, k - 1, home, landno, o).value;
      SavePointWrites(items, mid, pts, k - 1, home, landno, o);
    }
  }

  lemma SavePointWrites(items: seq<Item>, mid: seq<Item>, pts: seq<Point>, k: nat, home: int, landno: int8, o: Settings)
    requires Numbered(items) && k < |pts| && FromMission(pts, items) && Agreed(pts, items, |items|)
    requires SameRoute(items, mid) && Written(mid, pts, k, home, o)
    requires landno != -1 ==> 1 <= landno <= |items| && items[landno - 1].action == Land
    ensures var r := SavePoint(mid, pts[k], home, landno, o);
      r.Some? && SameRoute(items, r.value) && Written(r.value, pts, k + 1, home, o)
  {
    var p := pts[k];
    if IsWritten(p, o) {
      assert mid[p.wpno - 1].no == p.wpno;
    }
    var r := SavePoint(mid, p, home, landno, o).value;
    forall i | 0 <= i < k + 1 && IsWritten(pts[i], o)
      ensures HasAltitudeOf(r[pts[i].wpno - 1], pts[i], home)
      ensures o.forcedP3 != -1 ==> r[pts[i].wpno - 1].p3 == Int16(o.forcedP3)
    {
      if pts[i].wpno == p.wpno {
        NumberedAgree(pts, items, i, k);
      }
    }
  }

  lemma {:induction false} SameRouteSameTrail(items: seq<Item>, items': seq<Item>, jc: seq<int16>, n: nat)
    requires SameRoute(items, items') && |jc| == |items|
    ensures Visit(items', jc, n) == Visit(items, jc, n)
    decreases Rank(items, jc, n, 0), if n <= |items| then |items| - n else 0
  {
    if n < |items| && !items[n].action.Rth? {
      assert items'[n].action == items[n].action;
      if items[n].action.Jump? {
        Jumping(items, jc, n);
        Jumping(items', jc, n);
        if jc[n] == -1 {
          SameRouteSameTrail(items, items', jc, n + 1);
        } else if jc[n] == 0 {
          SameRouteSameTrail(items, items', jc[n := items[n].p2], n + 1);
        } else if items[n].p1 >= 1 {
          SameRouteSameTrail(items, items', jc[n := Decremented(jc[n])], items[n].p1 - 1);
        }
      } else {
        RankKept(items, jc, n, 0);
        RankKept(items', jc, n, 0);
        SameRouteSameTrail(items, items', jc, n + 1);
      }
    }
  }

  /** Point i of a trail carries its item's number, altitude and mode; missions on one route agree on the rest. */
  lemma {:induction false} SameRouteSamePoints(cs: CourseAndDistance, homep: Point, items: seq<Item>, items': seq<Item>, t: Trail,
                                               ly: real, lx: real, dist: real, i: nat)
    requires SameRoute(items, items') && InRange(items, t.visits) && InRange(items', t.visits)
    requires i < |Fly(cs, homep, items, t, ly, lx, dist)|
    ensures |Fly(cs, homep, items', t, ly, lx, dist)| == |Fly(cs, homep, items, t, ly, lx, dist)|
    ensures var p, p' := Fly(cs, homep, items, t, ly, lx, dist)[i], Fly(cs, homep, items', t, ly, lx, dist)[i];
      if i < |t.visits| then
        var mi := items'[t.visits[i]];
        p' == p.(mz := mi.alt, flag := LowBit(mi.p3)) && p.wpno == Int8(mi.no)
      else p' == p && p.wpno == -1 && p.mark == Return && i == |t.visits|
    decreases |t.visits|
  {
    if t.visits != [] {
      var mi := items[t.visits[0]];
      assert items'[t.visits[0]].lat == mi.lat && items'[t.visits[0]].lon == mi.lon;
      if i > 0 {
        var rest := Trail(t.visits[1..], t.end);
        SameRouteSamePoints(cs, homep, items, items', rest, mi.lat, mi.lon, PointAt(cs, ly, lx, dist, mi).d, i - 1);
      }
    }
  }

  /** Two expansions along one route, point by point. */
  lemma SameRouteExpansion(cs: CourseAndDistance, homep: Point, items: seq<Item>, items': seq<Item>, i: nat)
    requires Numbered(items) && SameRoute(items, items') && homep.mark.Home? && homep.wpno == 0
    requires Expansion(cs, homep, items).Some? && i < |Expansion(cs, homep, items).value|
    ensures Expansion(cs, homep, items').Some?
    ensures |Expansion(cs, homep, items').value| == |Expansion(cs, homep, items).value|
    ensures var p, p' := Expansion(cs, homep, items).value[i], Expansion(cs, homep, items').value[i];
      && p.wpno <= |items|
      && (p.wpno > 0 || i == 0 || (p.mark == Return && i == |Expansion(cs, homep, items).value| - 1))
      && (if p.wpno > 0 then p' == p.(mz := items'[p.wpno - 1].alt, flag := LowBit(items'[p.wpno - 1].p3)) else p' == p)
  {
    hide Visit, Fly;
    assert FreshCounters(items') == FreshCounters(items);
    SameRouteSameTrail(items, items', FreshCounters(items), 0);
    var t := Visit(items, FreshCounters(items), 0);
    var tail := Fly(cs, homep, items, t, homep.y, homep.x, 0.0);
    assert |Expansion(cs, homep, items).value| == 1 + |tail|;
    if tail == [] {
      assert |t.visits| == 0;
    } else {
      var k := if i == 0 then 0 else i - 1;
      SameRouteSamePoints(cs, homep, items, items', t, homep.y, homep.x, 0.0, k);
    }
  }

  predicate Fits32(x: int) {
    -0x8000_0000 <= x < 0x8000_0000
  }

  /** The surroundings of a run: distances, home, terrain heights of the waypoints, and the altitude options. */
  datatype Tool = Tool(cs: CourseAndDistance, homep: Point, elev: seq<int>, rthalt: int, margin: int, noalts: bool)

  predicate CanFly(tool: Tool, items: seq<Item>) {
    && Numbered(items) && tool.homep.mark.Home? && tool.homep.wpno == 0
    && Expansion(tool.cs, tool.homep, items).Some?
    && |tool.elev| == |Expansion(tool.cs, tool.homep, items).value|
  }

  /** The points Rework starts from. */
  function Started(tool: Tool, items: seq<Item>): seq<Point>
    requires CanFly(tool, items)
  {
    Detailed(Expansion(tool.cs, tool.homep, items).value, tool.elev, tool.rthalt, tool.margin, tool.noalts)
  }

  /** What the rework starts from. A waypoint has its own ground; its mission altitude stands above home, its absolute one
      above sea level, whichever of them its item gives; and it starts at the absolute one or, when the mission's altitudes
      are ignored, the margin above its own ground. Home is on the ground, and the return is at its fixed height above. */
  lemma StartedExactly(tool: Tool, items: seq<Item>, i: nat)
    requires CanFly(tool, items) && i < |tool.elev|
    ensures var p, home := Started(tool, items)[i], tool.elev[0];
      && p.wpno <= |items|
      && (p.wpno > 0 ==>
            && p.gz == tool.elev[i] && p.az - p.mz == home
            && (if items[p.wpno - 1].p3 as int % 2 == 0 then p.mz else p.az) == items[p.wpno - 1].alt
            && p.xz == if tool.noalts then tool.elev[i] + tool.margin else p.az)
      && (p.wpno <= 0 ==> if i == 0 then p.gz == p.az == p.xz == home && p.mz == 0
                          else p.gz == home && p.mz == tool.rthalt && p.az == p.xz == home + tool.rthalt)
  {
    hide Visit, Fly;
    SameRouteExpansion(tool.cs, tool.homep, items, items, i);
    var first := Expansion(tool.cs, tool.homep, items).value;
    assert first[0].mark == Home && first[0].wpno == 0;
    if i > 0 {
      NumberOfPoint(tool, items, i);
    }
  }

  lemma {:induction false} NumberOfPoint(tool: Tool, items: seq<Item>, i: nat)
    requires CanFly(tool, items) && 0 < i < |tool.elev|
    ensures var w := Expansion(tool.cs, tool.homep, items).value[i].wpno; w > 0 || w == -1
  {
    hide Visit, Legs;
    var pts := Expansion(tool.cs, tool.homep, items).value;
    PathIsFlown(tool.cs, tool.homep, items, pts);
    var t := Visit(items, FreshCounters(items), 0);
    assert pts[1..][i - 1] == pts[i];
    if i - 1 < |t.visits| {
      assert pts[1..][i - 1].wpno == Int8(items[t.visits[i - 1]].no);
    }
  }

  /** Terrain work and find_best_alt change altitudes and marks only. */
  lemma BestKeepsTrack(tool: Tool, items: seq<Item>, pts: seq<Point>)
    requires CanFly(tool, items)
    requires SameTrack(Started(tool, items), pts)
    ensures var first, best := Expansion(tool.cs, tool.homep, items).value, AllBest(pts, items, |items|);
      && |best| == |pts| == |first| && best[0].gz == tool.elev[0] && FromMission(best, items)
      && forall i | 0 <= i < |best| ::
           best[i].wpno == first[i].wpno && best[i].d == first[i].d && best[i].flag == first[i].flag
  {
    var first := Expansion(tool.cs, tool.homep, items).value;
    var best := AllBest(pts, items, |items|);
    AllBestRaises(pts, items, |items|);
    var detailed := Started(tool, items);
    forall i | 0 <= i < |best|
      ensures best[i].wpno == first[i].wpno <= |items| && best[i].d == first[i].d && best[i].flag == first[i].flag
    {
      SameRouteExpansion(tool.cs, tool.homep, items, items, i);
      assert detailed[i].wpno == first[i].wpno && detailed[i].d == first[i].d && detailed[i].flag == first[i].flag;
      assert pts[i].wpno == detailed[i].wpno && pts[i].d == detailed[i].d && pts[i].flag == detailed[i].flag;
    }
    assert pts[0].gz == detailed[0].gz == tool.elev[0];
  }

  /** A point made from an item that carries the altitude of p is detailed to that altitude. */
  lemma DetailUndoesSave(q: Point, mi: Item, p: Point, home: int, ground: int, rthalt: int, margin: int)
    requires q.mz == mi.alt && q.flag == LowBit(mi.p3) && q.wpno > 0
    requires HasAltitudeOf(mi, p, home) && Fits32(p.xz) && Fits32(p.xz - home)
    ensures var back := Detail(q, home, ground, rthalt, margin, false); back.az == back.xz == p.xz
  {
  }

  /** What Save makes of any points that belong to a numbered mission. */
  lemma SaveHolds(items: seq<Item>, pts: seq<Point>, home: int, o: Settings, i: nat)
    requires Numbered(items) && 0 < |pts| && i < |pts|
    requires var best := AllBest(pts, items, |items|); best[0].gz == home && FromMission(best, items)
    ensures var best, saved := AllBest(pts, items, |items|), SavedMission(items, pts, o);
      && saved.Some? && SameRoute(items, saved.value)
      && (forall j | 0 <= j < |pts| && IsWritten(best[j], o) && best[j].wpno == best[i].wpno ::
            HasAltitudeOf(saved.value[best[i].wpno - 1], best[i], home))
  {
    hide AllBest, SavePoints, LandNumber, Agreed, SameRoute, Written, HasAltitudeOf;
    var best := AllBest(pts, items, |items|);
    AllBestAgrees(pts, items, |items|);
    SaveWrites(items, best, |best|, home, o);
    var saved := SavedMission(items, pts, o).value;
    forall j | 0 <= j < |pts| && IsWritten(best[j], o) && best[j].wpno == best[i].wpno
      ensures HasAltitudeOf(saved[best[i].wpno - 1], best[i], home)
    {
      WrittenAt(saved, best, |best|, home, o, j);
      NumberedAgree(best, items, i, j);
      SameAltitude(saved[best[i].wpno - 1], best[j], best[i], home);
    }
  }

  lemma WrittenAt(items: seq<Item>, pts: seq<Point>, k: nat, home: int, o: Settings, j: nat)
    requires j < k <= |pts| && FromMission(pts, items) && Written(items, pts, k, home, o) && IsWritten(pts[j], o)
    ensures 1 <= pts[j].wpno <= |items| && HasAltitudeOf(items[pts[j].wpno - 1], pts[j], home)
  {
    hide HasAltitudeOf;
  }

  lemma SameAltitude(mi: Item, p: Point, q: Point, home: int)
    requires p.xz == q.xz && HasAltitudeOf(mi, p, home)
    ensures HasAltitudeOf(mi, q, home)
  {
  }

  /** Reading the saved mission back gives every written waypoint the altitude it was saved with, whichever
      altitude mode is in force and however often the waypoint is visited. */
  lemma AltitudesRoundTrip(tool: Tool, items: seq<Item>, pts: seq<Point>, o: Settings, i: nat)
    requires CanFly(tool, items) && SameTrack(Started(tool, items), pts) && i < |pts|
    ensures var saved := SavedMission(items, pts, o);
      && saved.Some? && SameRoute(items, saved.value)
      && var again := Expansion(tool.cs, tool.homep, saved.value);
      && again.Some? && |again.value| == |pts|
      && var p, back := AllBest(pts, items, |items|)[i], ReadBack(tool, again.value)[i];
      && back.d == p.d
      && (IsWritten(p, o) && Fits32(p.xz) && Fits32(p.xz - tool.elev[0]) ==> back.az == back.xz == p.xz)
  {
    hide Visit, Fly, AllBest, SavePoints, Fits32, HasAltitudeOf;
    BestKeepsTrack(tool, items, pts);
    SaveHolds(items, pts, tool.elev[0], o, i);
    var saved := SavedMission(items, pts, o).value;
    var p := AllBest(pts, items, |items|)[i];
    if IsWritten(p, o) && Fits32(p.xz) && Fits32(p.xz - tool.elev[0]) {
      HeldAltitudeReturns(tool, items, saved, i, p);
    } else {
      SameRouteExpansion(tool.cs, tool.homep, items, saved, i);
    }
  }

  /** The points of a mission read again with the same terrain, keeping the mission's altitudes. */
  function ReadBack(tool: Tool, pts: seq<Point>): (r: seq<Point>)
    requires 0 < |pts| == |tool.elev|
    ensures |r| == |pts|
  {
    Detailed(pts, tool.elev, tool.rthalt, tool.margin, false)
  }

  /** An item that holds the altitude of p gives it back to its points. */
  lemma HeldAltitudeReturns(tool: Tool, items: seq<Item>, saved: seq<Item>, i: nat, p: Point)
    requires CanFly(tool, items) && SameRoute(items, saved) && i < |tool.elev|
    requires Expansion(tool.cs, tool.homep, items).value[i].wpno == p.wpno
    requires Expansion(tool.cs, tool.homep, items).value[i].d == p.d
    requires 0 < p.wpno <= |items| && HasAltitudeOf(saved[p.wpno - 1], p, tool.elev[0])
    requires Fits32(p.xz) && Fits32(p.xz - tool.elev[0])
    ensures var again := Expansion(tool.cs, tool.homep, saved);
      && again.Some? && |again.value| == |tool.elev|
      && var back := ReadBack(tool, again.value)[i]; back.az == back.xz == p.xz && back.d == p.d
  {
    SameRouteExpansion(tool.cs, tool.homep, items, saved, i);
    var q := Expansion(tool.cs, tool.homep, saved).value[i];
    assert i != 0 by {
      assert Expansion(tool.cs, tool.homep, items).value[0].wpno == 0;
    }
    DetailUndoesSave(q, saved[p.wpno - 1], p, tool.elev[0], tool.elev[i], tool.rthalt, tool.margin);
  }

  // ---------- the whole tool: clear before saving, clear after reading back ----------

  lemma {:induction false} UnwrittenKept(items: seq<Item>, pts: seq<Point>, k: nat, home: int, landno: int8, o: Settings, w: int)
    requires k <= |pts| && SavePoints(items, pts, k, home, landno, o).Some? && 1 <= w <= |items|
    requires forall i | 0 <= i < k && pts[i].wpno == w :: !IsWritten(pts[i], o)
    ensures var mi := SavePoints(items, pts, k, home, landno, o).value[w - 1];
      mi.alt == items[w - 1].alt && mi.p3 == items[w - 1].p3
  {
    if k > 0 {
      UnwrittenKept(items, pts, k - 1, home, landno, o, w);
    }
  }

  lemma {:induction false} BestOfEqual(pts: seq<Point>, w: int8, k: nat, v: int)
    requires k <= |pts| && v >= -99999
    requires forall i | 0 <= i < |pts| && pts[i].wpno == w :: pts[i].xz == v
    ensures Best(pts, w, k) == v || (Best(pts, w, k) == -99999 && forall i | 0 <= i < k :: pts[i].wpno != w)
  {
    if k > 0 {
      BestOfEqual(pts, w, k - 1, v);
    }
  }

  /** Visits that agree already keep their altitude. */
  lemma {:induction false} AllBestOfEqual(pts: seq<Point>, items: seq<Item>, k: nat, w: int8, v: int)
    requires k <= |items| && v >= -99999
    requires forall i | 0 <= i < |pts| && pts[i].wpno == w :: pts[i].xz == v
    ensures forall i | 0 <= i < |pts| && pts[i].wpno == w :: AllBest(pts, items, k)[i].xz == v
  {
    if k > 0 {
      AllBestOfEqual(pts, items, k - 1, w, v);
      AllBestRaises(pts, items, k - 1);
      var mid := AllBest(pts, items, k - 1);
      assert forall i | 0 <= i < |pts| :: mid[i].wpno == pts[i].wpno;
      BestOfEqual(mid, w, |mid|, v);
    }
  }

  /** Terrain work that marks what it changes, on altitudes no lower than find_best_alt's floor. */
  predicate Marking(was: seq<Point>, pts: seq<Point>) {
    SameTrack(was, pts) && forall j | 0 <= j < |pts| && pts[j].mark != Updated :: pts[j].xz == was[j].xz >= -99999
  }

  /** Save writes some visit of waypoint w. */
  ghost predicate Rewritten(pts: seq<Point>, o: Settings, w: int) {
    exists j :: 0 <= j < |pts| && pts[j].wpno == w && IsWritten(pts[j], o)
  }

  /** find_best_alt does not change which visits are written. */
  lemma BestRewritten(items: seq<Item>, pts: seq<Point>, o: Settings, w: int)
    ensures Rewritten(AllBest(pts, items, |items|), o, w) <==> Rewritten(pts, o, w)
  {
    var best := AllBest(pts, items, |items|);
    AllBestRaises(pts, items, |items|);
    hide AllBest;
    assert forall j | 0 <= j < |pts| :: best[j].wpno == pts[j].wpno && IsWritten(best[j], o) == IsWritten(pts[j], o);
    if j :| 0 <= j < |pts| && pts[j].wpno == w && IsWritten(pts[j], o) {
      assert best[j].wpno == w && IsWritten(best[j], o);
    }
  }

  /** An item's mode after Save has written it. */
  function ModeSaved(mi: Item, o: Settings): int16 {
    if o.forcedP3 != -1 then Int16(o.forcedP3) else mi.p3
  }

  lemma {:induction false} ModesKept(items: seq<Item>, pts: seq<Point>, k: nat, home: int, landno: int8, o: Settings, m: nat)
    requires k <= |pts| && SavePoints(items, pts, k, home, landno, o).Some? && m < |items| && o.forcedP3 == -1
    ensures SavePoints(items, pts, k, home, landno, o).value[m].p3 == items[m].p3
  {
    if k > 0 {
      ModesKept(items, pts, k - 1, home, landno, o, m);
    }
  }

  /** The item of a waypoint of which some visit is written. */
  lemma WrittenItem(items: seq<Item>, pts: seq<Point>, home: int, o: Settings, i: nat)
    requires Numbered(items) && 0 < |pts| && i < |pts| && 0 < pts[i].wpno <= |items| && Rewritten(pts, o, pts[i].wpno)
    requires var best := AllBest(pts, items, |items|); best[0].gz == home && FromMission(best, items)
    ensures var best, saved := AllBest(pts, items, |items|), SavedMission(items, pts, o);
      && saved.Some?
      && var mi := saved.value[pts[i].wpno - 1];
         best[i].wpno == pts[i].wpno && mi.p3 == ModeSaved(items[pts[i].wpno - 1], o) && HasAltitudeOf(mi, best[i], home)
  {
    hide AllBest, SavePoints, LandNumber, Agreed, SameRoute, HasAltitudeOf, IsWritten;
    var best, w := AllBest(pts, items, |items|), pts[i].wpno;
    AllBestRaises(pts, items, |items|);
    AllBestAgrees(pts, items, |items|);
    SaveHolds(items, pts, home, o, i);
    SaveWrites(items, best, |best|, home, o);
    BestRewritten(items, pts, o, w);
    var j :| 0 <= j < |best| && best[j].wpno == w && IsWritten(best[j], o);
    if o.forcedP3 == -1 {
      ModesKept(items, best, |best|, home, LandNumber(items, |items|), o, w - 1);
    }
  }

  /** The item of a waypoint that no visit writes. */
  lemma UnwrittenItem(items: seq<Item>, pts: seq<Point>, o: Settings, w: int)
    requires 0 < |pts| && 1 <= w <= |items| && SavedMission(items, pts, o).Some? && !Rewritten(pts, o, w)
    ensures var mi := SavedMission(items, pts, o).value[w - 1]; mi.alt == items[w - 1].alt && mi.p3 == items[w - 1].p3
  {
    hide AllBest, SavePoints, LandNumber, IsWritten;
    var best := AllBest(pts, items, |items|);
    BestRewritten(items, pts, o, w);
    UnwrittenKept(items, best, |best|, best[0].gz, LandNumber(items, |items|), o, w);
  }

  /** The altitude an item stands for. */
  function Meant(mi: Item, home: int): int {
    if LowBit(mi.p3) == 0 then home + mi.alt else mi.alt
  }

  /** The number written to the file for altitude x in a mode. */
  function Number(x: int, p3: int16, home: int): int {
    if LowBit(p3) == 0 then x - home else x
  }

  /** The altitude at which waypoint i is read back: that of its visits, through the file's 32-bit numbers, if one of them
      is written, and else that of the item as it was. */
  ghost function AltitudeRead(items: seq<Item>, pts: seq<Point>, o: Settings, i: nat): int
    requires i < |pts| && 0 < pts[i].wpno <= |items|
  {
    var best, mi := AllBest(pts, items, |items|), items[pts[i].wpno - 1];
    var home, p3 := best[0].gz, ModeSaved(mi, o);
    if Rewritten(pts, o, pts[i].wpno) then
      var n := Int32(Number(best[i].xz, p3, home));
      if LowBit(p3) == 0 then home + n else n
    else Meant(mi, home)
  }

  lemma Truncates(x: int)
    ensures Int32(x) == x <==> Fits32(x)
  {
  }

  /** Every waypoint is read back at just that altitude, in either mode and however the altitudes came about. */
  lemma WaypointReads(tool: Tool, items: seq<Item>, pts: seq<Point>, o: Settings, i: nat)
    requires CanFly(tool, items) && SameTrack(Started(tool, items), pts) && i < |pts| && pts[i].wpno > 0
    ensures var saved := SavedMission(items, pts, o);
      && saved.Some? && pts[i].wpno <= |items|
      && var again := Expansion(tool.cs, tool.homep, saved.value);
      && again.Some? && |again.value| == |pts|
      && ReadBack(tool, again.value)[i].xz == AltitudeRead(items, pts, o, i)
  {
    hide Visit, Fly, AllBest, SavePoints, LandNumber, Rewritten, Expansion;
    BestKeepsTrack(tool, items, pts);
    AllBestRaises(pts, items, |items|);
    SaveHolds(items, pts, tool.elev[0], o, i);
    var first, w := Expansion(tool.cs, tool.homep, items).value, pts[i].wpno;
    assert first[i].wpno == w;
    var saved := SavedMission(items, pts, o).value;
    if Rewritten(pts, o, w) {
      WrittenItem(items, pts, tool.elev[0], o, i);
    } else {
      UnwrittenItem(items, pts, o, w);
    }
    SameRouteExpansion(tool.cs, tool.homep, items, saved, i);
    NotHome(tool, items, i);
  }

  lemma NotHome(tool: Tool, items: seq<Item>, i: nat)
    requires CanFly(tool, items) && i < |tool.elev| && Expansion(tool.cs, tool.homep, items).value[i].wpno > 0
    ensures i > 0
  {
    hide Visit, Fly;
    assert Expansion(tool.cs, tool.homep, items).value[0].wpno == 0;
  }

  /** So a waypoint comes back at the altitude its visits were brought to if and only if the number written for it fits the
      file or, when none of its visits is written, its item stood for that altitude before. */
  lemma WaypointReturns(tool: Tool, items: seq<Item>, pts: seq<Point>, o: Settings, i: nat)
    requires CanFly(tool, items) && SameTrack(Started(tool, items), pts) && i < |pts| && pts[i].wpno > 0
    ensures var saved, best := SavedMission(items, pts, o), AllBest(pts, items, |items|);
      && saved.Some? && pts[i].wpno <= |items|
      && var again, mi := Expansion(tool.cs, tool.homep, saved.value), items[pts[i].wpno - 1];
      && again.Some? && |again.value| == |pts|
      && (ReadBack(tool, again.value)[i].xz == best[i].xz <==>
            if Rewritten(pts, o, pts[i].wpno) then Fits32(Number(best[i].xz, ModeSaved(mi, o), tool.elev[0]))
            else Meant(mi, tool.elev[0]) == best[i].xz)
  {
    hide Visit, Fly, AllBest, SavedMission, Rewritten, Expansion, Int32, Fits32;
    BestKeepsTrack(tool, items, pts);
    WaypointReads(tool, items, pts, o, i);
    Truncates(Number(AllBest(pts, items, |items|)[i].xz, ModeSaved(items[pts[i].wpno - 1], o), tool.elev[0]));
  }

  /** Every waypoint's item ends up holding the altitude its visits were brought to if and only if one of them is written or
      it held that altitude before. */
  lemma EveryItemHolds(tool: Tool, items: seq<Item>, pts: seq<Point>, o: Settings, i: nat)
    requires CanFly(tool, items) && SameTrack(Started(tool, items), pts) && i < |pts| && pts[i].wpno > 0
    ensures var saved, best := SavedMission(items, pts, o), AllBest(pts, items, |items|);
      && saved.Some? && SameRoute(items, saved.value) && pts[i].wpno <= |items|
      && (HasAltitudeOf(saved.value[pts[i].wpno - 1], best[i], tool.elev[0]) <==>
            Rewritten(pts, o, pts[i].wpno) || HasAltitudeOf(items[pts[i].wpno - 1], best[i], tool.elev[0]))
  {
    hide AllBest, SavePoints, LandNumber, Rewritten, Expansion, SameRoute;
    BestKeepsTrack(tool, items, pts);
    AllBestRaises(pts, items, |items|);
    SaveHolds(items, pts, tool.elev[0], o, i);
    if Rewritten(pts, o, pts[i].wpno) {
      WrittenItem(items, pts, tool.elev[0], o, i);
    } else {
      UnwrittenItem(items, pts, o, pts[i].wpno);
    }
  }

  lemma VisitsStartEqual(tool: Tool, items: seq<Item>, pts: seq<Point>, o: Settings, w: int)
    requires CanFly(tool, items) && !tool.noalts && 1 <= w <= |items|
    requires Marking(Started(tool, items), pts)
    requires forall j | 0 <= j < |pts| && pts[j].wpno == w :: !IsWritten(pts[j], o)
    ensures var mi := items[w - 1];
      forall j | 0 <= j < |pts| && pts[j].wpno == w ::
        pts[j].xz == if LowBit(mi.p3) == 0 then tool.elev[0] + mi.alt else mi.alt
  {
    var first := Expansion(tool.cs, tool.homep, items).value;
    var was := Started(tool, items);
    forall j | 0 <= j < |pts| && pts[j].wpno == w
      ensures pts[j].xz == if LowBit(items[w - 1].p3) == 0 then tool.elev[0] + items[w - 1].alt else items[w - 1].alt
    {
      assert pts[j].wpno == was[j].wpno == first[j].wpno;
      SameRouteExpansion(tool.cs, tool.homep, items, items, j);
      assert j != 0 by {
        assert first[0].wpno == 0;
      }
    }
  }

  /** What is written, said without the test for it. A forced mode reaches every waypoint; a marked waypoint comes back at
      the altitude of its visits when that fits the file; and without a forced mode an item of which no visit is marked
      keeps its altitude and mode. */
  lemma WhatIsWritten(tool: Tool, items: seq<Item>, pts: seq<Point>, o: Settings, i: nat)
    requires CanFly(tool, items) && SameTrack(Started(tool, items), pts) && i < |pts| && pts[i].wpno > 0
    ensures var saved, best, w := SavedMission(items, pts, o), AllBest(pts, items, |items|), pts[i].wpno;
      && saved.Some? && w <= |items|
      && (o.forcedP3 in {0, 1} ==> saved.value[w - 1].p3 as int % 2 == o.forcedP3)
      && (o.forcedP3 == -1 && (forall j | 0 <= j < |pts| && pts[j].wpno == w :: pts[j].mark != Updated) ==>
            saved.value[w - 1].alt == items[w - 1].alt && saved.value[w - 1].p3 == items[w - 1].p3)
      && var again := Expansion(tool.cs, tool.homep, saved.value);
         && again.Some? && |again.value| == |pts|
         && (pts[i].mark == Updated && Fits32(best[i].xz) && Fits32(best[i].xz - tool.elev[0]) ==>
               ReadBack(tool, again.value)[i].xz == best[i].xz)
  {
    hide Visit, Fly, AllBest, SavePoints, LandNumber, Expansion, Fits32, Int32;
    BestKeepsTrack(tool, items, pts);
    AllBestRaises(pts, items, |items|);
    SaveHolds(items, pts, tool.elev[0], o, i);
    WaypointReturns(tool, items, pts, o, i);
    var w := pts[i].wpno;
    FlagOfPoint(tool, items, i);
    assert pts[i].flag == Started(tool, items)[i].flag && Started(tool, items)[i].wpno == w;
    if Rewritten(pts, o, w) {
      WrittenItem(items, pts, tool.elev[0], o, i);
    } else {
      UnwrittenItem(items, pts, o, w);
      assert !IsWritten(pts[i], o);
    }
  }

  lemma FlagOfPoint(tool: Tool, items: seq<Item>, i: nat)
    requires CanFly(tool, items) && i < |tool.elev|
    ensures var p := Started(tool, items)[i]; p.wpno <= |items| && (p.wpno > 0 ==> p.flag as int == items[p.wpno - 1].p3 as int % 2)
  {
    hide Visit, Fly;
    SameRouteExpansion(tool.cs, tool.homep, items, items, i);
    assert Expansion(tool.cs, tool.homep, items).value[0].wpno == 0;
  }

  // ---------- landing heights ----------

  predicate FirstLand(items: seq<Item>, l: nat) {
    l < |items| && items[l].action == Land && forall j | 0 <= j < l :: items[j].action != Land
  }

  lemma {:induction false} LandNumberIs(items: seq<Item>, k: nat, l: nat)
    requires Numbered(items) && k <= |items| && FirstLand(items, l)
    ensures LandNumber(items, k) == if l < k then l + 1 else -1
  {
    if k > 0 {
      LandNumberIs(items, k - 1, l);
    }
  }

  lemma {:induction false} LandNumberIsNone(items: seq<Item>, k: nat)
    requires k <= |items| && forall j | 0 <= j < |items| :: items[j].action != Land
    ensures LandNumber(items, k) == -1
  {
    if k > 0 {
      LandNumberIsNone(items, k - 1);
    }
  }

  /** Save leaves P2 alone but for the landing item, and that one too unless asked and the item is visited. */
  lemma {:induction false} LandingKept(items: seq<Item>, pts: seq<Point>, k: nat, home: int, landno: int8, o: Settings, m: nat)
    requires k <= |pts| && SavePoints(items, pts, k, home, landno, o).Some? && m < |items|
    requires !o.upland || landno as int != m + 1 || forall i | 0 <= i < k :: pts[i].wpno as int != m + 1
    ensures SavePoints(items, pts, k, home, landno, o).value[m].p2 == items[m].p2
  {
    if k > 0 {
      LandingKept(items, pts, k - 1, home, landno, o, m);
    }
  }

  /** A height above home when the mode's bit is clear, and above sea level otherwise. */
  function InMode(height: int, p3: int16, home: int): int {
    if p3 as int % 2 == 0 then height - home else height
  }

  lemma LandingPoint(items: seq<Item>, p: Point, home: int, landno: int8, o: Settings)
    requires SavePoint(items, p, home, landno, o).Some? && o.upland && 0 < landno as int <= |items| && p.wpno == landno
    ensures var mi := SavePoint(items, p, home, landno, o).value[landno - 1]; mi.p2 == Int16(InMode(p.gz, mi.p3, home))
  {
    hide Int16, Int32;
  }

  lemma OtherPoint(items: seq<Item>, p: Point, home: int, landno: int8, o: Settings, m: nat)
    requires SavePoint(items, p, home, landno, o).Some? && m < |items| && p.wpno as int != m + 1
    ensures SavePoint(items, p, home, landno, o).value[m] == items[m]
  {
    hide Int16, Int32;
  }

  /** The last visit of the landing item decides. */
  lemma {:induction false} LandingSet(items: seq<Item>, pts: seq<Point>, k: nat, home: int, landno: int8, o: Settings, m: nat, i: nat)
    requires i < k <= |pts| && SavePoints(items, pts, k, home, landno, o).Some? && m < |items|
    requires o.upland && landno as int == m + 1 && pts[i].wpno == landno && forall j | i < j < k :: pts[j].wpno != landno
    ensures var mi := SavePoints(items, pts, k, home, landno, o).value[m]; mi.p2 == Int16(InMode(pts[i].gz, mi.p3, home))
  {
    hide SavePoint, Int16, InMode;
    var before := SavePoints(items, pts, k - 1, home, landno, o).value;
    if k - 1 > i {
      LandingSet(items, pts, k - 1, home, landno, o, m, i);
      OtherPoint(before, pts[k - 1], home, landno, o, m);
    } else {
      LandingPoint(before, pts[i], home, landno, o);
    }
  }

  /** When asked to, Save sets P2 of the mission's first LAND to the ground at the last visit of it, in the item's own mode;
      every other item keeps its P2, another LAND too. */
  lemma SavedLanding(items: seq<Item>, pts: seq<Point>, o: Settings, l: nat, m: nat)
    requires Numbered(items) && 0 < |pts| && SavedMission(items, pts, o).Some? && FirstLand(items, l) && m < |items|
    ensures var mi := SavedMission(items, pts, o).value[m];
      if o.upland && m == l then
        && (forall i | 0 <= i < |pts| && pts[i].wpno as int == l + 1 && (forall j | i < j < |pts| :: pts[j].wpno as int != l + 1) ::
              mi.p2 == Int16(InMode(pts[i].gz, mi.p3, pts[0].gz)))
        && ((forall i | 0 <= i < |pts| :: pts[i].wpno as int != l + 1) ==> mi.p2 == items[m].p2)
      else mi.p2 == items[m].p2
  {
    hide AllBest, SavePoints, LandNumber, Int16;
    var best := AllBest(pts, items, |items|);
    AllBestRaises(pts, items, |items|);
    assert forall i | 0 <= i < |pts| :: best[i].wpno == pts[i].wpno && best[i].gz == pts[i].gz;
    LandNumberIs(items, |items|, l);
    if o.upland && m == l {
      forall i | 0 <= i < |pts| && pts[i].wpno as int == l + 1 && (forall j | i < j < |pts| :: pts[j].wpno as int != l + 1)
        ensures SavedMission(items, pts, o).value[m].p2
          == Int16(InMode(pts[i].gz, SavedMission(items, pts, o).value[m].p3, pts[0].gz))
      {
        LandingSet(items, best, |best|, best[0].gz, LandNumber(items, |items|), o, m, i);
      }
      if forall i | 0 <= i < |pts| :: pts[i].wpno as int != l + 1 {
        LandingKept(items, best, |best|, best[0].gz, LandNumber(items, |items|), o, m);
      }
    } else {
      LandingKept(items, best, |best|, best[0].gz, LandNumber(items, |items|), o, m);
    }
  }

  lemma NoLanding(items: seq<Item>, pts: seq<Point>, o: Settings, m: nat)
    requires 0 < |pts| && SavedMission(items, pts, o).Some? && m < |items|
    requires forall j | 0 <= j < |items| :: items[j].action != Land
    ensures SavedMission(items, pts, o).value[m].p2 == items[m].p2
  {
    hide AllBest, SavePoints, LandNumber;
    var best := AllBest(pts, items, |items|);
    LandNumberIsNone(items, |items|);
    LandingKept(items, best, |best|, best[0].gz, LandNumber(items, |items|), o, m);
  }

  /** When altitudes started from the mission, an item that is not written stands for the altitude of its visits. */
  lemma KeptIsMeant(tool: Tool, items: seq<Item>, pts: seq<Point>, o: Settings, i: nat)
    requires CanFly(tool, items) && Marking(Started(tool, items), pts) && !tool.noalts && i < |pts| && 0 < pts[i].wpno <= |items|
    requires !Rewritten(pts, o, pts[i].wpno)
    ensures AllBest(pts, items, |items|)[i].xz == Meant(items[pts[i].wpno - 1], tool.elev[0])
  {
    hide AllBest, Expansion, Visit, Fly, IsWritten;
    var w := pts[i].wpno;
    assert forall j | 0 <= j < |pts| && pts[j].wpno == w :: !IsWritten(pts[j], o);
    VisitsStartEqual(tool, items, pts, o, w);
    Unmarked(tool, items, pts, o, i);
    AllBestOfEqual(pts, items, |items|, w, Meant(items[w - 1], tool.elev[0]));
  }

  lemma Unmarked(tool: Tool, items: seq<Item>, pts: seq<Point>, o: Settings, i: nat)
    requires CanFly(tool, items) && Marking(Started(tool, items), pts) && i < |pts| && pts[i].wpno > 0 && !IsWritten(pts[i], o)
    ensures pts[i].xz >= -99999
  {
    hide Started;
  }

  lemma WaypointNumbers(tool: Tool, items: seq<Item>, i: nat)
    requires CanFly(tool, items) && 1 <= i < |tool.elev|
    requires i + 1 < |tool.elev| || Started(tool, items)[i].mark != Return
    ensures Started(tool, items)[i].wpno > 0
  {
    SameRouteExpansion(tool.cs, tool.homep, items, items, i);
  }

  lemma ReadBackTrack(tool: Tool, items: seq<Item>, pts: seq<Point>, o: Settings)
    requires CanFly(tool, items) && SameTrack(Started(tool, items), pts)
    ensures var saved := SavedMission(items, pts, o);
      && saved.Some?
      && var again := Expansion(tool.cs, tool.homep, saved.value);
      && again.Some? && |again.value| == |pts| && SameDistances(pts, ReadBack(tool, again.value))
  {
    AltitudesRoundTrip(tool, items, pts, o, 0);
    AllBestRaises(pts, items, |items|);
    var back := ReadBack(tool, Expansion(tool.cs, tool.homep, SavedMission(items, pts, o).value).value);
    forall i | 0 <= i < |pts| ensures back[i].d == pts[i].d {
      AltitudesRoundTrip(tool, items, pts, o, i);
    }
  }
}

/** Flight-path expansion: the loop that interprets JUMP items with one counter each. */
module MissionPath {
  import opened Ints
  import opened Mission
  import opened Options

  datatype End = Finished | Returned | Panicked

  /** The items flown to, in order, and why the interpretation stopped. */
  datatype Trail = Trail(visits: seq<nat>, end: End)

  /** The counters as the interpreter first fills them. */
  function FreshCounters(items: seq<Item>): (jc: seq<int16>)
    ensures |jc| == |items|
  {
    seq(|items|, k requires 0 <= k < |items| => if items[k].action.Jump? then items[k].p2 else 0)
  }

  /** How many more times counter value c sends the interpreter back; the counter wraps at 16 bits. */
  function Remaining(c: int16): (r: nat)
    ensures r <= 0xffff
  {
    (c as int) % 0x1_0000
  }

  /** Go's `c -= 1` on an int16. */
  function Decremented(c: int16): (r: int16)
    ensures c != 0 ==> Remaining(r) == Remaining(c) - 1
  {
    Int16(c as int - 1)
  }

  // ---------- termination ----------

  /** What JUMP item k can still cost: nothing once the position is past it. */
  ghost function Digit(items: seq<Item>, jc: seq<int16>, n: int, k: nat): (d: nat)
    requires |jc| == |items| && k < |items|
    ensures d <= 0x1_0000
  {
    if items[k].action.Jump? && n <= k then Remaining(jc[k]) + 1 else 0
  }

  /** The digits from item k on, read as a number in which later items weigh more. */
  ghost function Rank(items: seq<Item>, jc: seq<int16>, n: int, k: nat): nat
    requires |jc| == |items|
    decreases |items| - k
  {
    if k >= |items| then 0 else Digit(items, jc, n, k) + 0x1_0001 * Rank(items, jc, n, k + 1)
  }

  /** Lowering the digit of item j lowers the rank, whatever happens to the digits below it. */
  lemma {:induction false} RankDrops(items: seq<Item>, jc: seq<int16>, n: int, jc': seq<int16>, n': int, j: nat, k: nat)
    requires |jc| == |jc'| == |items| && j < |items|
    requires Digit(items, jc', n', j) < Digit(items, jc, n, j)
    requires forall i: nat | j < i < |items| :: Digit(items, jc', n', i) <= Digit(items, jc, n, i)
    ensures Rank(items, jc', n', k) <= Rank(items, jc, n, k)
    ensures k <= j ==> Rank(items, jc', n', k) < Rank(items, jc, n, k)
    decreases |items| - k
  {
    if k < |items| {
      RankDrops(items, jc, n, jc', n', j, k + 1);
    }
  }

  /** Stepping over an item that is no JUMP leaves the rank alone. */
  lemma {:induction false} RankKept(items: seq<Item>, jc: seq<int16>, n: nat, k: nat)
    requires |jc| == |items| && n < |items| && !items[n].action.Jump?
    ensures Rank(items, jc, n + 1, k) == Rank(items, jc, n, k)
    decreases |items| - k
  {
    if k < |items| {
      RankKept(items, jc, n, k + 1);
    }
  }

  // ---------- the interpreter's meaning ----------

  /** Items that are flown to when reached with a starting position. */
  predicate IsFlown(a: Action) {
    a.Land? || a.Place?
  }

  predicate InRange(items: seq<Item>, visits: seq<nat>) {
    forall i | 0 <= i < |visits| :: visits[i] < |items| && IsFlown(items[visits[i]].action)
  }

  /** The trail from position n with counters jc, for any mission whatever. */
  function Visit(items: seq<Item>, jc: seq<int16>, n: nat): (t: Trail)
    requires |jc| == |items|
    ensures InRange(items, t.visits)
    decreases Rank(items, jc, n, 0), if n <= |items| then |items| - n else 0
  {
    if n >= |items| then Trail([], Finished)
    else if items[n].action.Rth? then Trail([], Returned)
    else if items[n].action.Jump? then
      if jc[n] == -1 then
        RankDrops(items, jc, n, jc, n + 1, n, 0);
        Visit(items, jc, n + 1)
      else if jc[n] == 0 then
        RankDrops(items, jc, n, jc[n := items[n].p2], n + 1, n, 0);
        Visit(items, jc[n := items[n].p2], n + 1)
      else if items[n].p1 < 1 then Trail([], Panicked)
      else
        RankDrops(items, jc, n, jc[n := Decremented(jc[n])], items[n].p1 - 1, n, 0);
        Visit(items, jc[n := Decremented(jc[n])], items[n].p1 - 1)
    else
      RankKept(items, jc, n, 0);
      var rest := Visit(items, jc, n + 1);
      if items[n].action.SetPoi? || items[n].action.SetHead? then rest
      else Trail([n] + rest.visits, rest.end)
  }

  /** The point recorded for an item reached from (ly, lx) with dist metres behind. */
  function PointAt(cs: CourseAndDistance, ly: real, lx: real, dist: real, mi: Item): Point {
    var (cse, dm) := cs(ly, lx, mi.lat, mi.lon);
    Point(mi.lat, mi.lon, dist + dm * 1852.0, cse, 0, mi.alt, 0, 0, LowBit(mi.p3), Int8(mi.no), Init)
  }

  /** The point recorded for the flight back to home. */
  function ReturnAt(cs: CourseAndDistance, ly: real, lx: real, dist: real, homep: Point): Point {
    var (cse, dm) := cs(ly, lx, homep.y, homep.x);
    Point(homep.y, homep.x, dist + dm * 1852.0, cse, 0, 0, 0, 0, 0, -1, Return)
  }

  /** The points of a trail flown from (ly, lx). */
  function Fly(cs: CourseAndDistance, homep: Point, items: seq<Item>, t: Trail, ly: real, lx: real, dist: real): (ps: seq<Point>)
    requires InRange(items, t.visits)
    ensures |ps| == |t.visits| + if t.end.Returned? then 1 else 0
    decreases |t.visits|
  {
    if t.visits == [] then
      if t.end.Returned? then [ReturnAt(cs, ly, lx, dist, homep)] else []
    else
      var mi := items[t.visits[0]];
      var p := PointAt(cs, ly, lx, dist, mi);
      [p] + Fly(cs, homep, items, Trail(t.visits[1..], t.end), mi.lat, mi.lon, p.d)
  }

  /** The whole path: home first when it is set, else the first item taken silently as the start. */
  function Expansion(cs: CourseAndDistance, homep: Point, items: seq<Item>): (r: Option<seq<Point>>) {
    var jc := FreshCounters(items);
    if homep.mark.Home? then
      var t := Visit(items, jc, 0);
      if t.end.Panicked? then None
      else Some([homep.(flag := 0)] + Fly(cs, homep, items, t, homep.y, homep.x, 0.0))
    else if items == [] then Some([])
    else
      var t := Visit(items, jc, 1);
      if t.end.Panicked? then None
      else Some(Fly(cs, homep, items, t, items[0].lat, items[0].lon, 0.0))
  }

  /** A JUMP item that does not panic hands over to a position and counters of lower rank. */
  lemma Jumping(items: seq<Item>, jc: seq<int16>, n: nat)
    requires |jc| == |items| && n < |items| && items[n].action.Jump?
    ensures jc[n] == -1 ==>
      Lower(items, jc, n, jc, n + 1) && Visit(items, jc, n) == Visit(items, jc, n + 1)
    ensures jc[n] == 0 ==> var jc' := jc[n := items[n].p2];
      Lower(items, jc, n, jc', n + 1) && Visit(items, jc, n) == Visit(items, jc', n + 1)
    ensures jc[n] !in {-1, 0} && items[n].p1 >= 1 ==> var jc' := jc[n := Decremented(jc[n])];
      Lower(items, jc, n, jc', items[n].p1 - 1) && Visit(items, jc, n) == Visit(items, jc', items[n].p1 - 1)
  {
    if jc[n] == -1 {
      RankDrops(items, jc, n, jc, n + 1, n, 0);
    } else if jc[n] == 0 {
      RankDrops(items, jc, n, jc[n := items[n].p2], n + 1, n, 0);
    } else if items[n].p1 >= 1 {
      RankDrops(items, jc, n, jc[n := Decremented(jc[n])], items[n].p1 - 1, n, 0);
    }
  }

  ghost predicate Lower(items: seq<Item>, jc: seq<int16>, n: nat, jc': seq<int16>, n': nat)
    requires |jc| == |jc'| == |items|
  {
    Rank(items, jc', n', 0) < Rank(items, jc, n, 0)
  }

  /** Recording the point of the item at n moves the interpretation on to n + 1. */
  lemma FlyOne(cs: CourseAndDistance, homep: Point, items: seq<Item>, mpts: seq<Point>,
               jc: seq<int16>, n: nat, ly: real, lx: real, dist: real)
    requires |jc| == |items| && n < |items| && IsFlown(items[n].action)
    ensures Rank(items, jc, n + 1, 0) == Rank(items, jc, n, 0)
    ensures Pending(cs, homep, items, mpts, jc, n, ly, lx, dist)
         == Pending(cs, homep, items, mpts + [PointAt(cs, ly, lx, dist, items[n])], jc, n + 1,
                    items[n].lat, items[n].lon, PointAt(cs, ly, lx, dist, items[n]).d)
  {
    RankKept(items, jc, n, 0);
    var rest := Visit(items, jc, n + 1);
    var t := Trail([n] + rest.visits, rest.end);
    assert Visit(items, jc, n) == t && Trail(t.visits[1..], t.end) == rest;
    var p := PointAt(cs, ly, lx, dist, items[n]);
    assert mpts + ([p] + Fly(cs, homep, items, rest, p.y, p.x, p.d))
        == mpts + [p] + Fly(cs, homep, items, rest, p.y, p.x, p.d);
  }

  /** Allocates the counters and fills those of the JUMP items. */
  method NewCounters(items: seq<Item>) returns (jumpC: array<int16>)
    ensures fresh(jumpC) && jumpC[..] == FreshCounters(items)
  {
    jumpC := new int16[|items|](_ => 0);
    for j := 0 to |items|
      invariant forall k | 0 <= k < |items| ::
        jumpC[k] == if k < j && items[k].action.Jump? then items[k].p2 else 0
    {
      if items[j].action.Jump? {
        jumpC[j] := items[j].p2;
      }
    }
  }

  /** Executes the JUMP item at n on its counter; the new position is negative where Go's next index panics. */
  method TakeJump(items: seq<Item>, jumpC: array<int16>, n: nat) returns (n': int)
    requires jumpC.Length == |items| && n < |items| && items[n].action.Jump?
    modifies jumpC
    ensures n' < 0 ==> Visit(items, old(jumpC[..]), n).end.Panicked?
    ensures n' >= 0 ==>
      && Lower(items, old(jumpC[..]), n, jumpC[..], n')
      && Visit(items, old(jumpC[..]), n) == Visit(items, jumpC[..], n')
    ensures forall k | 0 <= k < |items| && k != n :: jumpC[k] == old(jumpC[k])
  {
    ghost var jc := jumpC[..];
    Jumping(items, jc, n);
    if jumpC[n] == -1 {
      n' := n + 1;
    } else if jumpC[n] == 0 {
      jumpC[n] := items[n].p2;
      assert jumpC[..] == jc[n := items[n].p2];
      n' := n + 1;
    } else {
      jumpC[n] := Decremented(jumpC[n]);
      assert jumpC[..] == jc[n := Decremented(jc[n])];
      n' := items[n].p1 - 1;
    }
  }

  lemma FlyEnds(cs: CourseAndDistance, homep: Point, items: seq<Item>, end: End, ly: real, lx: real, dist: real)
    ensures Fly(cs, homep, items, Trail([], end), ly, lx, dist)
      == if end.Returned? then [ReturnAt(cs, ly, lx, dist, homep)] else []
  {
  }

  /** The source's loop. The result is None where Go would panic on the index n == -1 or below. */
  method GetPoints(cs: CourseAndDistance, homep: Point, items: seq<Item>) returns (r: Option<seq<Point>>)
    ensures r == Expansion(cs, homep, items)
  {
    hide Rank, Fly;
    var mpts: seq<Point> := [];
    var valid := false;
    var lx, ly, cx, cy := 0.0, 0.0, 0.0, 0.0;
    var nsize := |items|;
    var ret := false;
    if homep.mark.Home? {
      mpts := [homep.(flag := 0)];
      valid := true;
      cx, cy := homep.x, homep.y;
      lx, ly := cx, cy;
    }
    var dist := 0.0;
    var jumpC := NewCounters(items);
    var n := 0;
    while n < nsize
      invariant 0 <= n && jumpC.Length == nsize
      invariant !valid ==> n == 0 && mpts == [] && !homep.mark.Home? && jumpC[..] == FreshCounters(items)
      invariant !valid ==> dist == 0.0
      invariant valid ==> Pending(cs, homep, items, mpts, jumpC[..], n, ly, lx, dist) == Expansion(cs, homep, items)
      invariant !ret
      decreases !valid, Rank(items, jumpC[..], n, 0), nsize - n
    {
      var typ := items[n].action;
      if valid {
        ghost var jc := jumpC[..];
        if typ.SetPoi? || typ.SetHead? {
          RankKept(items, jc, n, 0);
          n := n + 1;
          continue;
        }
        if typ.Jump? {
          n := TakeJump(items, jumpC, n);
          if n < 0 {
            return None;
          }
          continue;
        }
        if typ.Rth? {
          ret := true;
          break;
        }
        FlyOne(cs, homep, items, mpts, jc, n, ly, lx, dist);
        var mi := items[n];
        cy, cx := mi.lat, mi.lon;
        var (cse, dm) := cs(ly, lx, cy, cx);
        dist := dist + dm * 1852.0;
        mpts := mpts + [Point(cy, cx, dist, cse, 0, mi.alt, 0, 0, LowBit(mi.p3), Int8(mi.no), Init)];
        n := n + 1;
      } else {
        cy, cx := items[n].lat, items[n].lon;
        valid := true;
        n := n + 1;
        ghost var t := Visit(items, jumpC[..], 1);
        assert [] + Fly(cs, homep, items, t, cy, cx, 0.0) == Fly(cs, homep, items, t, cy, cx, 0.0);
      }
      lx, ly := cx, cy;
    }
    FlyEnds(cs, homep, items, if ret then Returned else Finished, ly, lx, dist);
    if ret {
      var (cse, dm) := cs(ly, lx, homep.y, homep.x);
      dist := dist + dm * 1852.0;
      mpts := mpts + [Point(homep.y, homep.x, dist, cse, 0, 0, 0, 0, 0, -1, Return)];
    }
    r := Some(mpts);
    assert !ret ==> mpts + [] == mpts;
  }

  /** The path that results when the interpreter has made mpts and stands at n. */
  ghost function Pending(cs: CourseAndDistance, homep: Point, items: seq<Item>, mpts: seq<Point>,
                         jc: seq<int16>, n: nat, ly: real, lx: real, dist: real): Option<seq<Point>>
    requires |jc| == |items|
  {
    var t := Visit(items, jc, n);
    if t.end.Panicked? then None else Some(mpts + Fly(cs, homep, items, t, ly, lx, dist))
  }

  // ---------- what the points are ----------

  /** Point p is reached from (y, x), dist metres behind: its course is the one to it, and its distance is 1852 metres more
      for each mile. */
  predicate Leg(cs: CourseAndDistance, y: real, x: real, dist: real, p: Point) {
    p.c == cs(y, x, p.y, p.x).0 && p.d == dist + 1852.0 * cs(y, x, p.y, p.x).1
  }

  /** Each point is reached from the one before it, the first from (y, x) with dist metres behind. */
  predicate Legs(cs: CourseAndDistance, ps: seq<Point>, y: real, x: real, dist: real) {
    && (ps != [] ==> Leg(cs, y, x, dist, ps[0]))
    && forall i | 1 <= i < |ps| :: Leg(cs, ps[i - 1].y, ps[i - 1].x, ps[i - 1].d, ps[i])
  }

  /** The points are those of the items visited, in order, and the return home when that is how the flight ends. */
  predicate Stations(homep: Point, items: seq<Item>, t: Trail, ps: seq<Point>)
    requires InRange(items, t.visits)
  {
    && |ps| == |t.visits| + (if t.end == Returned then 1 else 0)
    && (forall i | 0 <= i < |t.visits| :: var mi := items[t.visits[i]];
          && ps[i].y == mi.lat && ps[i].x == mi.lon && ps[i].mz == mi.alt && ps[i].wpno == Int8(mi.no)
          && ps[i].flag as int == mi.p3 as int % 2 && ps[i].mark == Init)
    && (t.end == Returned ==> var p := ps[|ps| - 1];
          p.y == homep.y && p.x == homep.x && p.wpno == -1 && p.mark == Return && p.flag == 0)
  }

  lemma {:induction false} LegsCons(cs: CourseAndDistance, p: Point, rest: seq<Point>, y: real, x: real, dist: real)
    requires Leg(cs, y, x, dist, p) && Legs(cs, rest, p.y, p.x, p.d)
    ensures Legs(cs, [p] + rest, y, x, dist)
  {
    hide Leg;
    var ps := [p] + rest;
    forall i | 1 <= i < |ps| ensures Leg(cs, ps[i - 1].y, ps[i - 1].x, ps[i - 1].d, ps[i]) {
      assert ps[i] == rest[i - 1];
      if i > 1 {
        assert ps[i - 1] == rest[i - 2];
      }
    }
  }

  lemma StationsCons(homep: Point, items: seq<Item>, t: Trail, p: Point, rest: seq<Point>)
    requires InRange(items, t.visits) && t.visits != []
    requires var mi := items[t.visits[0]];
      && p.y == mi.lat && p.x == mi.lon && p.mz == mi.alt && p.wpno == Int8(mi.no)
      && p.flag as int == mi.p3 as int % 2 && p.mark == Init
    requires Stations(homep, items, Trail(t.visits[1..], t.end), rest)
    ensures Stations(homep, items, t, [p] + rest)
  {
    var ps := [p] + rest;
    assert forall i | 1 <= i < |ps| :: ps[i] == rest[i - 1];
  }

  lemma {:induction false} FlyIsFlown(cs: CourseAndDistance, homep: Point, items: seq<Item>, t: Trail, ly: real, lx: real, dist: real)
    requires InRange(items, t.visits)
    ensures var ps := Fly(cs, homep, items, t, ly, lx, dist);
      Legs(cs, ps, ly, lx, dist) && Stations(homep, items, t, ps)
    decreases |t.visits|
  {
    if t.visits != [] {
      var mi := items[t.visits[0]];
      var p := PointAt(cs, ly, lx, dist, mi);
      var rest := Trail(t.visits[1..], t.end);
      var ps := Fly(cs, homep, items, rest, mi.lat, mi.lon, p.d);
      FlyIsFlown(cs, homep, items, rest, mi.lat, mi.lon, p.d);
      LegsCons(cs, p, ps, ly, lx, dist);
      StationsCons(homep, items, t, p, ps);
    }
  }

  /** The path is flown: from home, which is its first point, or from the first item, which is not a point of it, over the
      items that the interpretation visits, each leg with its course and length, and back home if that is how it ends. */
  lemma {:induction false} PathIsFlown(cs: CourseAndDistance, homep: Point, items: seq<Item>, pts: seq<Point>)
    requires Expansion(cs, homep, items) == Some(pts) && (homep.mark == Home || items != [])
    ensures var t := Visit(items, FreshCounters(items), if homep.mark == Home then 0 else 1);
      if homep.mark == Home then
        && pts != [] && pts[0] == homep.(flag := 0)
        && Legs(cs, pts[1..], homep.y, homep.x, 0.0) && Stations(homep, items, t, pts[1..])
      else
        Legs(cs, pts, items[0].lat, items[0].lon, 0.0) && Stations(homep, items, t, pts)
  {
    hide Visit, Fly, Legs, Stations;
    var jc := FreshCounters(items);
    if homep.mark == Home {
      var t := Visit(items, jc, 0);
      FlyIsFlown(cs, homep, items, t, homep.y, homep.x, 0.0);
      assert pts[1..] == Fly(cs, homep, items, t, homep.y, homep.x, 0.0);
    } else {
      FlyIsFlown(cs, homep, items, Visit(items, jc, 1), items[0].lat, items[0].lon, 0.0);
    }
  }

  // ---------- what the expansion guarantees ----------

  /** Distances that start at `from` or beyond and never shrink. */
  predicate Grows(ps: seq<Point>, from: real) {
    && (forall i | 0 <= i < |ps| :: from <= ps[i].d)
    && (forall i, j | 0 <= i <= j < |ps| :: ps[i].d <= ps[j].d)
  }

  lemma GrowsCons(p: Point, rest: seq<Point>, from: real)
    requires from <= p.d && Grows(rest, p.d)
    ensures Grows([p] + rest, from)
  {
    var ps := [p] + rest;
    assert forall i | 1 <= i < |ps| :: ps[i] == rest[i - 1];
  }

  /** Along the expanded path the distance flown never shrinks, provided no single distance is negative. */
  lemma {:induction false} DistancesGrow(cs: CourseAndDistance, homep: Point, items: seq<Item>, t: Trail,
                                         ly: real, lx: real, dist: real)
    requires InRange(items, t.visits)
    requires forall a, b, c, d :: cs(a, b, c, d).1 >= 0.0
    ensures Grows(Fly(cs, homep, items, t, ly, lx, dist), dist)
    decreases |t.visits|
  {
    if t.visits == [] {
      assert cs(ly, lx, homep.y, homep.x).1 >= 0.0;
    } else {
      var mi := items[t.visits[0]];
      var p := PointAt(cs, ly, lx, dist, mi);
      var rest := Trail(t.visits[1..], t.end);
      assert cs(ly, lx, mi.lat, mi.lon).1 >= 0.0;
      DistancesGrow(cs, homep, items, rest, mi.lat, mi.lon, p.d);
      GrowsCons(p, Fly(cs, homep, items, rest, mi.lat, mi.lon, p.d), dist);
    }
  }

  /** A JUMP that is taken on first meeting it and leads in front of the first item. */
  predicate BadJump(mi: Item) {
    mi.action.Jump? && mi.p1 < 1 && mi.p2 !in {0, -1}
  }

  predicate Stops(mi: Item) {
    mi.action.Rth? || BadJump(mi)
  }

  function FirstStop(items: seq<Item>, from: nat): (k: nat)
    requires from <= |items|
    ensures from <= k <= |items|
    ensures k < |items| ==> Stops(items[k])
    ensures forall i | from <= i < k :: !Stops(items[i])
    decreases |items| - from
  {
    if from == |items| || Stops(items[from]) then from else FirstStop(items, from + 1)
  }

  /** No JUMP in front of `stop` leads forward; a JUMP on itself is allowed. */
  predicate NoForwardJumps(items: seq<Item>, stop: nat)
    requires stop <= |items|
  {
    forall k | 0 <= k < stop && items[k].action.Jump? && items[k].p2 !in {0, -1} :: items[k].p1 - 1 <= k
  }

  /** Counters that the interpretation can have while it has not passed `stop`. */
  predicate Sane(items: seq<Item>, jc: seq<int16>, stop: nat)
    requires |jc| == |items|
  {
    forall k | 0 <= k < |items| && items[k].action.Jump? :: k >= stop || items[k].p2 in {0, -1} ==> jc[k] == items[k].p2
  }

  /** Without forward jumps the first stopping item decides how the run ends: it panics if and only if a
      bad JUMP comes before every RTH. */
  lemma {:induction false} EndIsFirstStop(items: seq<Item>, jc: seq<int16>, n: nat, stop: nat)
    requires |jc| == |items| && n <= stop == FirstStop(items, 0)
    requires NoForwardJumps(items, stop) && Sane(items, jc, stop)
    ensures Visit(items, jc, n).end ==
      if stop == |items| then Finished else if items[stop].action.Rth? then Returned else Panicked
    decreases Rank(items, jc, n, 0), |items| - n
  {
    if n < stop {
      if items[n].action.Jump? {
        Jumping(items, jc, n);
        if jc[n] == -1 {
          EndIsFirstStop(items, jc, n + 1, stop);
        } else if jc[n] == 0 {
          EndIsFirstStop(items, jc[n := items[n].p2], n + 1, stop);
        } else {
          EndIsFirstStop(items, jc[n := Decremented(jc[n])], items[n].p1 - 1, stop);
        }
      } else {
        RankKept(items, jc, n, 0);
        EndIsFirstStop(items, jc, n + 1, stop);
      }
    }
  }

  /** With home set, or with a first item that is taken as the start and stops nothing when a jump leads back to it: the
      expansion fails exactly when a bad JUMP precedes the first RTH. */
  lemma {:induction false} PanicExactly(cs: CourseAndDistance, homep: Point, items: seq<Item>)
    requires NoForwardJumps(items, FirstStop(items, 0))
    requires homep.mark.Home? || items == [] || !Stops(items[0])
    ensures var stop := FirstStop(items, 0);
      Expansion(cs, homep, items).None? <==> stop < |items| && BadJump(items[stop])
  {
    if items != [] {
      EndIsFirstStop(items, FreshCounters(items), if homep.mark.Home? then 0 else 1, FirstStop(items, 0));
    }
  }

  // ---------- starting from an item that stops ----------

  /** A JUMP that is taken on first meeting it and leads to the first item. */
  predicate ToStart(mi: Item) {
    mi.action.Jump? && mi.p1 == 1 && mi.p2 !in {0, -1}
  }

  /** The first item after the start that stops the run or leads back to the start. */
  function FirstHalt(items: seq<Item>, from: nat): (k: nat)
    requires from <= |items|
    ensures from <= k <= |items|
    ensures k < |items| ==> Stops(items[k]) || ToStart(items[k])
    ensures forall i | from <= i < k :: !Stops(items[i]) && !ToStart(items[i])
    decreases |items| - from
  {
    if from == |items| || Stops(items[from]) || ToStart(items[from]) then from else FirstHalt(items, from + 1)
  }

  /** When the start itself is an RTH or a bad JUMP, a jump back to it ends the run as it says. */
  lemma {:induction false} EndIsFirstHalt(items: seq<Item>, jc: seq<int16>, n: nat, halt: nat)
    requires |jc| == |items| > 0 && 1 <= n <= halt == FirstHalt(items, 1) && Stops(items[0])
    requires NoForwardJumps(items, halt) && Sane(items, jc, halt) && (items[0].action.Jump? ==> jc[0] == items[0].p2)
    ensures Visit(items, jc, n).end ==
      if halt == |items| then Finished
      else
        var mi := if ToStart(items[halt]) then items[0] else items[halt];
        if mi.action.Rth? then Returned else Panicked
    decreases Rank(items, jc, n, 0), |items| - n
  {
    if n < halt {
      if items[n].action.Jump? {
        Jumping(items, jc, n);
        if jc[n] == -1 {
          EndIsFirstHalt(items, jc, n + 1, halt);
        } else if jc[n] == 0 {
          EndIsFirstHalt(items, jc[n := items[n].p2], n + 1, halt);
        } else {
          EndIsFirstHalt(items, jc[n := Decremented(jc[n])], items[n].p1 - 1, halt);
        }
      } else {
        RankKept(items, jc, n, 0);
        EndIsFirstHalt(items, jc, n + 1, halt);
      }
    } else if halt < |items| && ToStart(items[halt]) {
      Jumping(items, jc, halt);
    }
  }

  /** Without home and with such a start, the expansion fails exactly when the first item to stop the run is a bad JUMP,
      the start being one if a jump leads back to it. */
  lemma PanicExactlyFromStop(cs: CourseAndDistance, homep: Point, items: seq<Item>)
    requires !homep.mark.Home? && items != [] && Stops(items[0]) && NoForwardJumps(items, FirstHalt(items, 1))
    ensures var halt := FirstHalt(items, 1);
      Expansion(cs, homep, items).None? <==> (halt < |items| && BadJump(if ToStart(items[halt]) then items[0] else items[halt]))
  {
    EndIsFirstHalt(items, FreshCounters(items), 1, FirstHalt(items, 1));
  }

  // ---------- any jumps ----------

  /** Without a bad JUMP no run from sane counters panics, wherever the jumps lead and however they overlap. */
  lemma {:induction false} NoBadJumpNeverPanics(items: seq<Item>, jc: seq<int16>, n: nat)
    requires |jc| == |items| && Sane(items, jc, |items|)
    requires forall k | 0 <= k < |items| :: !BadJump(items[k])
    ensures !Visit(items, jc, n).end.Panicked?
    decreases Rank(items, jc, n, 0), if n <= |items| then |items| - n else 0
  {
    if n < |items| && !items[n].action.Rth? {
      if items[n].action.Jump? {
        Jumping(items, jc, n);
        if jc[n] == -1 {
          NoBadJumpNeverPanics(items, jc, n + 1);
        } else if jc[n] == 0 {
          NoBadJumpNeverPanics(items, jc[n := items[n].p2], n + 1);
        } else {
          NoBadJumpNeverPanics(items, jc[n := Decremented(jc[n])], items[n].p1 - 1);
        }
      } else {
        RankKept(items, jc, n, 0);
        NoBadJumpNeverPanics(items, jc, n + 1);
      }
    }
  }

  /** A mission without a bad JUMP always expands, from home or from its first item, with jumps of any kind. */
  lemma NoBadJumpExpands(cs: CourseAndDistance, homep: Point, items: seq<Item>)
    requires forall k | 0 <= k < |items| :: !BadJump(items[k])
    ensures Expansion(cs, homep, items).Some?
  {
    NoBadJumpNeverPanics(items, FreshCounters(items), 0);
    NoBadJumpNeverPanics(items, FreshCounters(items), 1);
  }
}

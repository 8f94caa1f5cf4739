/** JUMP items as counted loops: the flat interpretation of a properly nested mission is its unrolling. */
module MissionLoops {
  import opened Ints
  import opened Mission
  import opened MissionPath
  import opened Options

  /** A mission written with nested loops; `jump` supplies the repeat count and the rest of the JUMP item. */
  datatype Program =
    | Done
    | Step(item: Item, rest: Program)
    | Loop(body: Program, jump: Item, rest: Program)

  predicate Structured(p: Program) {
    match p
    case Done => true
    case Step(item, rest) => !item.action.Jump? && Structured(rest)
    case Loop(body, _, rest) => Structured(body) && Structured(rest)
  }

  function Size(p: Program): nat {
    match p
    case Done => 0
    case Step(_, rest) => 1 + Size(rest)
    case Loop(body, _, rest) => Size(body) + 1 + Size(rest)
  }

  /** The mission items: each loop body is followed by a JUMP back to its first item (numbered from 1). */
  function Flatten(p: Program, base: nat): (items: seq<Item>)
    requires base + Size(p) <= 0x7fff
    ensures |items| == Size(p)
  {
    match p
    case Done => []
    case Step(item, rest) => [item] + Flatten(rest, base + 1)
    case Loop(body, jump, rest) =>
      Flatten(body, base) + [jump.(action := Jump, p1 := base + 1)] + Flatten(rest, base + Size(body) + 1)
  }

  /** How often a loop body is flown; the count -1 does not loop at all. */
  function Times(p2: int16): (k: nat)
    ensures p2 >= 0 ==> k == p2 + 1
    ensures k >= 1
  {
    if p2 == -1 then 1 else Remaining(p2) + 1
  }

  /** First a, then b unless a already ended the flight. */
  function Then(a: Trail, b: Trail): Trail {
    if a.end.Finished? then Trail(a.visits + b.visits, b.end) else a
  }

  function Repeat(t: Trail, k: nat): Trail {
    if k == 0 then Trail([], Finished) else Then(t, Repeat(t, k - 1))
  }

  /** The trail of the single item at index k. */
  function StepTrail(item: Item, k: nat): Trail {
    if item.action.Rth? then Trail([], Returned)
    else Trail(if IsFlown(item.action) then [k] else [], Finished)
  }

  /** The structured meaning, without counters or positions. */
  function Unroll(p: Program, base: nat): Trail {
    match p
    case Done => Trail([], Finished)
    case Step(item, rest) => Then(StepTrail(item, base), Unroll(rest, base + 1))
    case Loop(body, jump, rest) =>
      Then(Repeat(Unroll(body, base), Times(jump.p2)), Unroll(rest, base + Size(body) + 1))
  }

  lemma ThenAssociates(a: Trail, b: Trail, c: Trail)
    ensures Then(Then(a, b), c) == Then(a, Then(b, c))
  {
    assert a.visits + b.visits + c.visits == a.visits + (b.visits + c.visits);
  }

  /** Program p stands at items[base..], with the counters of its loops at their initial values. */
  predicate Placed(p: Program, items: seq<Item>, jc: seq<int16>, base: nat)
    requires |jc| == |items|
    decreases p, 0
  {
    match p
    case Done => true
    case Step(item, rest) =>
      base < |items| && items[base] == item && !item.action.Jump? && Placed(rest, items, jc, base + 1)
    case Loop(body, jump, rest) =>
      var k := base + Size(body);
      LoopAt(body, jump.p2, items, jc, base, k) && Placed(rest, items, jc, k + 1)
  }

  /** A JUMP at k, with its counter reset, that leads back to the start of the loop body placed in front of it. */
  predicate LoopAt(body: Program, p2: int16, items: seq<Item>, jc: seq<int16>, base: nat, k: nat)
    requires |jc| == |items|
    decreases body, 1
  {
    && Placed(body, items, jc, base)
    && k == base + Size(body) < |items|
    && items[k].action.Jump? && items[k].p1 == base + 1 && items[k].p2 == p2 == jc[k]
  }

  /** The items `flat` stand at items[base..]. */
  predicate StandsAt(flat: seq<Item>, items: seq<Item>, base: nat) {
    if flat == [] then base <= |items|
    else base < |items| && items[base] == flat[0] && StandsAt(flat[1..], items, base + 1)
  }

  lemma {:induction false} StandsAsSlice(items: seq<Item>, base: nat)
    requires base <= |items|
    ensures StandsAt(items[base..], items, base)
    decreases |items| - base
  {
    if base < |items| {
      assert items[base..][1..] == items[base + 1..];
      StandsAsSlice(items, base + 1);
    }
  }

  lemma {:induction false} StandsApart(items: seq<Item>, base: nat, a: seq<Item>, b: seq<Item>)
    requires StandsAt(a + b, items, base)
    ensures StandsAt(a, items, base) && StandsAt(b, items, base + |a|)
    decreases |a|
  {
    if a == [] {
      assert a + b == b;
      StandsInside(b, items, base);
    } else {
      assert (a + b)[1..] == a[1..] + b;
      StandsApart(items, base + 1, a[1..], b);
    }
  }

  lemma {:induction false} StandsInside(flat: seq<Item>, items: seq<Item>, base: nat)
    requires StandsAt(flat, items, base)
    ensures base + |flat| <= |items|
    decreases |flat|
  {
    if flat != [] {
      StandsInside(flat[1..], items, base + 1);
    }
  }

  /** A flattened program is placed wherever its items stand. */
  lemma {:induction false} FlattenPlaces(p: Program, items: seq<Item>, jc: seq<int16>, base: nat)
    requires |jc| == |items| && Structured(p) && base + Size(p) <= 0x7fff
    requires StandsAt(Flatten(p, base), items, base)
    requires forall k | 0 <= k < |items| && items[k].action.Jump? :: jc[k] == items[k].p2
    ensures Placed(p, items, jc, base)
  {
    hide Visit, Repeat;
    match p {
      case Done =>
      case Step(item, rest) =>
        assert Flatten(p, base)[1..] == Flatten(rest, base + 1);
        FlattenPlaces(rest, items, jc, base + 1);
      case Loop(body, jump, rest) =>
        var j := jump.(action := Jump, p1 := base + 1);
        LoopStands(items, base, Flatten(body, base), j, Flatten(rest, base + Size(body) + 1));
        FlattenPlaces(body, items, jc, base);
        FlattenPlaces(rest, items, jc, base + Size(body) + 1);
    }
  }

  lemma LoopStands(items: seq<Item>, base: nat, a: seq<Item>, x: Item, b: seq<Item>)
    requires StandsAt(a + [x] + b, items, base)
    ensures StandsAt(a, items, base) && StandsAt(b, items, base + |a| + 1)
    ensures base + |a| < |items| && items[base + |a|] == x
  {
    assert a + [x] + b == a + ([x] + b);
    StandsApart(items, base, a, [x] + b);
    assert ([x] + b)[1..] == b;
  }

  /** Counters that agree on the items of p serve it equally. */
  lemma {:induction false} PlacedElsewhere(p: Program, items: seq<Item>, jc: seq<int16>, jc': seq<int16>, base: nat)
    requires |jc| == |jc'| == |items| && Placed(p, items, jc, base)
    requires forall i | base <= i < base + Size(p) && i < |items| :: jc'[i] == jc[i]
    ensures Placed(p, items, jc', base)
  {
    match p {
      case Done =>
      case Step(_, rest) =>
        PlacedElsewhere(rest, items, jc, jc', base + 1);
      case Loop(body, _, rest) =>
        PlacedElsewhere(body, items, jc, jc', base);
        PlacedElsewhere(rest, items, jc, jc', base + Size(body) + 1);
    }
  }

  /** The flat interpretation of a placed program is its unrolling, followed by whatever comes after it with
      every counter back at the value it had. */
  lemma {:induction false} FlatMeansUnrolled(p: Program, items: seq<Item>, jc: seq<int16>, base: nat)
    requires |jc| == |items| && Placed(p, items, jc, base)
    ensures Visit(items, jc, base) == Then(Unroll(p, base), Visit(items, jc, base + Size(p)))
    decreases p, 1
  {
    hide Visit, Repeat, Flatten;
    match p {
      case Done =>
        var after := Visit(items, jc, base);
        assert [] + after.visits == after.visits;
      case Step(item, rest) =>
        StepMeans(item, items, jc, base);
        FlatMeansUnrolled(rest, items, jc, base + 1);
        ThenAssociates(StepTrail(item, base), Unroll(rest, base + 1), Visit(items, jc, base + Size(p)));
      case Loop(body, jump, rest) =>
        var k := base + Size(body);
        LoopMeans(body, jump.p2, items, jc, base, k);
        FlatMeansUnrolled(rest, items, jc, k + 1);
        ThenAssociates(Repeat(Unroll(body, base), Times(jump.p2)), Unroll(rest, k + 1), Visit(items, jc, base + Size(p)));
    }
  }

  lemma StepMeans(item: Item, items: seq<Item>, jc: seq<int16>, base: nat)
    requires |jc| == |items| && base < |items| && items[base] == item && !item.action.Jump?
    ensures Visit(items, jc, base) == Then(StepTrail(item, base), Visit(items, jc, base + 1))
  {
    if !item.action.Rth? {
      var next := Visit(items, jc, base + 1);
      assert [] + next.visits == next.visits;
    }
  }

  lemma RepeatOnce(t: Trail)
    ensures Repeat(t, 1) == t
  {
    assert Repeat(t, 0) == Trail([], Finished);
    assert t.visits + [] == t.visits;
  }

  /** A loop met with its counter reset flies its body the stated number of times and leaves the counter reset. */
  lemma LoopMeans(body: Program, p2: int16, items: seq<Item>, jc: seq<int16>, base: nat, k: nat)
    requires |jc| == |items| && LoopAt(body, p2, items, jc, base, k)
    ensures Visit(items, jc, base) == Then(Repeat(Unroll(body, base), Times(p2)), Visit(items, jc, k + 1))
    decreases body, 4
  {
    if p2 == -1 {
      FlatMeansUnrolled(body, items, jc, base);
      RepeatOnce(Unroll(body, base));
    } else {
      assert jc[k := p2] == jc;
      LoopRuns(body, p2, items, jc, base, k, p2);
    }
  }

  /** One pass of the loop body with counter value c leads to the next pass, or past the loop with the counter reset. */
  lemma OnePass(body: Program, p2: int16, items: seq<Item>, jc: seq<int16>, base: nat, k: nat, c: int16)
    requires |jc| == |items| && LoopAt(body, p2, items, jc, base, k) && c != -1
    ensures Visit(items, jc[k := c], base)
         == Then(Unroll(body, base), if c == 0 then Visit(items, jc, k + 1) else Visit(items, jc[k := Decremented(c)], base))
    decreases body, 2
  {
    PlacedElsewhere(body, items, jc, jc[k := c], base);
    FlatMeansUnrolled(body, items, jc[k := c], base);
    AfterPass(items, jc, k, c);
  }

  lemma AfterPass(items: seq<Item>, jc: seq<int16>, k: nat, c: int16)
    requires |jc| == |items| && k < |items| && items[k].action.Jump? && items[k].p1 >= 1 && items[k].p2 == jc[k] && c != -1
    ensures Visit(items, jc[k := c], k)
         == if c == 0 then Visit(items, jc, k + 1) else Visit(items, jc[k := Decremented(c)], items[k].p1 - 1)
  {
    assert jc[k := c][k := Decremented(c)] == jc[k := Decremented(c)];
    assert jc[k := c][k := items[k].p2] == jc;
  }

  /** With counter value c a loop flies its body Remaining(c) + 1 more times and leaves its counter reset. */
  lemma {:induction false} LoopRuns(body: Program, p2: int16, items: seq<Item>, jc: seq<int16>, base: nat, k: nat, c: int16)
    requires |jc| == |items| && LoopAt(body, p2, items, jc, base, k)
    requires c != -1 && (c >= 0 || c <= p2 < -1)
    ensures Visit(items, jc[k := c], base)
         == Then(Repeat(Unroll(body, base), Remaining(c) + 1), Visit(items, jc, k + 1))
    decreases body, 3, Remaining(c)
  {
    hide Visit, Unroll;
    var once := Unroll(body, base);
    OnePass(body, p2, items, jc, base, k, c);
    if c == 0 {
      RepeatOnce(once);
    } else {
      LoopRuns(body, p2, items, jc, base, k, Decremented(c));
      ThenAssociates(once, Repeat(once, Remaining(c)), Visit(items, jc, k + 1));
    }
  }

  /** A whole mission with home set: the interpreter visits exactly the unrolled items and ends likewise. */
  lemma NestedMissionUnrolls(p: Program)
    requires Structured(p) && Size(p) <= 0x7fff
    ensures Visit(Flatten(p, 0), FreshCounters(Flatten(p, 0)), 0) == Unroll(p, 0)
  {
    var items := Flatten(p, 0);
    assert items[0..] == items;
    StandsAsSlice(items, 0);
    FlattenPlaces(p, items, FreshCounters(items), 0);
    FlatMeansUnrolled(p, items, FreshCounters(items), 0);
    var t := Unroll(p, 0);
    assert t.visits + [] == t.visits;
  }

  lemma {:induction false} RepeatNeverPanics(t: Trail, k: nat)
    requires !t.end.Panicked?
    ensures !Repeat(t, k).end.Panicked?
  {
    if k > 0 {
      RepeatNeverPanics(t, k - 1);
    }
  }

  lemma {:induction false} UnrollNeverPanics(p: Program, base: nat)
    ensures !Unroll(p, base).end.Panicked?
  {
    match p
    case Done =>
    case Step(item, rest) => UnrollNeverPanics(rest, base + 1);
    case Loop(body, jump, rest) =>
      UnrollNeverPanics(body, base);
      UnrollNeverPanics(rest, base + Size(body) + 1);
      RepeatNeverPanics(Unroll(body, base), Times(jump.p2));
  }

  /** The points of such a mission are home and then those of its unrolling, flown in turn. */
  lemma NestedMissionPoints(cs: CourseAndDistance, homep: Point, p: Program)
    requires Structured(p) && Size(p) <= 0x7fff && homep.mark.Home?
    ensures var items := Flatten(p, 0); InRange(items, Unroll(p, 0).visits)
    ensures var items := Flatten(p, 0);
      Expansion(cs, homep, items) == Some([homep.(flag := 0)] + Fly(cs, homep, items, Unroll(p, 0), homep.y, homep.x, 0.0))
  {
    NestedMissionUnrolls(p);
    UnrollNeverPanics(p, 0);
  }

  // ---------- how often each item is flown ----------

  function Occurrences(visits: seq<nat>, i: nat): nat {
    if visits == [] then 0 else (if visits[0] == i then 1 else 0) + Occurrences(visits[1..], i)
  }

  /** The product of the pass counts of the loops around item i, zero for an item that is not flown. */
  function Multiplicity(p: Program, base: nat, i: nat): nat {
    match p
    case Done => 0
    case Step(item, rest) => (if i == base && IsFlown(item.action) then 1 else 0) + Multiplicity(rest, base + 1, i)
    case Loop(body, jump, rest) =>
      Times(jump.p2) * Multiplicity(body, base, i) + Multiplicity(rest, base + Size(body) + 1, i)
  }

  predicate NoReturn(p: Program) {
    match p
    case Done => true
    case Step(item, rest) => !item.action.Rth? && NoReturn(rest)
    case Loop(body, _, rest) => NoReturn(body) && NoReturn(rest)
  }

  lemma {:induction false} OccurrencesAdd(a: seq<nat>, b: seq<nat>, i: nat)
    ensures Occurrences(a + b, i) == Occurrences(a, i) + Occurrences(b, i)
  {
    if a == [] {
      assert a + b == b;
    } else {
      assert (a + b)[1..] == a[1..] + b;
      OccurrencesAdd(a[1..], b, i);
    }
  }

  lemma {:induction false} RepeatMultiplies(t: Trail, k: nat, i: nat)
    requires t.end.Finished?
    ensures Repeat(t, k).end.Finished? && Occurrences(Repeat(t, k).visits, i) == k * Occurrences(t.visits, i)
  {
    if k > 0 {
      RepeatMultiplies(t, k - 1, i);
      OccurrencesAdd(t.visits, Repeat(t, k - 1).visits, i);
    }
  }

  lemma LoopCounts(once: Trail, k: nat, after: Trail, i: nat)
    requires once.end.Finished? && after.end.Finished?
    ensures var t := Then(Repeat(once, k), after);
      t.end.Finished? && Occurrences(t.visits, i) == k * Occurrences(once.visits, i) + Occurrences(after.visits, i)
  {
    RepeatMultiplies(once, k, i);
    OccurrencesAdd(Repeat(once, k).visits, after.visits, i);
  }

  lemma StepCounts(item: Item, k: nat, after: Trail, i: nat)
    requires !item.action.Rth? && after.end.Finished?
    ensures var t := Then(StepTrail(item, k), after);
      && t.end.Finished?
      && Occurrences(t.visits, i) == (if i == k && IsFlown(item.action) then 1 else 0) + Occurrences(after.visits, i)
  {
    var one := StepTrail(item, k).visits;
    assert |one| == 1 ==> one[1..] == [];
    OccurrencesAdd(one, after.visits, i);
  }

  lemma NoVisits(i: nat)
    ensures Occurrences([], i) == 0
  {
  }

  /** Nested loops multiply: an item is flown as often as the product of its loops' pass counts. */
  lemma {:induction false} LoopsMultiply(p: Program, base: nat, i: nat)
    requires NoReturn(p)
    ensures Unroll(p, base).end.Finished?
    ensures Occurrences(Unroll(p, base).visits, i) == Multiplicity(p, base, i)
  {
    hide Repeat, Occurrences;
    match p {
      case Done =>
        NoVisits(i);
      case Step(item, rest) =>
        LoopsMultiply(rest, base + 1, i);
        StepCounts(item, base, Unroll(rest, base + 1), i);
      case Loop(body, jump, rest) =>
        LoopsMultiply(body, base, i);
        LoopsMultiply(rest, base + Size(body) + 1, i);
        LoopCounts(Unroll(body, base), Times(jump.p2), Unroll(rest, base + Size(body) + 1), i);
    }
  }
}

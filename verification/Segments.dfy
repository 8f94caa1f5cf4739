/** Splitting the items of a mission file into its missions. */
module Segments {
  import opened Mission
  import opened MissionSave
  import opened Options

  const LAST: int := 0xa5

  /** The missions of a non-empty list of items, the first item being numbered n: each ends at a LAST flag or at
      the end of the list. */
  function Split(items: seq<Item>, n: nat): (segs: seq<seq<Item>>)
    requires items != []
    ensures |segs| > 0
  {
    var it := items[0].(no := n);
    if |items| == 1 then [[it.(flag := LAST)]]
    else if it.flag == LAST then [[it]] + Split(items[1..], 1)
    else Extend([it], Split(items[1..], n + 1))
  }

  /** Prepends items to the first mission. */
  function Extend(cur: seq<Item>, segs: seq<seq<Item>>): (r: seq<seq<Item>>)
    requires |segs| > 0
    ensures |r| == |segs|
  {
    [cur + segs[0]] + segs[1..]
  }

  function EndMarked(s: seq<Item>): seq<Item>
    requires s != []
  {
    s[|s| - 1 := s[|s| - 1].(flag := LAST)]
  }

  /** How one item moves the splitting on, with cur the items already gathered for the current mission. */
  lemma SplitStep(cur: seq<Item>, items: seq<Item>, n: nat)
    requires items != []
    ensures var it := items[0].(no := n);
      Extend(cur, Split(items, n)) ==
        if |items| == 1 then [EndMarked(cur + [it])]
        else if it.flag == LAST then [cur + [it]] + Extend([], Split(items[1..], 1))
        else Extend(cur + [it], Split(items[1..], n + 1))
  {
    var it := items[0].(no := n);
    if |items| == 1 {
      assert EndMarked(cur + [it]) == cur + [it.(flag := LAST)];
    } else if it.flag == LAST {
      var r := Split(items[1..], 1);
      assert [] + r[0] == r[0] && [r[0]] + r[1..] == r;
    } else {
      var r := Split(items[1..], n + 1);
      assert cur + ([it] + r[0]) == cur + [it] + r[0];
    }
  }

  /** The missions that result when `done` are complete, cur is under way and items remain. */
  function Finish(done: seq<seq<Item>>, cur: seq<Item>, items: seq<Item>, n: nat): seq<seq<Item>>
    requires cur != [] || items != []
  {
    if items == [] then done + [EndMarked(cur)] else done + Extend(cur, Split(items, n))
  }

  lemma FinishStep(done: seq<seq<Item>>, cur: seq<Item>, items: seq<Item>, n: nat)
    requires items != []
    ensures var it := items[0].(no := n);
      Finish(done, cur, items, n) ==
        if it.flag == LAST && |items| > 1 then Finish(done + [cur + [it]], [], items[1..], 1)
        else Finish(done, cur + [it], items[1..], n + 1)
  {
    SplitStep(cur, items, n);
    var it := items[0].(no := n);
    if it.flag == LAST && |items| > 1 {
      var rest := Extend([], Split(items[1..], 1));
      assert done + ([cur + [it]] + rest) == done + [cur + [it]] + rest;
    }
  }

  /** The items with the numbers they get, the first being n. */
  function Renumbered(items: seq<Item>, n: nat): (r: seq<Item>)
    ensures |r| == |items|
  {
    if items == [] then []
    else [items[0].(no := n)] + Renumbered(items[1..], if items[0].flag == LAST then 1 else n + 1)
  }

  /** Numbers the items in place and gathers copies of them into missions; an empty list gives one empty mission. */
  method NewMultiMission(mis: array<Item>) returns (segments: seq<seq<Item>>)
    modifies mis
    ensures segments == if old(mis[..]) == [] then [[]] else Split(old(mis[..]), 1)
    ensures mis[..] == Renumbered(old(mis[..]), 1)
  {
    hide Split, Finish, Renumbered;
    segments := [[]];
    var segno: nat := 0;
    var no: nat := 1;
    ghost var was, done: seq<seq<Item>>, cur: seq<Item> := mis[..], [], [];
    Beginning(was);
    for j := 0 to mis.Length
      invariant segments == done + [cur] && segno == |done| && no == |cur| + 1
      invariant j == |was| > 0 ==> cur != []
      invariant j == 0 ==> done == [] && cur == []
      invariant was != [] ==> Finish(done, cur, was[j..], no) == Split(was, 1)
      invariant mis[j..] == was[j..] && mis[..j] + Renumbered(was[j..], no) == Renumbered(was, 1)
    {
      TailOf(was, j);
      FinishStep(done, cur, was[j..], no);
      RenumberStep(mis[..j], was[j..], no);
      assert mis[j] == was[j] by { assert mis[j..][0] == was[j..][0]; }
      ghost var rest, front := mis[j + 1..], mis[..j];
      mis[j] := mis[j].(no := no);
      assert mis[..j + 1] == front + [mis[j]];
      assert mis[j + 1..] == rest == was[j + 1..];
      no := no + 1;
      PutLast(done, cur, cur + [mis[j]]);
      segments := segments[segno := segments[segno] + [mis[j]]];
      cur := cur + [mis[j]];
      if mis[j].flag == LAST && j != mis.Length - 1 {
        segments := segments + [[]];
        segno := segno + 1;
        no := 1;
        done, cur := done + [cur], [];
      }
    }
    Ending(was, done, cur, no, mis[..]);
    if no > 1 {
      PutLast(done, cur, EndMarked(cur));
      var s := segments[segno];
      segments := segments[segno := s[no - 2 := s[no - 2].(flag := LAST)]];
    }
  }

  lemma Beginning(items: seq<Item>)
    ensures items != [] ==> Finish([], [], items, 1) == Split(items, 1)
    ensures items[0..] == items && items[..0] + Renumbered(items, 1) == Renumbered(items, 1)
  {
    if items != [] {
      StartSplit(items);
    }
  }

  lemma Ending(items: seq<Item>, done: seq<seq<Item>>, cur: seq<Item>, no: nat, now: seq<Item>)
    requires |now| == |items| && (items != [] ==> cur != [] && Finish(done, cur, items[|items|..], no) == Split(items, 1))
    requires now[..|items|] + Renumbered(items[|items|..], no) == Renumbered(items, 1)
    ensures items != [] ==> done + [EndMarked(cur)] == Split(items, 1)
    ensures now == Renumbered(items, 1)
  {
    assert now[..|items|] + [] == now;
  }

  lemma RenumberStep(front: seq<Item>, items: seq<Item>, n: nat)
    requires items != []
    ensures front + Renumbered(items, n)
         == front + [items[0].(no := n)] + Renumbered(items[1..], if items[0].flag == LAST then 1 else n + 1)
    ensures |items| == 1 ==> Renumbered(items[1..], 1) == Renumbered(items[1..], n + 1)
  {
  }

  lemma TailOf(items: seq<Item>, j: nat)
    requires j < |items|
    ensures items[j..] != [] && items[j..][0] == items[j] && items[j..][1..] == items[j + 1..] && |items[j..]| == |items| - j
  {
  }

  lemma PutLast(done: seq<seq<Item>>, cur: seq<Item>, cur': seq<Item>)
    ensures (done + [cur])[|done|] == cur && (done + [cur])[|done| := cur'] == done + [cur']
  {
  }

  lemma StartSplit(items: seq<Item>)
    requires items != []
    ensures Finish([], [], items, 1) == Split(items, 1)
  {
    var r := Split(items, 1);
    assert [] + r[0] == r[0] && [r[0]] + r[1..] == r;
    assert [] + Extend([], r) == r;
  }

  /** The mission chosen by a number from 1; a number past the end means the last, one below 1 makes Go panic. */
  function ToMission(segs: seq<seq<Item>>, mi: int): (m: Option<seq<Item>>)
    requires |segs| > 0
  {
    var k := if mi > |segs| then |segs| else mi;
    if k < 1 then None else Some(segs[k - 1])
  }

  // ---------- what the splitting guarantees ----------

  function Concat(segs: seq<seq<Item>>): seq<Item> {
    if segs == [] then [] else segs[0] + Concat(segs[1..])
  }

  /** A mission as it should be: numbered from n, not empty, and with LAST on its last item and nowhere else. */
  predicate WellFormed(s: seq<Item>, n: nat) {
    && s != []
    && (forall i | 0 <= i < |s| :: s[i].no == n + i)
    && (forall i | 0 <= i < |s| :: s[i].flag == LAST <==> i == |s| - 1)
  }

  /** Nothing is lost, added or moved: only numbers and the flag of the very last item change. */
  predicate SameItems(items: seq<Item>, all: seq<Item>) {
    && |all| == |items|
    && forall i | 0 <= i < |items| ::
         all[i] == items[i].(no := all[i].no, flag := if i == |items| - 1 then LAST else items[i].flag)
  }

  /** The missions together are the items as they stand in the caller's list, but for the flag of the last. */
  lemma {:induction false} SplitIsRenumbered(items: seq<Item>, n: nat)
    requires items != []
    ensures Concat(Split(items, n)) == EndMarked(Renumbered(items, n))
  {
    var it := items[0].(no := n);
    var segs := Split(items, n);
    if |items| == 1 {
      assert Concat(segs) == segs[0] + Concat([]);
    } else if it.flag == LAST {
      SplitIsRenumbered(items[1..], 1);
      assert segs[1..] == Split(items[1..], 1);
      assert Concat(segs) == [it] + Concat(segs[1..]);
    } else {
      SplitIsRenumbered(items[1..], n + 1);
      var r := Split(items[1..], n + 1);
      assert segs[1..] == r[1..];
      assert Concat(segs) == [it] + Concat(r);
    }
  }

  lemma {:induction false} SplitPartitions(items: seq<Item>, n: nat)
    requires items != []
    ensures SameItems(items, Concat(Split(items, n)))
    ensures forall k | 0 <= k < |Split(items, n)| :: WellFormed(Split(items, n)[k], if k == 0 then n else 1)
  {
    var it := items[0].(no := n);
    var segs := Split(items, n);
    if |items| == 1 {
      assert Concat(segs) == segs[0] + Concat([]);
    } else if it.flag == LAST {
      SplitPartitions(items[1..], 1);
      assert segs[1..] == Split(items[1..], 1);
      assert Concat(segs) == [it] + Concat(segs[1..]);
    } else {
      SplitPartitions(items[1..], n + 1);
      var r := Split(items[1..], n + 1);
      assert segs[1..] == r[1..];
      assert Concat(segs) == [it] + Concat(r);
      assert WellFormed(r[0], n + 1);
      assert WellFormed([it] + r[0], n);
      assert forall k | 1 <= k < |segs| :: segs[k] == r[k];
    }
  }

  /** A list of well-formed missions is what splitting its concatenation gives: the split is the only one. */
  lemma {:induction false} SplitIsUnique(segs: seq<seq<Item>>, n: nat)
    requires segs != [] && forall k | 0 <= k < |segs| :: WellFormed(segs[k], if k == 0 then n else 1)
    ensures Concat(segs) != [] && Split(Concat(segs), n) == segs
    decreases |Concat(segs)|
  {
    var s, all := segs[0], Concat(segs);
    assert WellFormed(s, n);
    assert all[0] == s[0] && all[0].(no := n) == s[0];
    if |s| == 1 {
      assert all[1..] == Concat(segs[1..]);
      if |segs| > 1 {
        assert forall k | 0 <= k < |segs| - 1 :: segs[1..][k] == segs[k + 1];
        SplitIsUnique(segs[1..], 1);
        assert s == [s[0]] && s[0].flag == LAST && |all| > 1;
        assert [s] + segs[1..] == segs;
      } else {
        assert Concat(segs[1..]) == [];
        assert all == s && s[0].(flag := LAST) == s[0];
        assert segs == [s] && s == [s[0]];
      }
    } else {
      var rest := [s[1..]] + segs[1..];
      assert rest[1..] == segs[1..];
      assert all[1..] == s[1..] + Concat(segs[1..]) == Concat(rest);
      assert WellFormed(s[1..], n + 1);
      assert forall k | 1 <= k < |segs| :: rest[k] == segs[k];
      SplitIsUnique(rest, n + 1);
      assert [s[0]] + s[1..] == s;
      assert Extend([s[0]], rest) == segs;
    }
  }

  /** Splitting again what has been split changes nothing. */
  lemma ResplitIsStable(items: seq<Item>)
    requires items != []
    ensures Split(Concat(Split(items, 1)), 1) == Split(items, 1)
  {
    SplitPartitions(items, 1);
    SplitIsUnique(Split(items, 1), 1);
  }

  /** A number picks that mission of a file of well-formed ones, a larger one the last, and one below 1 none. */
  lemma ChosenMission(segs: seq<seq<Item>>, mi: int)
    requires segs != [] && forall k | 0 <= k < |segs| :: WellFormed(segs[k], 1)
    ensures Concat(segs) != []
    ensures ToMission(Split(Concat(segs), 1), mi)
      == if mi < 1 then None else if mi <= |segs| then Some(segs[mi - 1]) else Some(segs[|segs| - 1])
  {
    hide Split, Concat, WellFormed;
    SplitIsUnique(segs, 1);
  }

  /** Whichever mission is chosen from a split file, Save cannot panic on it, if it has at most 127 items. */
  lemma ChosenMissionSaves(items: seq<Item>, mi: int, pts: seq<Point>, o: Settings)
    requires items != [] && mi >= 1 && pts != []
    requires var m := ToMission(Split(items, 1), mi);
      m.Some? && |m.value| <= 127 && FromMission(pts, m.value)
    ensures SavedMission(ToMission(Split(items, 1), mi).value, pts, o).Some?
  {
    hide Split, SavedMission, AllBest;
    SplitPartitions(items, 1);
    var segs := Split(items, 1);
    var k := (if mi > |segs| then |segs| else mi) - 1;
    var m := segs[k];
    assert WellFormed(m, 1);
    var best := AllBest(pts, m, |m|);
    AllBestRaises(pts, m, |m|);
    assert forall i | 0 <= i < |best| :: best[i].wpno == pts[i].wpno;
    SaveHolds(m, pts, best[0].gz, o, 0);
  }
}

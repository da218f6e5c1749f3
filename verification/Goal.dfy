/**
 * Repeated rounds of convergence of one Item (v2/pkg/allocator/item_state.go) reach their goal: exactly the desired
 * Members, in contiguous slots. Rounds decrease the desired Assignments which are missing, then the surplus ones, and
 * then the sum of slots.
 */
module Goal {
  import opened ItemPlan
  import opened ItemOps
  import opened ItemState

  // ---------------------------------------------------------------------------
  // The sum of slots

  ghost function SumOfSlots(s: set<Asn>): nat {
    if s == {} then 0 else
      var a :| a in s;
      a.slot + SumOfSlots(s - {a})
  }

  lemma {:induction false} SumWithout(s: set<Asn>, x: Asn)
    requires x in s
    ensures SumOfSlots(s) == x.slot + SumOfSlots(s - {x})
    decreases s
  {
    var a :| a in s && SumOfSlots(s) == a.slot + SumOfSlots(s - {a});
    if a != x {
      SumWithout(s - {a}, x);
      SumWithout(s - {x}, a);
      assert s - {a} - {x} == s - {x} - {a};
    }
  }

  /** A move to a lower slot decreases the sum. */
  lemma MoveLowers(s: seq<Asn>, i: nat, slot: nat)
    requires DistinctMembers(s) && i < |s| && slot < s[i].slot
    ensures SumOfSlots(Set(s[i := s[i].(slot := slot)])) < SumOfSlots(Set(s))
  {
    var a, b := s[i], s[i].(slot := slot);
    SetUpdate(s, i, b);
    var rest := Set(s) - {a};
    assert b !in rest by {
      assert forall k :: 0 <= k < |s| && s[k].member == b.member ==> k == i;
    }
    assert a in Set(s);
    SumWithout(Set(s), a);
    SumWithout(rest + {b}, b);
    assert rest + {b} - {b} == rest;
  }

  lemma PromotionLowers(s: seq<Asn>)
    requires DistinctMembers(s)
    ensures SumOfSlots(Set(Promoted(s))) <= SumOfSlots(Set(s))
    ensures s != [] && s[0].slot != 0 ==> SumOfSlots(Set(Promoted(s))) < SumOfSlots(Set(s))
    ensures s != [] && s[0].slot == 0 ==> Promoted(s) == s
  {
    hide SumOfSlots, Set;
    if s != [] {
      if s[0].slot == 0 {
        assert s[0].(slot := 0) == s[0];
        assert Promoted(s) == s;
      } else {
        MoveLowers(s, 0, 0);
      }
    }
  }

  lemma PackingLowers(s: seq<Asn>)
    requires SortedBySlot(s) && DistinctMembers(s) && (s != [] ==> s[0].slot == 0)
    ensures SumOfSlots(Set(Packed(s))) <= SumOfSlots(Set(s))
    ensures s != [] && PackIndex(s, 1) < |s| ==> SumOfSlots(Set(Packed(s))) < SumOfSlots(Set(s))
  {
    hide SumOfSlots, Set;
    PackedIsSorted(s);
    if s != [] && PackIndex(s, 1) < |s| {
      MoveLowers(s, PackIndex(s, 1), PackIndex(s, 1));
    }
  }

  // ---------------------------------------------------------------------------
  // The goal

  ghost function Desired(desired: seq<int>): set<int> {
    set m | m in desired
  }

  /** The Assignments in slot order: slot `i` is at index `i`. */
  ghost predicate IsPacked(s: seq<Asn>) {
    DistinctMembers(s) && forall i :: 0 <= i < |s| ==> s[i].slot == i
  }

  /** Exactly desired Members are assigned, in slots from zero on. */
  ghost predicate IsGoal(s: set<Asn>, desired: set<int>) {
    Members(s) == desired && exists order :: Set(order) == s && IsPacked(order)
  }

  function Missing(s: set<Asn>, desired: set<int>): set<int> {
    desired - Members(s)
  }

  function Surplus(s: set<Asn>, desired: set<int>): set<int> {
    Members(s) - desired
  }

  /** Lexicographic order of (missing, surplus, sum of slots). */
  ghost predicate IsCloser(after: set<Asn>, before: set<Asn>, desired: set<int>) {
    var m, n := |Missing(after, desired)|, |Missing(before, desired)|;
    var s, t := |Surplus(after, desired)|, |Surplus(before, desired)|;
    m < n || (m == n && (s < t || (s == t && SumOfSlots(after) < SumOfSlots(before))))
  }

  /** One round: `wanted` and `add` are derived from what's desired, and all of `add` has capacity. */
  ghost predicate IsRound(
    current: seq<Asn>, desired: seq<int>, r: int, wanted: seq<Asn>, kept: seq<Asn>, consistent: set<int>,
    add: seq<Asn>, remove: seq<Asn>, reorder: seq<Asn>)
  {
    && SortedByMember(current) && IsDelta(current, desired, NextSlot(current), add, wanted, kept)
    && IsPlan(current, add, remove, reorder)
    && RemovalsAllowed(current, consistent, r, wanted, remove)
  }

  lemma DeltaMembers(current: seq<Asn>, desired: seq<int>, n: nat, add: seq<Asn>, wanted: seq<Asn>, kept: seq<Asn>)
    requires IsDelta(current, desired, n, add, wanted, kept)
    ensures MembersOf(add) == Missing(Set(current), Desired(desired))
    ensures MembersOf(wanted) == Surplus(Set(current), Desired(desired))
  {
    MembersOfSet(current);
    var missing := Missing(Set(current), Desired(desired));
    assert forall m :: m in missing <==> m in desired && m !in MembersOf(current);
    assert forall m :: m in MembersOf(add) <==> m in missing;
  }

  /** All surplus Assignments can be removed, as desired ones alone provide enough replicas. */
  lemma SurplusIsRemoved(current: seq<Asn>, desired: set<int>, r: int,
                         wanted: seq<Asn>, remove: seq<Asn>, consistent: set<int>)
    requires RemovalsAllowed(current, consistent, r, wanted, remove)
    requires MembersOf(wanted) == MembersOf(current) - desired && desired <= MembersOf(current) <= consistent
    requires DistinctMembers(wanted) && MembersOf(wanted) != {} && |desired| >= r
    ensures MembersOf(remove) == MembersOf(wanted)
  {
    RemovedAreOf(wanted, remove);
    hide MembersOf, Set, DistinctMembers;
    var m, w, x := MembersOf(current), MembersOf(wanted), MembersOf(remove);
    assert ConsistentOf(current, consistent) == m && ConsistentOf(remove, consistent) == x;
    hide ConsistentOf;
    RemainderOf(m, desired, w, x);
    if Set(remove) != Set(wanted) {
      assert |w - x| == 0;
    }
  }

  lemma RemovedAreOf(wanted: seq<Asn>, remove: seq<Asn>)
    requires Set(remove) <= Set(wanted)
    ensures MembersOf(remove) <= MembersOf(wanted)
    ensures Set(remove) == Set(wanted) ==> MembersOf(remove) == MembersOf(wanted)
  {
    MembersOfSet(remove);
    MembersOfSet(wanted);
    hide MembersOf, Set;
  }

  lemma RemainderOf(m: set<int>, desired: set<int>, w: set<int>, x: set<int>)
    requires w == m - desired && desired <= m && x <= w
    ensures |m| == |desired| + |x| + |w - x| && (w != {} ==> |m| > |desired|)
    ensures |w - x| == 0 ==> w == x
  {
    assert m == desired + w && w == x + (w - x);
  }

  // ---------------------------------------------------------------------------
  // Progress of a round

  lemma MissingAreAdded(
    current: seq<Asn>, desired: seq<int>, r: int, wanted: seq<Asn>, kept: seq<Asn>, consistent: set<int>,
    add: seq<Asn>, remove: seq<Asn>, reorder: seq<Asn>)
    requires IsRound(current, desired, r, wanted, kept, consistent, add, remove, reorder)
    ensures Missing(Outcome(add, remove, reorder), Desired(desired)) == {}
    ensures Members(Outcome(add, remove, reorder)) == MembersOf(current) - MembersOf(remove) + MembersOf(add)
    ensures MembersOf(remove) <= MembersOf(wanted)
  {
    hide IsPlan, IsDelta, Outcome, Members, MembersOf, Desired;
    OutcomeIsWellPlaced(current, add, remove, reorder);
    DeltaMembers(current, desired, NextSlot(current), add, wanted, kept);
    RemovedAreMembers(wanted, wanted, remove);
    MembersOfSet(current);
    var d, m, w, x := Desired(desired), MembersOf(current), MembersOf(wanted), MembersOf(remove);
    assert d <= m - x + MembersOf(add) by {
      assert forall y :: y in d ==> y in m || y in MembersOf(add);
      assert forall y :: y in d ==> y !in w;
    }
  }

  /**
   * With exactly desired Members, a round only moves Assignments, and it moves none just if all slots are contiguous.
   */
  lemma SlotsArePacked(current: seq<Asn>, reorder: seq<Asn>)
    requires IsPlan(current, [], [], reorder)
    ensures Members(Outcome([], [], reorder)) == MembersOf(current)
    ensures SumOfSlots(Outcome([], [], reorder)) < SumOfSlots(Set(current))
            || (Set(reorder) == Set(current) && IsPacked(reorder) && PlanOps([], [], reorder) == [])
  {
    hide SumOfSlots, Members, WellPlaced, AreFresh, DistinctMembers, MembersOf, HasPrimary;
    OutcomeIsWellPlaced(current, [], [], reorder);
    MembersOfEmpty();
    assert Set(reorder) == Set(current);
    PromotedIsSorted(current, [], [], reorder);
    var p := Promoted(reorder);
    PromotionLowers(reorder);
    PackingLowers(p);
    assert Outcome([], [], reorder) == Set(Packed(p));
    if SumOfSlots(Set(Packed(p))) == SumOfSlots(Set(reorder)) && reorder != [] {
      assert p == reorder && PackIndex(reorder, 1) == |reorder|;
    }
  }

  /** Every round either is closer, or is at the goal and changes nothing. */
  lemma RoundIsCloser(
    current: seq<Asn>, desired: seq<int>, r: int, wanted: seq<Asn>, kept: seq<Asn>, consistent: set<int>,
    add: seq<Asn>, remove: seq<Asn>, reorder: seq<Asn>)
    requires IsRound(current, desired, r, wanted, kept, consistent, add, remove, reorder)
    requires MembersOf(current) <= consistent && |Desired(desired)| >= r
    ensures IsCloser(Outcome(add, remove, reorder), Set(current), Desired(desired))
         || (&& IsGoal(Set(current), Desired(desired))
             && PlanOps(add, remove, reorder) == [] && Set(current) == Set(reorder))
  {
    hide IsPlan, IsDelta, Outcome, SumOfSlots, PlanOps, Members, MembersOf, Desired, RemovalsAllowed;
    hide DistinctMembers, IsPacked, SortedByMember, Set;
    var d, before, after := Desired(desired), Set(current), Outcome(add, remove, reorder);
    DeltaMembers(current, desired, NextSlot(current), add, wanted, kept);
    MissingAreAdded(current, desired, r, wanted, kept, consistent, add, remove, reorder);
    MembersOfSet(current);
    var m, w, x := MembersOf(current), MembersOf(wanted), MembersOf(remove);
    if Missing(before, d) != {} {
      assert |Missing(before, d)| > 0;
    } else if Surplus(before, d) != {} {
      NoDifference(d, m);
      DeltaIsDistinct(current, desired, add, wanted, kept);
      SurplusIsRemoved(current, d, r, wanted, remove, consistent);
      assert MembersOf(add) == {};
      assert Members(after) == m - w;
      assert Surplus(after, d) == {};
      assert |Surplus(before, d)| > 0;
    } else {
      NoDifference(d, m);
      NoDifference(m, d);
      NoMembers(add);
      NoMembers(remove);
      SlotsArePacked(current, reorder);
      assert Surplus(after, d) == {};
    }
  }

  lemma NoDifference(s: set<int>, t: set<int>)
    ensures s - t == {} <==> s <= t
  {
    assert forall y :: y in s && y !in t ==> y in s - t;
  }

  lemma NoMembers(s: seq<Asn>)
    ensures MembersOf(s) == {} ==> s == []
  {
    if s != [] {
      assert s[0] in s;
      assert s[0].member in MembersOf(s);
    }
  }

  lemma DeltaIsDistinct(current: seq<Asn>, desired: seq<int>, add: seq<Asn>, wanted: seq<Asn>, kept: seq<Asn>)
    requires IsDelta(current, desired, NextSlot(current), add, wanted, kept)
    ensures DistinctMembers(wanted)
  {
  }

  /** Strictly ordered slots are at or above their index, and at it if all are below the length. */
  lemma {:induction false} SlotsAreAbove(s: seq<Asn>, i: nat)
    requires SortedBySlot(s) && i < |s|
    ensures s[i].slot >= i
  {
    if i > 0 {
      SlotsAreAbove(s, i - 1);
    }
  }

  lemma {:induction false} SlotsAreBelow(s: seq<Asn>, i: nat)
    requires SortedBySlot(s) && i < |s| && forall k :: 0 <= k < |s| ==> s[k].slot < |s|
    ensures s[i].slot <= i
    decreases |s| - i
  {
    if i + 1 < |s| {
      SlotsAreBelow(s, i + 1);
    }
  }

  lemma SameLength(s: seq<Asn>, t: seq<Asn>)
    requires DistinctMembers(s) && DistinctMembers(t) && Set(s) == Set(t)
    ensures |s| == |t|
  {
    CardinalityOf(s);
    CardinalityOf(t);
  }

  lemma {:induction false} CardinalityOf(s: seq<Asn>)
    requires DistinctMembers(s)
    ensures |Set(s)| == |s|
  {
    if s != [] {
      var init, last := s[..|s| - 1], s[|s| - 1];
      CardinalityOf(init);
      assert s == init + [last];
      assert last !in Set(init);
      assert Set(s) == Set(init) + {last};
    }
  }

  /** The goal, once reached, is kept: a round at the goal has no operations. */
  lemma GoalIsStable(
    current: seq<Asn>, desired: seq<int>, r: int, wanted: seq<Asn>, kept: seq<Asn>, consistent: set<int>,
    add: seq<Asn>, remove: seq<Asn>, reorder: seq<Asn>)
    requires IsRound(current, desired, r, wanted, kept, consistent, add, remove, reorder)
    requires IsGoal(Set(current), Desired(desired))
    ensures PlanOps(add, remove, reorder) == []
  {
    DeltaMembers(current, desired, NextSlot(current), add, wanted, kept);
    MissingAreAdded(current, desired, r, wanted, kept, consistent, add, remove, reorder);
    hide RemovalsAllowed, IsDelta, NextSlot, WellPlaced, AreFresh, Members, MembersOf;
    assert Missing(Set(current), Desired(desired)) == {} && Surplus(Set(current), Desired(desired)) == {};
    NoMembers(add);
    NoMembers(wanted);
    NoMembers(remove);
    assert Set(reorder) == Set(current) by { NoneRemoved(current, remove, reorder); }
    var order :| Set(order) == Set(current) && IsPacked(order);
    hide Set, IsOrdered, PlanOps, IsPacked, DistinctMembers;
    GoalIsOrdered(reorder, order);
  }

  lemma NoneRemoved(current: seq<Asn>, remove: seq<Asn>, reorder: seq<Asn>)
    requires Split(current, remove, reorder) && remove == []
    ensures Set(reorder) == Set(current)
  {
  }

  lemma GoalIsOrdered(reorder: seq<Asn>, order: seq<Asn>)
    requires IsPacked(order) && IsOrdered(reorder) && DistinctMembers(reorder) && Set(reorder) == Set(order)
    ensures PlanOps([], [], reorder) == []
  {
    SameLength(reorder, order);
    forall k | 0 <= k < |reorder|
      ensures reorder[k].slot < |reorder| && (reorder[k].slot == 0 ==> reorder[k] == order[0])
    {
      assert reorder[k] in Set(order);
    }
    if reorder != [] {
      assert order[0] in Set(reorder);
      assert HasPrimary(reorder);
      assert SortedBySlot(reorder) by {
        forall k | 0 < k < |reorder|
          ensures reorder[k].slot > 0
        {
          assert reorder[k].member != reorder[0].member;
        }
      }
      forall i | 0 <= i < |reorder|
        ensures reorder[i].slot == i
      {
        SlotsAreAbove(reorder, i);
        SlotsAreBelow(reorder, i);
      }
    }
  }

  // ---------------------------------------------------------------------------
  // Repeated rounds

  lemma {:induction false} AllHaveCapacity(s: seq<Asn>, limits: map<int, int>, total: map<int, int>)
    requires total.Keys == limits.Keys && forall a :: a in s ==>
             a.member in limits && total[a.member] < limits[a.member]
    ensures WithCapacity(s, limits, total) == s
  {
    if s != [] {
      AllHaveCapacity(s[..|s| - 1], limits, total);
      assert s == s[..|s| - 1] + [s[|s| - 1]];
    }
  }

  /** Assignments which a round leaves. */
  function Left(add: seq<Asn>, remove: seq<Asn>, reorder: seq<Asn>): seq<Asn> {
    Kept(add, remove, reorder) + add
  }

  lemma LeftIsOutcome(current: seq<Asn>, add: seq<Asn>, remove: seq<Asn>, reorder: seq<Asn>)
    requires IsPlan(current, add, remove, reorder)
    ensures DistinctMembers(Left(add, remove, reorder))
            && Set(Left(add, remove, reorder)) == Outcome(add, remove, reorder)
  {
    hide Kept, WellPlaced, Split, IsOrdered;
    KeptIsSorted(current, add, remove, reorder);
    var k := Kept(add, remove, reorder);
    forall i, j | 0 <= i < |k| && 0 <= j < |add|
      ensures k[i].member != add[j].member
    {
      AddedIsApart(current, add, remove, reorder, k[i], add[j]);
    }
  }

  /** As the key space is observed after a round: Assignments are ordered on Member. */
  method Reobserve(s: seq<Asn>) returns (t: seq<Asn>)
    requires DistinctMembers(s)
    ensures SortedByMember(t) && Set(t) == Set(s)
  {
    t := SortBy(s, (a: Asn) => a.member as real);
  }

  /** Members which lack the Item have capacity for it. Those which hold it may be at their limit. */
  ghost predicate HasCapacity(current: seq<Asn>, desired: seq<int>, limits: map<int, int>, total: map<int, int>) {
    && total.Keys == limits.Keys && (forall m :: m in desired ==> m in limits)
    && (forall m :: m in desired && m !in MembersOf(current) ==> total[m] < limits[m])
  }

  lemma DeltaHasCapacity(
    current: seq<Asn>, desired: seq<int>, add: seq<Asn>, wanted: seq<Asn>, kept: seq<Asn>,
    limits: map<int, int>, total: map<int, int>)
    requires IsDelta(current, desired, NextSlot(current), add, wanted, kept)
    requires HasCapacity(current, desired, limits, total)
    ensures forall a :: a in add ==> a.member in limits && total[a.member] < limits[a.member]
  {
    assert forall a :: a in add ==> a.member in MembersOf(add);
  }

  /**
   * One round of the Item's convergence. Counts of Members are whatever other Items make of them, but for desired
   * Members which lack the Item having capacity, and all current Assignments are consistent.
   */
  method Round(
    limits: map<int, int>, total: map<int, int>, primary: map<int, int>, current: seq<Asn>, desired: seq<int>, r: int,
    load: Asn -> real, primaryLoad: Asn -> real)
    returns (next: seq<Asn>, idle: bool)
    requires SortedByMember(current) && WellPlaced(Set(current)) && Ascending(desired) && |Desired(desired)| >= r
    requires HasCapacity(current, desired, limits, total) && primary.Keys == limits.Keys
    ensures SortedByMember(next) && WellPlaced(Set(next))
    ensures idle ==> IsGoal(Set(current), Desired(desired)) && next == current
    ensures !idle ==> IsCloser(Set(next), Set(current), Desired(desired))
  {
    hide Split, AreFresh, IsDelta, WellPlaced, SortedByMember, IsPlan, RemovalsAllowed, AreHeaviest, IsBest;
    hide IsSafe, Counted, Outcome, PlanOps, PlanCmps;
    hide Members, Primaries, IsCloser, IsGoal, Set, Left, MembersOf, WithCapacity;
    var global := new GlobalState(limits, total, primary);
    var state := new ItemState(global);
    var txn := new Checkpoint();
    state.Init(current, desired);
    ghost var add, wanted, kept := state.add, state.remove, state.reorder;
    DeltaSplits(current, desired, NextSlot(current), add, wanted, kept);
    DeltaIsFresh(current, desired, add, wanted, kept);
    DeltaHasCapacity(current, desired, add, wanted, kept, limits, total);
    AllHaveCapacity(add, limits, total);
    state.ConstrainAndBuildOps(txn, r, MembersOf(current), load, primaryLoad);
    RoundIsCloser(current, desired, r, wanted, kept, MembersOf(current), state.add, state.remove, state.reorder);
    OutcomeIsWellPlaced(current, state.add, state.remove, state.reorder);
    LeftIsOutcome(current, state.add, state.remove, state.reorder);
    idle := |txn.ops| == 0;
    if idle {
      IdleIsGoal(current, desired, state.add, state.remove, state.reorder);
      next := current;
    } else {
      next := Reobserve(Left(state.add, state.remove, state.reorder));
    }
  }

  /** Without operations nothing changes, so a round can't have been closer. */
  lemma IdleIsGoal(current: seq<Asn>, desired: seq<int>, add: seq<Asn>, remove: seq<Asn>, reorder: seq<Asn>)
    requires IsPlan(current, add, remove, reorder) && PlanOps(add, remove, reorder) == []
    ensures !IsCloser(Outcome(add, remove, reorder), Set(current), Desired(desired))
  {
    PlanApplies(current, add, remove, reorder);
  }

  /** Counts of Assignments by Member, given those of other Items. */
  function WithOthers(others: map<int, int>, current: seq<Asn>): map<int, int> {
    map m | m in others :: others[m] + if m in MembersOf(current) then 1 else 0
  }

  /** Counts of other Items leave each desired Member room for this one. */
  ghost predicate LeaveRoom(others: map<int, int>, desired: seq<int>, limits: map<int, int>) {
    others.Keys == limits.Keys && forall m :: m in desired ==> m in limits && others[m] < limits[m]
  }

  lemma RoomIsCapacity(others: map<int, int>, current: seq<Asn>, desired: seq<int>, limits: map<int, int>)
    requires LeaveRoom(others, desired, limits)
    ensures HasCapacity(current, desired, limits, WithOthers(others, current))
  {
    assert WithOthers(others, current).Keys == others.Keys;
  }

  /**
   * Repeated rounds end, at the goal. What other Items count of each Member, and how Members are ordered by their load,
   * may be different in each round.
   */
  method ReachGoal(
    limits: map<int, int>, others: nat -> map<int, int>, primaries: nat -> map<int, int>, start: seq<Asn>,
    desired: seq<int>, r: int, load: nat -> Asn -> real, primaryLoad: nat -> Asn -> real)
    returns (final: seq<Asn>)
    requires SortedByMember(start) && WellPlaced(Set(start)) && Ascending(desired) && |Desired(desired)| >= r
    requires forall i :: LeaveRoom(others(i), desired, limits) && primaries(i).Keys == limits.Keys
    ensures IsGoal(Set(final), Desired(desired))
  {
    hide SortedByMember, WellPlaced, Set, IsGoal, SumOfSlots, Missing, Surplus, Desired, LeaveRoom, HasCapacity;
    hide WithOthers;
    final := start;
    var idle, round := false, 0;
    while !idle
      invariant SortedByMember(final) && WellPlaced(Set(final))
      invariant idle ==> IsGoal(Set(final), Desired(desired))
      decreases !idle, |Missing(Set(final), Desired(desired))|, |Surplus(Set(final), Desired(desired))|,
        SumOfSlots(Set(final))
    {
      RoomIsCapacity(others(round), final, desired, limits);
      var total := WithOthers(others(round), final);
      final, idle := Round(limits, total, primaries(round), final, desired, r, load(round), primaryLoad(round));
      round := round + 1;
    }
  }
}

/**
 * One round of convergence over all Items (v2/pkg/allocator/allocator.go), from the counts of an observed State
 * (v2/pkg/allocator/alloc_state.go). An Item is named by its index, and Assignments of the key space are joined with
 * Items by a comparison.
 */
module Converge {
  import opened Common
  import opened ItemPlan
  import opened ItemOps
  import opened ItemState
  import DeadAssignments
  import LeftJoin

  /** An Item's desired replication, and the Members whose Assignments of it are consistent. */
  datatype Item = Item(r: int, consistent: set<int>)

  datatype Desired = Desired(item: nat, member: int)

  /** A checkpoint, as it's handed to the transaction. */
  datatype ItemCheck = ItemCheck(cmps: seq<Cmp>, ops: seq<Op>)

  // ---------------------------------------------------------------------------
  // Recounts

  /** Assignments of each Item. */
  type World = seq<set<Asn>>

  /** The number of sets which hold `m`. */
  function Tally(sets: seq<set<int>>, m: int): nat {
    if sets == [] then 0 else Tally(sets[..|sets| - 1], m) + if m in sets[|sets| - 1] then 1 else 0
  }

  function MembersIn(world: World): (s: seq<set<int>>)
    ensures |s| == |world| && forall l :: 0 <= l < |world| ==> s[l] == Members(world[l])
  {
    seq(|world|, l requires 0 <= l < |world| => Members(world[l]))
  }

  function PrimariesIn(world: World): (s: seq<set<int>>)
    ensures |s| == |world| && forall l :: 0 <= l < |world| ==> s[l] == Primaries(world[l])
  {
    seq(|world|, l requires 0 <= l < |world| => Primaries(world[l]))
  }

  lemma {:induction false} TallyUpdate(sets: seq<set<int>>, k: nat, s: set<int>, m: int)
    requires k < |sets|
    ensures Tally(sets[k := s], m) == Tally(sets, m) + One(m in s) - One(m in sets[k])
  {
    var n := |sets| - 1;
    if k == n {
      assert sets[k := s][..n] == sets[..n];
    } else {
      assert sets[k := s][..n] == sets[..n][k := s];
      TallyUpdate(sets[..n], k, s, m);
    }
  }

  /** Counts of known Members are a recount of the Assignments of all Items. */
  ghost predicate Recounts(limits: map<int, int>, counts: map<int, int>, sets: seq<set<int>>) {
    counts.Keys == limits.Keys && forall m :: m in limits ==> counts[m] == Tally(sets, m)
  }

  lemma RecountUpdate(limits: map<int, int>, before: map<int, int>, after: map<int, int>, sets: seq<set<int>>, k: nat,
                      s: set<int>)
    requires k < |sets| && Recounts(limits, before, sets) && Counted(limits, before, after, s, sets[k])
    ensures Recounts(limits, after, sets[k := s])
  {
    forall m | m in limits
      ensures after[m] == Tally(sets[k := s], m)
    {
      TallyUpdate(sets, k, s, m);
    }
  }

  lemma RecountNext(limits: map<int, int>, before: map<int, int>, after: map<int, int>, sets: seq<set<int>>, k: nat)
    requires k < |sets| && Recounts(limits, before, sets[..k]) && Counted(limits, before, after, sets[k], {})
    ensures Recounts(limits, after, sets[..k + 1])
  {
    assert sets[..k + 1][..k] == sets[..k];
  }

  // ---------------------------------------------------------------------------
  // Observing counts

  /** The world is what the join yields. */
  ghost predicate IsWorld(compare: LeftJoin.Compare, assignments: seq<Asn>, world: World) {
    forall l: nat, b: nat, e: nat :: l < |world| && LeftJoin.IsEqualRange(compare, |assignments|, l, b, e) ==>
      world[l] == Set(assignments[b..e])
  }

  /** Assignments of an Item are ordered on Member by their keys, and have distinct Members and slots. */
  ghost predicate RangesAreValid(compare: LeftJoin.Compare, lenL: nat, assignments: seq<Asn>) {
    forall l: nat, b: nat, e: nat :: l < lenL && LeftJoin.IsEqualRange(compare, |assignments|, l, b, e) ==>
      IsValidRange(assignments[b..e])
  }

  ghost predicate IsValidRange(s: seq<Asn>) {
    SortedByMember(s) && WellPlaced(Set(s))
  }

  lemma CountMaybe(limits: map<int, int>, before: map<int, int>, after: map<int, int>, gained: set<int>, m: int)
    requires Counted(limits, before, after, gained, {}) && m !in gained
    ensures Counted(limits, before, PlusOne(after, m, true), gained + {m}, {})
  {
  }

  function PlusOne(counts: map<int, int>, m: int, applies: bool): map<int, int> {
    if m in counts && applies then counts[m := counts[m] + 1] else counts
  }

  /** Count the Assignments of one Item. */
  method CountItem(s: seq<Asn>, limits: map<int, int>, total0: map<int, int>, primary0: map<int, int>)
    returns (total: map<int, int>, primary: map<int, int>)
    requires DistinctMembers(s) && total0.Keys == primary0.Keys == limits.Keys
    ensures Counted(limits, total0, total, MembersOf(s), {})
            && Counted(limits, primary0, primary, Primaries(Set(s)), {})
  {
    hide Counted, MembersOf, Primaries, Set, DistinctMembers;
    total, primary := total0, primary0;
    CountNone(limits, total, s);
    CountNone(limits, primary, s);
    for i := 0 to |s|
      invariant Counted(limits, total0, total, MembersOf(s[..i]), {})
      invariant Counted(limits, primary0, primary, Primaries(Set(s[..i])), {})
    {
      var a := s[i];
      PrefixGrows(s, i);
      CountMaybe(limits, total0, total, MembersOf(s[..i]), a.member);
      if a.slot == 0 {
        CountMaybe(limits, primary0, primary, Primaries(Set(s[..i])), a.member);
      }
      primary := PlusOne(primary, a.member, a.slot == 0);
      total := PlusOne(total, a.member, true);
    }
    assert s[..|s|] == s;
  }

  function ZeroCounts(limits: map<int, int>): (z: map<int, int>)
    ensures Recounts(limits, z, [])
  {
    map m | m in limits :: 0
  }

  /** The counts which observe derives are a recount over known Items, whatever Assignments are dead. */
  method Observe(limits: map<int, int>, lenL: nat, compare: LeftJoin.Compare, assignments: seq<Asn>, ghost world: World)
    returns (global: GlobalState)
    requires LeftJoin.IsOrdered(compare, lenL, |assignments|) && |world| == lenL
    requires IsWorld(compare, assignments, world) && RangesAreValid(compare, lenL, assignments)
    ensures fresh(global) && global.Valid() && global.limits == limits
    ensures Recounts(limits, global.total, MembersIn(world)) && Recounts(limits, global.primary, PrimariesIn(world))
  {
    hide Recounts, Counted, LeftJoin.IsEqualRange, LeftJoin.IsOrdered, LeftJoin.RightIsOrdered, MembersIn;
    hide PrimariesIn, Members, Primaries, Set;
    var total, primary := ZeroCounts(limits), ZeroCounts(limits);
    LeftJoin.BothAreOrdered(compare, lenL, |assignments|);
    var it := new LeftJoin.Join(lenL, |assignments|, compare, lenL);
    ghost var members, primaries := MembersIn(world), PrimariesIn(world);
    assert members[..0] == [] && primaries[..0] == [];
    RecountKeys(limits, total, []);
    while it.left < lenL
      invariant it.Valid() && it.lenL == it.prefix == lenL && it.lenR == |assignments| && it.compare == compare
                && fresh(it)
      invariant total.Keys == primary.Keys == limits.Keys
      invariant Recounts(limits, total, members[..it.left]) && Recounts(limits, primary, primaries[..it.left])
      decreases lenL - it.left
    {
      var cur, ok := it.Next();
      RangeIsWithin(compare, |assignments|, cur.left, cur.rightBegin, cur.rightEnd);
      var range := assignments[cur.rightBegin..cur.rightEnd];
      ValidRangeIsDistinct(range);
      var t, p := CountItem(range, limits, total, primary);
      MembersOfSet(range);
      RecountNext(limits, total, t, members, cur.left);
      RecountNext(limits, primary, p, primaries, cur.left);
      total, primary := t, p;
      CountedKeys(limits, total, primary, members[..it.left], primaries[..it.left]);
    }
    assert members[..lenL] == members && primaries[..lenL] == primaries;
    global := new GlobalState(limits, total, primary);
  }

  lemma RangeIsWithin(compare: LeftJoin.Compare, lenR: nat, l: nat, b: nat, e: nat)
    requires LeftJoin.IsEqualRange(compare, lenR, l, b, e)
    ensures b <= e <= lenR
  {
  }

  lemma ValidRangeIsDistinct(s: seq<Asn>)
    requires IsValidRange(s)
    ensures DistinctMembers(s) && SortedByMember(s) && WellPlaced(Set(s))
  {
  }

  lemma RecountKeys(limits: map<int, int>, counts: map<int, int>, sets: seq<set<int>>)
    requires Recounts(limits, counts, sets)
    ensures counts.Keys == limits.Keys
  {
  }

  lemma CountedKeys(limits: map<int, int>, total: map<int, int>, primary: map<int, int>,
                    s: seq<set<int>>, t: seq<set<int>>)
    requires Recounts(limits, total, s) && Recounts(limits, primary, t)
    ensures total.Keys == primary.Keys == limits.Keys
  {
  }

  // ---------------------------------------------------------------------------
  // A round of convergence

  /** Nothing which is desired is removed, and nothing else is added. */
  ghost predicate IsTowards(before: set<Asn>, after: set<Asn>, desired: set<int>) {
    Members(before) * desired <= Members(after) <= Members(before) + desired
  }

  lemma PlanIsTowards(
    current: seq<Asn>, desired: seq<int>, wanted: seq<Asn>, kept: seq<Asn>, adds: seq<Asn>, n: nat,
    add: seq<Asn>, remove: seq<Asn>, reorder: seq<Asn>)
    requires IsDelta(current, desired, n, adds, wanted, kept) && IsPlan(current, add, remove, reorder)
    requires Set(remove) <= Set(wanted) && Set(add) <= Set(adds)
    ensures IsTowards(Set(current), Outcome(add, remove, reorder), set d | d in desired)
  {
    hide WellPlaced, Split, IsOrdered, AreFresh, Outcome, NextSlot, SortedByMember;
    OutcomeIsWellPlaced(current, add, remove, reorder);
    MembersOfSet(current);
    forall a | a in remove
      ensures a.member !in desired
    {
      assert a in Set(remove);
    }
    forall a | a in add
      ensures a.member in desired
    {
      assert a in Set(add);
      assert a.member in MembersOf(adds);
    }
  }

  /** Converge one Item. Its checkpoint writes no key twice, and what it leaves is safe. */
  method ConvergeItem(state: ItemState, item: Item, current: seq<Asn>, desired: seq<int>, load: Asn -> real,
                      primaryLoad: Asn -> real)
    returns (check: ItemCheck)
    requires state.global.Valid() && IsValidRange(current)
    requires Ascending(desired) && forall m :: m in desired ==> m in state.global.limits
    modifies state, state.global
    ensures state.global.Valid() && KeysAreDistinct(check.ops)
    ensures var after := ApplyOps(Set(current), check.ops);
      && IsSafe(Set(current), after, item.consistent, item.r, state.global.limits, old(state.global.total))
      && IsTowards(Set(current), after, set d | d in desired)
      && AreGuarded(check.ops, check.cmps, Set(current), Members(after))
      && Counted(state.global.limits, old(state.global.total), state.global.total, Members(after),
        Members(Set(current)))
      && Counted(state.global.limits, old(state.global.primary), state.global.primary, Primaries(after),
        Primaries(Set(current)))
  {
    hide IsSafe, IsTowards, Counted, Members, Primaries, Outcome, PlanOps, PlanCmps, IsPlan, RemovalsAllowed;
    hide AreHeaviest, IsBest;
    hide KeysAreDistinct, Split, AreFresh, IsDelta, WellPlaced, SortedByMember, ApplyOps, AreGuarded, AreBlocked;
    var txn := new Checkpoint();
    ValidRangeIsDistinct(current);
    state.Init(current, desired);
    ghost var adds, wanted, kept := state.add, state.remove, state.reorder;
    DeltaSplits(current, desired, NextSlot(current), adds, wanted, kept);
    DeltaIsFresh(current, desired, adds, wanted, kept);
    AddsAreKnown(current, desired, NextSlot(current), adds, wanted, kept, state.global.limits);
    state.ConstrainAndBuildOps(txn, item.r, item.consistent, load, primaryLoad);
    check := ItemCheck(txn.cmps, txn.ops);
    assert txn.ops == PlanOps(state.add, state.remove, state.reorder);
    assert txn.cmps == PlanCmps(state.add, state.remove, state.reorder);
    PlanIsGuarded(current, state.add, state.remove, state.reorder);
    PlanApplies(current, state.add, state.remove, state.reorder);
    PlanKeysAreDistinct(current, state.add, state.remove, state.reorder);
    RemovedWereWanted(current, item.consistent, item.r, wanted, state.remove);
    AddedWereWanted(adds, state.global.limits, old(state.global.total));
    PlanIsTowards(current, desired, wanted, kept, adds, NextSlot(current), state.add, state.remove, state.reorder);
  }

  lemma AddsAreKnown(current: seq<Asn>, desired: seq<int>, n: nat,
                     add: seq<Asn>, remove: seq<Asn>, reorder: seq<Asn>, limits: map<int, int>)
    requires IsDelta(current, desired, n, add, remove, reorder) && forall m :: m in desired ==> m in limits
    ensures forall a :: a in add ==> a.member in limits
  {
    assert forall a :: a in add ==> a.member in MembersOf(add);
  }

  lemma RemovedWereWanted(current: seq<Asn>, consistent: set<int>, r: int, wanted: seq<Asn>, remove: seq<Asn>)
    requires RemovalsAllowed(current, consistent, r, wanted, remove)
    ensures Set(remove) <= Set(wanted)
  {
  }

  lemma AddedWereWanted(adds: seq<Asn>, limits: map<int, int>, total: map<int, int>)
    requires total.Keys == limits.Keys && forall a :: a in adds ==> a.member in limits
    ensures Set(WithCapacity(adds, limits, total)) <= Set(adds)
  {
  }

  /** Desired Assignments are ordered on Item and then Member, and are of known Items and Members. */
  ghost predicate DesiredIsOrdered(desired: seq<Desired>, lenL: nat, limits: map<int, int>) {
    && (forall i, j :: 0 <= i < j < |desired| ==> IsBefore(desired[i], desired[j]))
    && (forall i :: 0 <= i < |desired| ==> desired[i].item < lenL && desired[i].member in limits)
  }

  ghost predicate IsBefore(a: Desired, b: Desired) {
    a.item < b.item || (a.item == b.item && a.member < b.member)
  }

  ghost function DesiredOf(desired: seq<Desired>, l: nat): set<int> {
    set d | d in desired && d.item == l :: d.member
  }

  function MembersOfDesired(d: seq<Desired>): (m: seq<int>)
    ensures |m| == |d| && forall i :: 0 <= i < |d| ==> m[i] == d[i].member
  {
    seq(|d|, i requires 0 <= i < |d| => d[i].member)
  }

  /** Entries before `j` are of Items before `l`, and others are not. */
  ghost predicate WalkedDesired(desired: seq<Desired>, j: nat, l: nat) {
    && j <= |desired|
    && (forall i :: 0 <= i < j ==> desired[i].item < l)
    && (forall i :: j <= i < |desired| ==> desired[i].item >= l)
  }

  lemma DesiredSlice(desired: seq<Desired>, lenL: nat, limits: map<int, int>, j: nat, limit: nat, l: nat)
    requires DesiredIsOrdered(desired, lenL, limits) && WalkedDesired(desired, j, l) && j <= limit <= |desired|
    requires forall i :: j <= i < limit ==> desired[i].item == l
    requires limit < |desired| ==> desired[limit].item != l
    ensures var m := MembersOfDesired(desired[j..limit]);
      && Ascending(m) && (forall x :: x in m ==> x in limits) && (set x | x in m) == DesiredOf(desired, l)
    ensures WalkedDesired(desired, limit, l + 1)
  {
    var d := desired[j..limit];
    var m := MembersOfDesired(d);
    assert forall i :: 0 <= i < |d| ==> d[i] == desired[j + i];
    forall a, b | 0 <= a < b < |m|
      ensures m[a] < m[b]
    {
      assert IsBefore(desired[j + a], desired[j + b]);
    }
    forall i | limit <= i < |desired|
      ensures desired[i].item >= l + 1
    {
      assert limit < i ==> IsBefore(desired[limit], desired[i]);
    }
    forall x | x in DesiredOf(desired, l)
      ensures x in m
    {
      var i :| 0 <= i < |desired| && desired[i].item == l && desired[i].member == x;
      assert m[i - j] == x;
    }
    forall x | x in m
      ensures x in DesiredOf(desired, l)
    {
      var i :| 0 <= i < |m| && m[i] == x;
      assert desired[j + i] in desired;
    }
  }

  /** What holds of an Item once its checkpoint is applied. */
  ghost predicate IsSafeItem(item: Item, before: set<Asn>, after: set<Asn>) {
    && WellPlaced(after)
    && KeepsReplication(before, after, item.consistent, item.r)
    && (Members(before) * Members(after) != {} ==> exists a :: a in after && a.slot == 0)
  }

  /**
   * What holds after `k` checkpoints: Items are safe, and Members stay within limits, or within what they began with.
   */
  ghost predicate IsSafeWorld(items: seq<Item>, limits: map<int, int>, start: World, now: World, k: nat) {
    && |now| == |start| == |items| && k <= |items|
    && (forall l :: 0 <= l < k ==> IsSafeItem(items[l], start[l], now[l]))
    && (forall l :: k <= l < |items| ==> now[l] == start[l])
    && forall m :: m in limits ==> Tally(MembersIn(now), m) <= Max(Tally(MembersIn(start), m), limits[m])
  }

  lemma SafeBegin(items: seq<Item>, limits: map<int, int>, start: World)
    requires |start| == |items|
    ensures IsSafeWorld(items, limits, start, start, 0)
  {
  }

  lemma MembersInUpdate(world: World, k: nat, after: set<Asn>)
    requires k < |world|
    ensures MembersIn(world[k := after]) == MembersIn(world)[k := Members(after)]
    ensures PrimariesIn(world[k := after]) == PrimariesIn(world)[k := Primaries(after)]
  {
  }

  lemma SafeStep(items: seq<Item>, limits: map<int, int>, total: map<int, int>, start: World, now: World, k: nat,
                 after: set<Asn>)
    requires IsSafeWorld(items, limits, start, now, k) && k < |items|
    requires Recounts(limits, total, MembersIn(now))
    requires IsSafe(start[k], after, items[k].consistent, items[k].r, limits, total)
    ensures IsSafeWorld(items, limits, start, now[k := after], k + 1)
  {
    hide MembersIn, WellPlaced, KeepsReplication, Members, Tally;
    MembersInUpdate(now, k, after);
    forall m | m in limits
      ensures Tally(MembersIn(now[k := after]), m) <= Max(Tally(MembersIn(start), m), limits[m])
    {
      MembersInAt(now, k);
      TallyUpdate(MembersIn(now), k, Members(after), m);
    }
    assert IsSafeItem(items[k], start[k], after);
  }

  lemma MembersInAt(world: World, k: nat)
    requires k < |world|
    ensures |MembersIn(world)| == |PrimariesIn(world)| == |world|
    ensures MembersIn(world)[k] == Members(world[k]) && PrimariesIn(world)[k] == Primaries(world[k])
  {
  }

  lemma RecountWorld(limits: map<int, int>, total: map<int, int>, total': map<int, int>, primary: map<int, int>,
                     primary': map<int, int>, now: World, k: nat, after: set<Asn>)
    requires k < |now| && Recounts(limits, total, MembersIn(now)) && Recounts(limits, primary, PrimariesIn(now))
    requires Counted(limits, total, total', Members(after), Members(now[k]))
    requires Counted(limits, primary, primary', Primaries(after), Primaries(now[k]))
    ensures Recounts(limits, total', MembersIn(now[k := after]))
            && Recounts(limits, primary', PrimariesIn(now[k := after]))
  {
    hide MembersIn, PrimariesIn, Members, Primaries, Recounts, Counted;
    MembersInUpdate(now, k, after);
    MembersInAt(now, k);
    RecountUpdate(limits, total, total', MembersIn(now), k, Members(after));
    RecountUpdate(limits, primary, primary', PrimariesIn(now), k, Primaries(after));
  }

  /** The `k`-th checkpoint leads from one world to the next, by changing just its Item. Its operations are guarded. */
  ghost predicate IsNext(worlds: seq<World>, checks: seq<ItemCheck>, k: nat)
    requires k < |checks| && |worlds| == |checks| + 1
  {
    && k < |worlds[k]| && KeysAreDistinct(checks[k].ops)
    && worlds[k + 1] == worlds[k][k := ApplyOps(worlds[k][k], checks[k].ops)]
    && AreGuarded(checks[k].ops, checks[k].cmps, worlds[k][k], Members(worlds[k + 1][k]))
  }

  lemma NextSnoc(worlds: seq<World>, checks: seq<ItemCheck>, check: ItemCheck)
    requires |worlds| == |checks| + 1 && forall k :: 0 <= k < |checks| ==> IsNext(worlds, checks, k)
    requires |checks| < |worlds[|checks|]| && KeysAreDistinct(check.ops)
    requires var before := worlds[|checks|][|checks|];
             AreGuarded(check.ops, check.cmps, before, Members(ApplyOps(before, check.ops)))
    ensures var l := |checks|;
            var next := worlds[l][l := ApplyOps(worlds[l][l], check.ops)];
            forall k :: 0 <= k <= l ==> IsNext(worlds + [next], checks + [check], k)
  {
    hide KeysAreDistinct, ApplyOps, AreGuarded, Members;
    var l := |checks|;
    var next := worlds[l][l := ApplyOps(worlds[l][l], check.ops)];
    forall k | 0 <= k <= l ensures IsNext(worlds + [next], checks + [check], k) {
      assert k < l ==> IsNext(worlds, checks, k);
    }
  }

  /** Counts of total and primary Assignments, after `k` checkpoints. */
  ghost predicate AreCounts(limits: map<int, int>, counts: (map<int, int>, map<int, int>), world: World) {
    Recounts(limits, counts.0, MembersIn(world)) && Recounts(limits, counts.1, PrimariesIn(world))
  }

  /** Checkpoints which remove exactly the Assignments of a gap. */
  ghost predicate RemovesGap(ids: seq<int>, checks: seq<DeadAssignments.Check>, gap: (nat, nat)) {
    gap.0 <= gap.1 <= |ids| && checks == DeadAssignments.Removals(ids, gap.0, gap.1)
  }

  /** Worlds and counts after each of the leading Items' checkpoints. */
  ghost predicate IsTrace(
    items: seq<Item>, limits: map<int, int>, desired: seq<Desired>, world: World, checks: seq<ItemCheck>,
    worlds: seq<World>, counts: seq<(map<int, int>, map<int, int>)>)
  {
    var n := |checks|;
    && |worlds| == |counts| == n + 1 && n <= |items| == |world| && worlds[0] == world && |worlds[n]| == |items|
    && (forall k :: 0 <= k < n ==> IsNext(worlds, checks, k))
    && (forall k :: 0 <= k <= n ==> IsSafeWorld(items, limits, world, worlds[k], k))
    && (forall k :: 0 <= k <= n ==> AreCounts(limits, counts[k], worlds[k]))
    && (forall l :: n <= l < |items| ==> worlds[n][l] == world[l])
    && (forall l :: 0 <= l < n ==> IsTowards(world[l], worlds[n][l], DesiredOf(desired, l)))
  }

  lemma TraceBegin(
    items: seq<Item>, limits: map<int, int>, desired: seq<Desired>, world: World, count: (map<int, int>, map<int, int>))
    requires |world| == |items| && AreCounts(limits, count, world)
    ensures IsTrace(items, limits, desired, world, [], [world], [count])
  {
    hide AreCounts, IsSafeWorld;
    SafeBegin(items, limits, world);
  }

  /** What a checkpoint of Item `l` does to its Assignments, and to the counts. */
  ghost predicate IsStep(
    item: Item, limits: map<int, int>, desired: set<int>, before: set<Asn>, check: ItemCheck,
    from: (map<int, int>, map<int, int>), to: (map<int, int>, map<int, int>))
  {
    var after := ApplyOps(before, check.ops);
    && KeysAreDistinct(check.ops) && AreGuarded(check.ops, check.cmps, before, Members(after))
    && IsSafe(before, after, item.consistent, item.r, limits, from.0)
    && Counted(limits, from.0, to.0, Members(after), Members(before))
    && Counted(limits, from.1, to.1, Primaries(after), Primaries(before))
    && IsTowards(before, after, desired)
  }

  lemma TraceSnoc(
    items: seq<Item>, limits: map<int, int>, desired: seq<Desired>, world: World, checks: seq<ItemCheck>,
    worlds: seq<World>, counts: seq<(map<int, int>, map<int, int>)>, check: ItemCheck,
    to: (map<int, int>, map<int, int>))
    requires IsTrace(items, limits, desired, world, checks, worlds, counts) && |checks| < |items|
    requires var l := |checks|; IsStep(items[l], limits, DesiredOf(desired, l), world[l], check, counts[l], to)
    ensures var l := |checks|;
            var next := worlds[l][l := ApplyOps(worlds[l][l], check.ops)];
            IsTrace(items, limits, desired, world, checks + [check], worlds + [next], counts + [to])
  {
    hide IsSafeWorld, Recounts, Counted, MembersIn, PrimariesIn, Members, Primaries, IsTowards, IsSafe;
    hide KeysAreDistinct, ApplyOps, IsNext, DesiredOf, AreGuarded;
    var l := |checks|;
    var now, after := worlds[l], ApplyOps(worlds[l][l], check.ops);
    SafeStep(items, limits, counts[l].0, world, now, l, after);
    RecountWorld(limits, counts[l].0, to.0, counts[l].1, to.1, now, l, after);
    NextSnoc(worlds, checks, check);
  }

  /**
   * Walk Items, joined with their current and desired Assignments, and remove dead Assignments in between. The world is
   * safe after every prefix of checkpoints, is moved towards what is desired, and counts are a recount of it
   * throughout. As counts change from one Item to the next, so does the order of Members by their load. `dead` are the
   * checkpoints before each Item, and after the last.
   */
  method Converge(
    global: GlobalState, items: seq<Item>, compare: LeftJoin.Compare, assignments: seq<Asn>, ids: seq<int>,
    desired: seq<Desired>, load: nat -> Asn -> real, primaryLoad: nat -> Asn -> real, ghost world: World)
    returns (checks: seq<ItemCheck>, dead: seq<seq<DeadAssignments.Check>>, ghost gaps: seq<(nat, nat)>,
             ghost worlds: seq<World>, ghost counts: seq<(map<int, int>, map<int, int>)>)
    requires LeftJoin.IsOrdered(compare, |items|, |assignments|) && |world| == |items| && |ids| == |assignments|
    requires LeftJoin.LeftIsUnique(compare, |items|, |assignments|)
    requires IsWorld(compare, assignments, world) && RangesAreValid(compare, |items|, assignments)
    requires DesiredIsOrdered(desired, |items|, global.limits)
    requires global.Valid() && AreCounts(global.limits, (global.total, global.primary), world)
    modifies global
    ensures |checks| == |items| && IsTrace(items, global.limits, desired, world, checks, worlds, counts)
    ensures counts[|items|] == (global.total, global.primary)
    ensures |dead| == |gaps| == |items| + 1
    ensures forall g :: 0 <= g <= |items| ==> RemovesGap(ids, dead[g], gaps[g])
    ensures forall r: nat :: r < |ids| ==> (LeftJoin.IsDead(compare, |items|, r) <==> LeftJoin.IsInGap(gaps, r))
  {
    hide IsSafeWorld, Recounts, Counted, MembersIn, PrimariesIn, Members, Primaries, IsTowards, IsSafe;
    hide KeysAreDistinct, ApplyOps, IsNext, DeadAssignments.Removals, IsTrace, AreCounts, AreGuarded;
    hide LeftJoin.IsOrdered, LeftJoin.LeftIsUnique, LeftJoin.IsEqualRange, LeftJoin.IsDead, LeftJoin.IsInGap;
    hide DesiredOf, DesiredIsOrdered, Set, IsValidRange, Ascending;
    var state := new ItemState(global);
    var rows, between := LeftJoin.Partition(|items|, |assignments|, compare);
    gaps := between;
    checks, dead := [], [];
    worlds, counts := [world], [(global.total, global.primary)];
    var j := 0;
    TraceBegin(items, global.limits, desired, world, (global.total, global.primary));
    WalkedNone(desired);
    for l := 0 to |items|
      invariant fresh(state) && state.global == global && global.Valid()
      invariant |checks| == |dead| == l && |worlds| == |counts| == l + 1 && |worlds[l]| == |items|
      invariant counts[l] == (global.total, global.primary)
      invariant IsTrace(items, global.limits, desired, world, checks, worlds, counts)
      invariant forall g :: 0 <= g < l ==> RemovesGap(ids, dead[g], gaps[g])
      invariant WalkedDesired(desired, j, l)
    {
      GapIsWithin(compare, |assignments|, rows, between, l);
      var removals := DeadAssignments.RemoveDead(ids, between[l].0, between[l].1);
      dead := dead + [removals];
      var cur := rows[l];
      var limit := LeadingOf(desired, j, l);
      DesiredSlice(desired, |items|, global.limits, j, limit, l);
      var current := assignments[cur.rightBegin..cur.rightEnd];
      assert world[l] == Set(current);
      var wanted := MembersOfDesired(desired[j..limit]);
      var check := ConvergeItem(state, items[l], current, wanted, load(l), primaryLoad(l));
      ghost var to := (global.total, global.primary);
      assert IsStep(items[l], global.limits, DesiredOf(desired, l), world[l], check, counts[l], to);
      TraceSnoc(items, global.limits, desired, world, checks, worlds, counts, check, to);
      ghost var next := worlds[l][l := ApplyOps(worlds[l][l], check.ops)];
      checks, worlds, counts := checks + [check], worlds + [next], counts + [to];
      j := limit;
    }
    GapIsWithin(compare, |assignments|, rows, between, |items|);
    var removals := DeadAssignments.RemoveDead(ids, between[|items|].0, between[|items|].1);
    dead := dead + [removals];
  }

  lemma GapIsWithin(compare: LeftJoin.Compare, lenR: nat, rows: seq<LeftJoin.Cursor>, gaps: seq<(nat, nat)>, g: nat)
    requires g <= |rows| && |gaps| == |rows| + 1
    requires forall l :: 0 <= l < |rows| ==> LeftJoin.IsRow(compare, lenR, rows[l], l)
    requires forall k :: 0 <= k <= |rows| ==> LeftJoin.IsGap(lenR, rows, gaps[k], k)
    ensures gaps[g].0 <= gaps[g].1 <= lenR
    ensures g < |rows| ==> rows[g].rightBegin <= rows[g].rightEnd <= lenR
                           && LeftJoin.IsEqualRange(compare, lenR, g, rows[g].rightBegin, rows[g].rightEnd)
  {
    assert LeftJoin.IsGap(lenR, rows, gaps[g], g);
    if g < |rows| {
      assert LeftJoin.IsRow(compare, lenR, rows[g], g);
    }
  }

  lemma WalkedNone(desired: seq<Desired>)
    ensures WalkedDesired(desired, 0, 0)
  {
  }

  /** The leading entries, from `j` on, which are of Item `l`. */
  method LeadingOf(desired: seq<Desired>, j: nat, l: nat) returns (limit: nat)
    requires j <= |desired|
    ensures j <= limit <= |desired| && (forall i :: j <= i < limit ==> desired[i].item == l)
    ensures limit < |desired| ==> desired[limit].item != l
  {
    limit := j;
    while limit != |desired| && desired[limit].item == l
      invariant j <= limit <= |desired| && forall i :: j <= i < limit ==> desired[i].item == l
    {
      limit := limit + 1;
    }
  }
}

/**
 * One round of the allocator (v2/pkg/allocator/allocator.go): observed Assignments are converged to desired ones, dead
 * ones are removed, and the checkpoints are committed to Etcd in batched transactions, any of which may fail.
 */
module Allocate {
  import opened ItemPlan
  import opened ItemState
  import opened Converge
  import B = BatchedTxn
  import D = DeadAssignments
  import LeftJoin

  // ---------------------------------------------------------------------------
  // Checkpoints

  /** A checkpoint of the Item at an index, or one which removes dead Assignments. */
  datatype Step = OfItem(item: nat) | OfDead(check: D.Check)

  function AppendDead(steps: seq<Step>, dead: seq<D.Check>): seq<Step> {
    if dead == [] then steps else AppendDead(steps, dead[..|dead| - 1]) + [OfDead(dead[|dead| - 1])]
  }

  /** The steps up to Item `n`: dead Assignments in front of an Item are removed first. */
  function StepsTo(dead: seq<seq<D.Check>>, n: nat): seq<Step>
    requires n <= |dead|
  {
    if n == 0 then [] else AppendDead(StepsTo(dead, n - 1), dead[n - 1]) + [OfItem(n - 1)]
  }

  function AllSteps(dead: seq<seq<D.Check>>): seq<Step>
    requires dead != []
  {
    AppendDead(StepsTo(dead, |dead| - 1), dead[|dead| - 1])
  }

  function ItemsIn(steps: seq<Step>): nat {
    if steps == [] then 0 else ItemsIn(steps[..|steps| - 1]) + if steps[|steps| - 1].OfItem? then 1 else 0
  }

  function DeletedBy(steps: seq<Step>): set<nat> {
    if steps == [] then {} else
      DeletedBy(steps[..|steps| - 1])
      + match steps[|steps| - 1] case OfItem(_) => {} case OfDead(c) => set r | r in c.deletes
  }

  /** Items are stepped through in order. */
  ghost predicate AreInOrder(steps: seq<Step>) {
    forall i :: 0 <= i < |steps| && steps[i].OfItem? ==> steps[i].item == ItemsIn(steps[..i])
  }

  lemma Snoc(steps: seq<Step>, s: Step)
    ensures ItemsIn(steps + [s]) == ItemsIn(steps) + if s.OfItem? then 1 else 0
    ensures DeletedBy(steps + [s]) == DeletedBy(steps) + if s.OfItem? then {} else set r | r in s.check.deletes
    ensures AreInOrder(steps) && (s.OfItem? ==> s.item == ItemsIn(steps)) ==> AreInOrder(steps + [s])
  {
    var t := steps + [s];
    assert t[..|steps|] == steps;
    if AreInOrder(steps) && (s.OfItem? ==> s.item == ItemsIn(steps)) {
      forall i | 0 <= i < |t| && t[i].OfItem? ensures t[i].item == ItemsIn(t[..i]) {
        assert i < |steps| ==> t[..i] == steps[..i];
      }
    }
  }

  lemma {:induction false} DeadAppended(steps: seq<Step>, dead: seq<D.Check>)
    requires AreInOrder(steps)
    ensures var t := AppendDead(steps, dead);
            && AreInOrder(t) && ItemsIn(t) == ItemsIn(steps)
            && DeletedBy(t) == DeletedBy(steps) + set r | r in D.DeletesOf(dead)
  {
    hide AreInOrder, ItemsIn, DeletedBy;
    if dead != [] {
      var init, last := dead[..|dead| - 1], dead[|dead| - 1];
      DeadAppended(steps, init);
      Snoc(AppendDead(steps, init), OfDead(last));
      DeletesSnoc(init, last);
      assert dead == init + [last];
    }
  }

  lemma {:induction false} DeletesSnoc(checks: seq<D.Check>, c: D.Check)
    ensures D.DeletesOf(checks + [c]) == D.DeletesOf(checks) + c.deletes
  {
    if checks == [] {
      assert [c][1..] == [];
    } else {
      DeletesSnoc(checks[1..], c);
      assert (checks + [c])[1..] == checks[1..] + [c];
    }
  }

  lemma {:induction false} StepsAreInOrder(dead: seq<seq<D.Check>>, n: nat)
    requires n <= |dead|
    ensures AreInOrder(StepsTo(dead, n)) && ItemsIn(StepsTo(dead, n)) == n
  {
    hide AreInOrder, DeletedBy;
    if n == 0 {
      NoSteps();
    } else {
      StepsAreInOrder(dead, n - 1);
      DeadAppended(StepsTo(dead, n - 1), dead[n - 1]);
      Snoc(AppendDead(StepsTo(dead, n - 1), dead[n - 1]), OfItem(n - 1));
    }
  }

  lemma NoSteps()
    ensures AreInOrder([]) && ItemsIn([]) == 0 && DeletedBy([]) == {}
  {
  }

  /** Steps up to Item `n` delete exactly what lies in the leading gaps. */
  lemma {:induction false} DeletedTo(ids: seq<int>, dead: seq<seq<D.Check>>, gaps: seq<(nat, nat)>, n: nat, r: nat)
    requires n <= |dead| == |gaps| && forall g :: 0 <= g < n ==> RemovesGap(ids, dead[g], gaps[g])
    ensures r in DeletedBy(StepsTo(dead, n)) <==> LeftJoin.IsInGap(gaps[..n], r)
  {
    hide AreInOrder, ItemsIn, DeletedBy;
    if n == 0 {
      NoSteps();
    } else {
      DeletedTo(ids, dead, gaps, n - 1, r);
      StepsAreInOrder(dead, n - 1);
      DeadAppended(StepsTo(dead, n - 1), dead[n - 1]);
      Snoc(AppendDead(StepsTo(dead, n - 1), dead[n - 1]), OfItem(n - 1));
      GapIsDeleted(ids, dead[n - 1], gaps[n - 1], r);
      InLeadingGap(gaps, n, r);
    }
  }

  lemma GapIsDeleted(ids: seq<int>, checks: seq<D.Check>, gap: (nat, nat), r: nat)
    requires RemovesGap(ids, checks, gap)
    ensures r in D.DeletesOf(checks) <==> gap.0 <= r < gap.1
  {
    D.RemovalsDeleteAll(ids, gap.0, gap.1);
    var all := D.Indices(gap.0, gap.1);
    hide D.Removals, D.DeletesOf;
    if gap.0 <= r < gap.1 {
      assert all[r - gap.0] == r;
    }
  }

  lemma InLeadingGap(gaps: seq<(nat, nat)>, n: nat, r: nat)
    requires 0 < n <= |gaps|
    ensures LeftJoin.IsInGap(gaps[..n], r) <==>
            LeftJoin.IsInGap(gaps[..n - 1], r) || gaps[n - 1].0 <= r < gaps[n - 1].1
  {
    if LeftJoin.IsInGap(gaps[..n - 1], r) {
      var g :| 0 <= g < n - 1 && gaps[..n - 1][g].0 <= r < gaps[..n - 1][g].1;
      assert gaps[..n][g] == gaps[g];
    }
    if LeftJoin.IsInGap(gaps[..n], r) {
      var g :| 0 <= g < n && gaps[..n][g].0 <= r < gaps[..n][g].1;
      assert g < n - 1 ==> gaps[..n - 1][g] == gaps[g];
    }
    if gaps[n - 1].0 <= r < gaps[n - 1].1 {
      assert gaps[..n][n - 1] == gaps[n - 1];
    }
  }

  /** All steps visit each Item, and delete exactly what lies in a gap. */
  lemma AllStepsMeaning(ids: seq<int>, dead: seq<seq<D.Check>>, gaps: seq<(nat, nat)>)
    requires 0 < |dead| == |gaps| && forall g :: 0 <= g < |gaps| ==> RemovesGap(ids, dead[g], gaps[g])
    ensures var steps := AllSteps(dead);
            && AreInOrder(steps) && ItemsIn(steps) == |dead| - 1
            && forall r: nat :: r in DeletedBy(steps) <==> LeftJoin.IsInGap(gaps, r)
  {
    hide AreInOrder, ItemsIn, DeletedBy, StepsTo, RemovesGap, LeftJoin.IsInGap;
    var n := |dead| - 1;
    StepsAreInOrder(dead, n);
    DeadAppended(StepsTo(dead, n), dead[n]);
    forall r: nat ensures r in DeletedBy(AllSteps(dead)) <==> LeftJoin.IsInGap(gaps, r) {
      DeletedTo(ids, dead, gaps, n, r);
      GapIsDeleted(ids, dead[n], gaps[n], r);
      InLeadingGap(gaps, n + 1, r);
      assert gaps[..n + 1] == gaps;
    }
  }

  // ---------------------------------------------------------------------------
  // Transactions

  function TaggedCmps(l: nat, cmps: seq<Cmp>): (t: seq<B.Cmp>)
    ensures |t| == |cmps| && forall i :: 0 <= i < |cmps| ==> t[i] == B.CmpOf(l, cmps[i])
  {
    seq(|cmps|, i requires 0 <= i < |cmps| => B.CmpOf(l, cmps[i]))
  }

  function TaggedOps(l: nat, ops: seq<Op>): (t: seq<B.Op>)
    ensures |t| == |ops| && forall i :: 0 <= i < |ops| ==> t[i] == B.OpOf(l, ops[i])
  {
    seq(|ops|, i requires 0 <= i < |ops| => B.OpOf(l, ops[i]))
  }

  function DeadCmps(cmps: seq<D.Cmp>): (t: seq<B.Cmp>)
    ensures |t| == |cmps| && forall i :: 0 <= i < |cmps| ==> t[i] == B.CmpOfDead(cmps[i])
  {
    seq(|cmps|, i requires 0 <= i < |cmps| => B.CmpOfDead(cmps[i]))
  }

  function DeadOps(deletes: seq<nat>): (t: seq<B.Op>)
    ensures |t| == |deletes| && forall i :: 0 <= i < |deletes| ==> t[i] == B.DeleteDead(deletes[i])
  {
    seq(|deletes|, i requires 0 <= i < |deletes| => B.DeleteDead(deletes[i]))
  }

  /** A step's checkpoint, as the transaction is given it. */
  function CheckOf(checks: seq<ItemCheck>, s: Step): B.Check {
    match s
    case OfItem(l) =>
      if l < |checks| then B.Check(TaggedCmps(l, checks[l].cmps), TaggedOps(l, checks[l].ops)) else B.Check([], [])
    case OfDead(c) => B.Check(DeadCmps(c.cmps), DeadOps(c.deletes))
  }

  function ChecksOf(checks: seq<ItemCheck>, steps: seq<Step>): (t: seq<B.Check>)
    ensures |t| == |steps| && forall i :: 0 <= i < |steps| ==> t[i] == CheckOf(checks, steps[i])
  {
    seq(|steps|, i requires 0 <= i < |steps| => CheckOf(checks, steps[i]))
  }

  // ---------------------------------------------------------------------------
  // What Etcd holds

  /** The Assignments of all Items, and the dead ones. */
  datatype Etcd = Etcd(world: World, dead: set<nat>)

  function ApplyTagged(e: Etcd, op: B.Op): Etcd {
    match op
    case OpOf(l, o) => if l < |e.world| then e.(world := e.world[l := ApplyOp(e.world[l], o)]) else e
    case DeleteDead(r) => e.(dead := e.dead - {r})
  }

  function ApplyAll(e: Etcd, ops: seq<B.Op>): Etcd {
    if ops == [] then e else ApplyTagged(ApplyAll(e, ops[..|ops| - 1]), ops[|ops| - 1])
  }

  lemma {:induction false} ApplyAllConcat(e: Etcd, a: seq<B.Op>, b: seq<B.Op>)
    ensures ApplyAll(e, a + b) == ApplyAll(ApplyAll(e, a), b)
    decreases |b|
  {
    if b == [] {
      assert a + b == a;
    } else {
      assert (a + b)[..|a + b| - 1] == a + b[..|b| - 1];
      ApplyAllConcat(e, a, b[..|b| - 1]);
    }
  }

  /** Operations of one Item's checkpoint change just that Item. */
  lemma {:induction false} ApplyOfItem(e: Etcd, l: nat, ops: seq<Op>)
    requires l < |e.world|
    ensures ApplyAll(e, TaggedOps(l, ops)) == e.(world := e.world[l := ApplyOps(e.world[l], ops)])
  {
    if ops == [] {
      assert e.world[l := e.world[l]] == e.world;
    } else {
      var init := ops[..|ops| - 1];
      ApplyOfItem(e, l, init);
      assert TaggedOps(l, ops)[..|ops| - 1] == TaggedOps(l, init);
    }
  }

  lemma {:induction false} ApplyOfDead(e: Etcd, deletes: seq<nat>)
    ensures ApplyAll(e, DeadOps(deletes)) == e.(dead := e.dead - set r | r in deletes)
  {
    if deletes == [] {
      assert e.dead - {} == e.dead;
    } else {
      var init := deletes[..|deletes| - 1];
      ApplyOfDead(e, init);
      assert DeadOps(deletes)[..|deletes| - 1] == DeadOps(init);
      assert deletes == init + [deletes[|deletes| - 1]];
    }
  }

  lemma NoOps(e: Etcd)
    ensures ApplyAll(e, B.OpsOf([])) == e
  {
  }

  /** Committing a step leads on from the world of its Item, or deletes dead Assignments. */
  lemma ApplyOfStep(e: Etcd, worlds: seq<World>, checks: seq<ItemCheck>, s: Step, k: nat)
    requires |worlds| == |checks| + 1 && k <= |checks| && e.world == worlds[k]
    requires s.OfItem? ==> s.item == k < |checks| && IsNext(worlds, checks, k)
    ensures ApplyAll(e, CheckOf(checks, s).ops) ==
            match s
            case OfItem(l) => e.(world := worlds[k + 1])
            case OfDead(c) => e.(dead := e.dead - set r | r in c.deletes)
  {
    hide ApplyAll, KeysAreDistinct, ApplyOps;
    match s
    case OfItem(l) => ApplyOfItem(e, l, checks[l].ops);
    case OfDead(c) => ApplyOfDead(e, c.deletes);
  }

  /** Committing the first `n` checkpoints leads to the world of the Items among them, less what they delete. */
  lemma {:induction false} PrefixLeadsTo(
    worlds: seq<World>, checks: seq<ItemCheck>, steps: seq<Step>, dead: set<nat>, n: nat)
    requires |worlds| == |checks| + 1 && forall k :: 0 <= k < |checks| ==> IsNext(worlds, checks, k)
    requires n <= |steps| && AreInOrder(steps) && ItemsIn(steps) == |checks|
    ensures ItemsIn(steps[..n]) <= |checks|
    ensures ApplyAll(Etcd(worlds[0], dead), B.OpsOf(ChecksOf(checks, steps)[..n]))
         == Etcd(worlds[ItemsIn(steps[..n])], dead - DeletedBy(steps[..n]))
  {
    hide ApplyAll, IsNext, CheckOf, DeletedBy, ItemsIn;
    var all, start := ChecksOf(checks, steps), Etcd(worlds[0], dead);
    ItemsInPrefix(steps, n);
    if n == 0 {
      assert all[..0] == [] && steps[..0] == [];
      NoOps(start);
      NoSteps();
      assert dead - {} == dead;
    } else {
      PrefixLeadsTo(worlds, checks, steps, dead, n - 1);
      assert all[..n] == all[..n - 1] + [all[n - 1]];
      B.GroupSnoc(all[..n - 1], all[n - 1]);
      ApplyAllConcat(start, B.OpsOf(all[..n - 1]), all[n - 1].ops);
      assert steps[..n] == steps[..n - 1] + [steps[n - 1]];
      Snoc(steps[..n - 1], steps[n - 1]);
      var e := ApplyAll(start, B.OpsOf(all[..n - 1]));
      ApplyOfStep(e, worlds, checks, steps[n - 1], ItemsIn(steps[..n - 1]));
    }
  }

  lemma {:induction false} ItemsInPrefix(steps: seq<Step>, n: nat)
    requires n <= |steps|
    ensures ItemsIn(steps[..n]) <= ItemsIn(steps)
    decreases |steps| - n
  {
    if n == |steps| {
      assert steps[..n] == steps;
    } else {
      assert steps[..n + 1] == steps[..n] + [steps[n]];
      Snoc(steps[..n], steps[n]);
      ItemsInPrefix(steps, n + 1);
    }
  }

  // ---------------------------------------------------------------------------
  // What guards operations in Etcd

  /**
   * An operation is issued beside comparisons which guard it. A deleted Assignment was observed and is unchanged, and
   * so is the Item if its Member loses the Item; the Member of a new Assignment is unchanged; and a dead Assignment is
   * unchanged, and its Item doesn't exist.
   */
  ghost predicate IsGuardedIn(op: B.Op, cmps: seq<B.Cmp>, world: World, after: World, ids: seq<int>) {
    match op
    case DeleteDead(r) => r < |ids| && B.CmpOfDead(D.NoItem(ids[r])) in cmps && B.CmpOfDead(D.AsnUnchanged(r)) in cmps
    case OpOf(l, o) =>
      && l < |world| == |after|
      && match o
         case Put(a) => a.member !in Members(world[l]) ==> B.CmpOf(l, MemberUnchanged(a.member)) in cmps
         case Delete(a) =>
           && a in world[l] && B.CmpOf(l, AsnUnchanged(a)) in cmps
           && (a.member !in Members(after[l]) ==> B.CmpOf(l, ItemUnchanged) in cmps)
  }

  lemma TaggedHas(l: nat, cmps: seq<Cmp>, c: Cmp)
    requires c in cmps
    ensures B.CmpOf(l, c) in TaggedCmps(l, cmps)
  {
    var i :| 0 <= i < |cmps| && cmps[i] == c;
    assert TaggedCmps(l, cmps)[i] == B.CmpOf(l, c);
  }

  lemma DeadHas(cmps: seq<D.Cmp>, c: D.Cmp)
    requires c in cmps
    ensures B.CmpOfDead(c) in DeadCmps(cmps)
  {
    var i :| 0 <= i < |cmps| && cmps[i] == c;
    assert DeadCmps(cmps)[i] == B.CmpOfDead(c);
  }

  /** Operations of an Item's checkpoint are guarded by its comparisons. */
  lemma ItemOpIsGuarded(check: ItemCheck, l: nat, op: B.Op, cmps: seq<B.Cmp>, world: World, after: World, ids: seq<int>)
    requires l < |world| == |after| && AreGuarded(check.ops, check.cmps, world[l], Members(after[l]))
    requires op in TaggedOps(l, check.ops) && forall c :: c in TaggedCmps(l, check.cmps) ==> c in cmps
    ensures IsGuardedIn(op, cmps, world, after, ids)
  {
    hide Members, TaggedCmps;
    assert op.OpOf? && op.item == l && op.op in check.ops;
    assert IsGuarded(op.op, check.cmps, world[l], Members(after[l]));
    match op.op
    case Put(a) =>
      if a.member !in Members(world[l]) {
        TaggedHas(l, check.cmps, MemberUnchanged(a.member));
      }
    case Delete(a) =>
      TaggedHas(l, check.cmps, AsnUnchanged(a));
      if a.member !in Members(after[l]) {
        TaggedHas(l, check.cmps, ItemUnchanged);
      }
  }

  lemma DeadOpIsGuarded(c: D.Check, op: B.Op, cmps: seq<B.Cmp>, world: World, after: World, ids: seq<int>)
    requires D.IsGuarded(ids, c) && op in DeadOps(c.deletes) && forall x :: x in DeadCmps(c.cmps) ==> x in cmps
    ensures IsGuardedIn(op, cmps, world, after, ids)
  {
    hide DeadCmps;
    var i :| 0 <= i < |c.deletes| && DeadOps(c.deletes)[i] == op;
    DeadHas(c.cmps, D.NoItem(ids[c.deletes[0]]));
    DeadHas(c.cmps, D.AsnUnchanged(c.deletes[i]));
  }

  /** Steps which remove dead Assignments are those of some gap. */
  lemma {:induction false} AppendedDead(steps: seq<Step>, dead: seq<D.Check>, s: Step)
    requires s in AppendDead(steps, dead)
    ensures s in steps || (s.OfDead? && s.check in dead)
  {
    if dead != [] && s != OfDead(dead[|dead| - 1]) {
      AppendedDead(steps, dead[..|dead| - 1], s);
    }
  }

  lemma {:induction false} StepIsOfGap(dead: seq<seq<D.Check>>, n: nat, s: Step)
    requires n <= |dead| && s in StepsTo(dead, n) && s.OfDead?
    ensures exists g :: 0 <= g < n && s.check in dead[g]
  {
    AppendedDead(StepsTo(dead, n - 1), dead[n - 1], s);
    if s in StepsTo(dead, n - 1) {
      StepIsOfGap(dead, n - 1, s);
    }
  }

  lemma DeadStepIsGuarded(ids: seq<int>, dead: seq<seq<D.Check>>, gaps: seq<(nat, nat)>, s: Step)
    requires 0 < |dead| == |gaps| && forall g :: 0 <= g < |gaps| ==> RemovesGap(ids, dead[g], gaps[g])
    requires s in AllSteps(dead) && s.OfDead?
    ensures D.IsGuarded(ids, s.check)
  {
    hide StepsTo, D.IsGuarded, D.Removals;
    var n := |dead| - 1;
    AppendedDead(StepsTo(dead, n), dead[n], s);
    if s in StepsTo(dead, n) {
      StepIsOfGap(dead, n, s);
    }
    var g :| 0 <= g <= n && s.check in dead[g];
    var i :| 0 <= i < |dead[g]| && dead[g][i] == s.check;
    D.RemovalsAreGuarded(ids, gaps[g].0, gaps[g].1, i);
  }

  /** The checkpoint of an Item is the only one to change it. */
  lemma {:induction false} ItemIsStepped(worlds: seq<World>, checks: seq<ItemCheck>, l: nat, k: nat)
    requires |worlds| == |checks| + 1 && l < k <= |checks|
    requires forall i :: 0 <= i < |checks| ==> IsNext(worlds, checks, i)
    ensures l < |worlds[l]| && l < |worlds[l + 1]| && l < |worlds[k]| && worlds[k][l] == worlds[l + 1][l]
  {
    hide KeysAreDistinct, ApplyOps, AreGuarded;
    assert IsNext(worlds, checks, k - 1);
    if l + 1 < k {
      ItemIsStepped(worlds, checks, l, k - 1);
    }
  }

  lemma StartIsKept(items: seq<Item>, limits: map<int, int>, start: World, now: World, k: nat)
    requires IsSafeWorld(items, limits, start, now, k)
    ensures |now| == |start| == |items| && forall l :: k <= l < |items| ==> now[l] == start[l]
  {
    hide MembersIn, Tally, IsSafeItem;
  }

  lemma TraceLength(
    items: seq<Item>, limits: map<int, int>, desired: seq<Desired>, world: World, checks: seq<ItemCheck>,
    worlds: seq<World>, counts: seq<(map<int, int>, map<int, int>)>)
    requires IsTrace(items, limits, desired, world, checks, worlds, counts)
    ensures |worlds| == |checks| + 1
  {
    hide IsNext, IsSafeWorld, AreCounts, IsTowards;
  }

  /** Operations of an Item are guarded by what was observed, and by its Members of any later world. */
  lemma TraceIsGuarded(
    items: seq<Item>, limits: map<int, int>, desired: seq<Desired>, world: World, checks: seq<ItemCheck>,
    worlds: seq<World>, counts: seq<(map<int, int>, map<int, int>)>, l: nat, k: nat)
    requires IsTrace(items, limits, desired, world, checks, worlds, counts) && l < k <= |checks| == |items|
    ensures |worlds| == |checks| + 1 && |worlds[k]| == |world| == |items|
    ensures AreGuarded(checks[l].ops, checks[l].cmps, world[l], Members(worlds[k][l]))
  {
    hide AreGuarded, KeysAreDistinct, ApplyOps, AreCounts, IsTowards, IsSafeWorld, Members;
    ItemIsStepped(worlds, checks, l, k);
    assert IsNext(worlds, checks, l);
    StartIsKept(items, limits, world, worlds[l], l);
    StartIsKept(items, limits, world, worlds[k], k);
  }

  /** A step of an Item within a prefix is of one of those which the prefix steps through. */
  lemma ItemIsAmong(steps: seq<Step>, i: nat, n: nat)
    requires i < n <= |steps| && AreInOrder(steps) && steps[i].OfItem?
    ensures steps[i].item < ItemsIn(steps[..n])
  {
    assert steps[..i + 1] == steps[..i] + [steps[i]];
    Snoc(steps[..i], steps[i]);
    assert steps[..n][..i + 1] == steps[..i + 1];
    ItemsInPrefix(steps[..n], i + 1);
  }

  /** Each committed step is guarded. */
  lemma StepIsGuarded(
    items: seq<Item>, limits: map<int, int>, desired: seq<Desired>, world: World, checks: seq<ItemCheck>,
    worlds: seq<World>, counts: seq<(map<int, int>, map<int, int>)>, steps: seq<Step>, n: nat, i: nat,
    ids: seq<int>, op: B.Op, cmps: seq<B.Cmp>)
    requires IsTrace(items, limits, desired, world, checks, worlds, counts) && |checks| == |items|
    requires i < n <= |steps| && AreInOrder(steps) && ItemsIn(steps) == |checks|
    requires steps[i].OfDead? ==> D.IsGuarded(ids, steps[i].check)
    requires op in CheckOf(checks, steps[i]).ops && forall c :: c in CheckOf(checks, steps[i]).cmps ==> c in cmps
    ensures ItemsIn(steps[..n]) <= |checks| && |worlds| == |checks| + 1
    ensures IsGuardedIn(op, cmps, world, worlds[ItemsIn(steps[..n])], ids)
  {
    hide IsTrace, IsGuardedIn, D.IsGuarded, ItemsIn, AreGuarded, AreInOrder, TaggedOps, TaggedCmps, DeadOps, DeadCmps;
    TraceLength(items, limits, desired, world, checks, worlds, counts);
    ItemsInPrefix(steps, n);
    var k := ItemsIn(steps[..n]);
    match steps[i]
    case OfDead(c) => DeadOpIsGuarded(c, op, cmps, world, worlds[k], ids);
    case OfItem(l) =>
      ItemIsAmong(steps, i, n);
      TraceIsGuarded(items, limits, desired, world, checks, worlds, counts, l, k);
      ItemOpIsGuarded(checks[l], l, op, cmps, world, worlds[k], ids);
  }

  /** Each operation of each transaction is guarded by comparisons of that transaction. */
  ghost predicate TxnsAreGuarded(txns: seq<B.Txn>, world: World, after: World, ids: seq<int>) {
    forall t, op :: 0 <= t < |txns| && op in txns[t].ops ==> IsGuardedIn(op, txns[t].cmps, world, after, ids)
  }

  lemma IssuedAreGuarded(
    items: seq<Item>, limits: map<int, int>, desired: seq<Desired>, world: World, checks: seq<ItemCheck>,
    worlds: seq<World>, counts: seq<(map<int, int>, map<int, int>)>, steps: seq<Step>, n: nat, ids: seq<int>,
    fixed: seq<B.Cmp>, txns: seq<B.Txn>, groups: seq<seq<B.Check>>)
    requires IsTrace(items, limits, desired, world, checks, worlds, counts) && |checks| == |items|
    requires n <= |steps| && AreInOrder(steps) && ItemsIn(steps) == |checks|
    requires forall s :: s in steps && s.OfDead? ==> D.IsGuarded(ids, s.check)
    requires B.IsIssue(fixed, txns, groups, ChecksOf(checks, steps), n)
    ensures ItemsIn(steps[..n]) <= |checks| && TxnsAreGuarded(txns, world, worlds[ItemsIn(steps[..n])], ids)
  {
    hide IsTrace, IsGuardedIn, D.IsGuarded, ItemsIn, AreInOrder, B.AllFit, B.IsWithin, B.IssuedAs, B.Flatten, CheckOf;
    ItemsInPrefix(steps, n);
    var k, all := ItemsIn(steps[..n]), ChecksOf(checks, steps);
    TraceLength(items, limits, desired, world, checks, worlds, counts);
    forall t, op | 0 <= t < |txns| && op in txns[t].ops
      ensures IsGuardedIn(op, txns[t].cmps, world, worlds[k], ids)
    {
      var c := B.IssuedWithCmps(fixed, txns[t], groups[t], op);
      B.FlattenHas(groups, t, c);
      var i :| 0 <= i < n && all[..n][i] == c;
      assert steps[i] in steps;
      StepIsGuarded(items, limits, desired, world, checks, worlds, counts, steps, n, i, ids, op, txns[t].cmps);
    }
  }

  // ---------------------------------------------------------------------------
  // A round

  /** Assignments which have no Item. */
  ghost function DeadOf(compare: LeftJoin.Compare, lenL: nat, lenR: nat): set<nat> {
    set r: nat | r < lenR && LeftJoin.IsDead(compare, lenL, r)
  }

  /**
   * A round: observe, converge, and commit. Whichever transaction fails, what Etcd then holds are the Assignments after
   * some number of whole checkpoints. These are safe: no Item has lost replication, and no Member is above its limit,
   * or what it began with. Only dead Assignments are removed as such, and all of them are if no transaction fails. Each
   * operation is issued in one transaction with the comparisons which guard it.
   */
  method AllocateRound(
    limits: map<int, int>, items: seq<Item>, compare: LeftJoin.Compare, assignments: seq<Asn>, ids: seq<int>,
    desired: seq<Desired>, load: nat -> Asn -> real, primaryLoad: nat -> Asn -> real, fixed: seq<B.Cmp>,
    outcome: nat -> B.Outcome, ghost world: World)
    returns (ok: bool, txns: seq<B.Txn>, checks: seq<ItemCheck>, steps: seq<Step>, ghost n: nat)
    requires LeftJoin.IsOrdered(compare, |items|, |assignments|) && |world| == |items| && |ids| == |assignments|
    requires LeftJoin.LeftIsUnique(compare, |items|, |assignments|)
    requires IsWorld(compare, assignments, world) && RangesAreValid(compare, |items|, assignments)
    requires DesiredIsOrdered(desired, |items|, limits) && |fixed| < B.MaxTxnOps
    ensures |checks| == |items| && n <= |steps| && (ok ==> n == |steps|)
    ensures var dead := DeadOf(compare, |items|, |assignments|);
            var after := ApplyAll(Etcd(world, dead), B.OpsIssued(txns));
            && IsSafeWorld(items, limits, world, after.world, ItemsIn(steps[..n]))
            && after.dead == dead - DeletedBy(steps[..n])
            && TxnsAreGuarded(txns, world, after.world, ids)
            && (ok ==> ItemsIn(steps[..n]) == |items| && after.dead == {})
    ensures B.AllFit(fixed, ChecksOf(checks, steps)) ==>
              forall t :: 0 <= t < |txns| ==> |txns[t].cmps| <= B.MaxTxnOps && |txns[t].ops| <= B.MaxTxnOps
    ensures forall t :: 0 <= t < |txns| && txns[t].ops != [] ==> fixed <= txns[t].cmps
    ensures (forall i :: outcome(i) == B.Succeeded) ==> ok
  {
    hide IsSafeWorld, Recounts, MembersIn, PrimariesIn, IsNext, LeftJoin.IsOrdered, LeftJoin.LeftIsUnique;
    hide DesiredIsOrdered, RangesAreValid, IsWorld, IsTowards, ApplyAll, B.IsIssue, B.OpsOf, B.OpsIssued, B.AllFit;
    hide LeftJoin.IsDead, LeftJoin.IsInGap, RemovesGap, AreInOrder, ItemsIn, DeletedBy, AllSteps, TxnsAreGuarded;
    hide D.IsGuarded;
    var global := Observe(limits, |items|, compare, assignments, world);
    ghost var gaps, worlds, counts;
    var dead;
    checks, dead, gaps, worlds, counts :=
      Converge.Converge(global, items, compare, assignments, ids, desired, load, primaryLoad, world);
    steps := AllSteps(dead);
    AllStepsMeaning(ids, dead, gaps);
    ghost var groups;
    ok, txns, groups, n := B.Issue(fixed, ChecksOf(checks, steps), outcome);
    IssueIsWithin(fixed, txns, groups, ChecksOf(checks, steps), n);
    PrefixLeadsTo(worlds, checks, steps, DeadOf(compare, |items|, |assignments|), n);
    forall s | s in steps && s.OfDead? ensures D.IsGuarded(ids, s.check) {
      DeadStepIsGuarded(ids, dead, gaps, s);
    }
    IssuedAreGuarded(items, limits, desired, world, checks, worlds, counts, steps, n, ids, fixed, txns, groups);
    assert steps[..|steps|] == steps;
  }

  lemma IssueIsWithin(fixed: seq<B.Cmp>, txns: seq<B.Txn>, groups: seq<seq<B.Check>>, checks: seq<B.Check>, n: nat)
    requires B.IsIssue(fixed, txns, groups, checks, n)
    ensures n <= |checks|
    ensures B.AllFit(fixed, checks) ==>
              forall t :: 0 <= t < |txns| ==> |txns[t].cmps| <= B.MaxTxnOps && |txns[t].ops| <= B.MaxTxnOps
    ensures forall t :: 0 <= t < |txns| && txns[t].ops != [] ==> fixed <= txns[t].cmps
  {
    hide B.AllFit, B.IsWithin, B.Flatten, B.IssuedAs;
    forall t | 0 <= t < |txns|
      ensures B.AllFit(fixed, checks) ==> |txns[t].cmps| <= B.MaxTxnOps && |txns[t].ops| <= B.MaxTxnOps
      ensures txns[t].ops != [] ==> fixed <= txns[t].cmps
    {
      B.IssuedIsWithin(fixed, txns[t], groups[t]);
    }
  }
}

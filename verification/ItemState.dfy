/**
 * Convergence of one Item's Assignments towards desired ones (v2/pkg/allocator/item_state.go), relative to an
 * observed snapshot. Whether an Assignment is consistent is given by the set of Members for which it is, and load
 * ratios of Members by functions: any ordering which they could give rise to is allowed for.
 */
module ItemState {
  import opened ItemPlan
  import opened ItemOps

  /** Comparisons of a transaction: of the Item, an Assignment or a Member against the snapshot. */
  datatype Cmp = ItemUnchanged | AsnUnchanged(asn: Asn) | MemberUnchanged(member: int)

  /** Known Members with their item limits, and their counts of Assignments. */
  class GlobalState {
    const limits: map<int, int>
    var total: map<int, int>
    var primary: map<int, int>

    constructor (limits: map<int, int>, total: map<int, int>, primary: map<int, int>)
      requires total.Keys == primary.Keys == limits.Keys
      ensures Valid() && this.limits == limits && this.total == total && this.primary == primary
    {
      this.limits, this.total, this.primary := limits, total, primary;
    }

    ghost predicate Valid()
      reads this
    {
      total.Keys == primary.Keys == limits.Keys
    }

    /** Reflect that an Assignment is removed. Its Member may be unknown. */
    method Release(a: Asn)
      requires Valid()
      modifies `total, `primary
      ensures Valid()
      ensures total == LessOne(old(total), a.member, true) && primary == LessOne(old(primary), a.member, a.slot == 0)
    {
      if a.member in limits {
        if a.slot == 0 {
          primary := primary[a.member := primary[a.member] - 1];
        }
        total := total[a.member := total[a.member] - 1];
      }
    }
  }

  /** The checkpoint which is being built. */
  class Checkpoint {
    var cmps: seq<Cmp>
    var ops: seq<Op>

    constructor ()
      ensures cmps == [] && ops == []
    {
      cmps, ops := [], [];
    }

    method If(c: Cmp)
      modifies `cmps
      ensures cmps == old(cmps) + [c]
    {
      cmps := cmps + [c];
    }

    method Then(o: seq<Op>)
      modifies `ops
      ensures ops == old(ops) + o
    {
      ops := ops + o;
    }
  }

  // ---------------------------------------------------------------------------
  // Safety of a checkpoint

  /** At least `r` consistent Assignments are kept where there are so many, and all of them otherwise. */
  ghost predicate KeepsReplication(before: set<Asn>, after: set<Asn>, consistent: set<int>, r: int) {
    if |Members(before) * consistent| < r then Members(before) <= Members(after)
    else |Members(before) * Members(after) * consistent| >= r
  }

  ghost predicate IsSafe(
    before: set<Asn>, after: set<Asn>, consistent: set<int>, r: int, limits: map<int, int>, total: map<int, int>)
  {
    && WellPlaced(after)
    && KeepsReplication(before, after, consistent, r)
    && (Members(before) * Members(after) != {} ==> exists a :: a in after && a.slot == 0)
    && (forall m :: m in Members(after) - Members(before) ==> m in limits && m in total && total[m] < limits[m])
  }

  lemma DeltaIsFresh(current: seq<Asn>, desired: seq<int>, add: seq<Asn>, remove: seq<Asn>, reorder: seq<Asn>)
    requires IsDelta(current, desired, NextSlot(current), add, remove, reorder)
    ensures AreFresh(current, add)
  {
  }

  lemma KeptConsistent(current: set<int>, remove: set<int>, after: set<int>, consistent: set<int>)
    requires remove <= current && after * current == current - remove
    ensures |current * after * consistent| == |current * consistent| - |remove * consistent|
    ensures remove == {} ==> current <= after
  {
    assert current * after == current - remove;
    assert current * after * consistent == current * consistent - remove * consistent;
    assert remove * consistent <= current * consistent;
    forall m | m in current && remove == {}
      ensures m in after
    {
      assert m in current * after;
    }
  }

  lemma RemovedAreMembers(current: seq<Asn>, wanted: seq<Asn>, remove: seq<Asn>)
    requires Set(remove) <= Set(wanted) <= Set(current)
    ensures MembersOf(remove) <= MembersOf(current)
  {
    assert forall a :: a in remove ==> a in Set(remove);
    assert forall a :: a in Set(current) ==> a in current;
  }

  lemma RemovalKeepsReplication(current: seq<Asn>, consistent: set<int>, r: int,
                                wanted: seq<Asn>, remove: seq<Asn>, after: set<Asn>)
    requires Set(wanted) <= Set(current) && RemovalsAllowed(current, consistent, r, wanted, remove)
    requires Members(after) * MembersOf(current) == MembersOf(current) - MembersOf(remove)
    ensures KeepsReplication(Set(current), after, consistent, r)
  {
    hide Members, MembersOf;
    RemovedAreMembers(current, wanted, remove);
    KeptConsistent(MembersOf(current), MembersOf(remove), Members(after), consistent);
    MembersOfSet(current);
    MembersOfEmpty();
  }

  lemma MembersOfEmpty()
    ensures MembersOf([]) == {}
  {
  }

  lemma MembersOfSet(s: seq<Asn>)
    ensures Members(Set(s)) == MembersOf(s)
  {
    assert forall a :: a in s <==> a in Set(s);
  }

  /** A plan with allowed removals, and additions within capacity, is safe. */
  lemma PlanIsSafe(
    current: seq<Asn>, add: seq<Asn>, remove: seq<Asn>, reorder: seq<Asn>, wanted: seq<Asn>,
    consistent: set<int>, r: int, limits: map<int, int>, total: map<int, int>)
    requires IsPlan(current, add, remove, reorder)
    requires Set(wanted) <= Set(current) && RemovalsAllowed(current, consistent, r, wanted, remove)
    requires forall a :: a in add ==> a.member in limits && a.member in total && total[a.member] < limits[a.member]
    ensures IsSafe(Set(current), Outcome(add, remove, reorder), consistent, r, limits, total)
  {
    hide Outcome, WellPlaced, Split, IsOrdered, RemovalsAllowed, Kept, DistinctMembers, SortedBySlot, Members;
    hide NextSlot, KeepsReplication;
    var after := Outcome(add, remove, reorder);
    OutcomeIsWellPlaced(current, add, remove, reorder);
    KeptMembers(current, add, remove, reorder);
    MembersOfSet(current);
    assert Members(after) * MembersOf(current) == MembersOf(current) - MembersOf(remove);
    RemovalKeepsReplication(current, consistent, r, wanted, remove, after);
    MembersOfEmpty();
  }

  lemma LimitReached(current: seq<Asn>, consistent: set<int>, r: int, wanted: seq<Asn>, sorted: seq<Asn>, limit: nat)
    requires DistinctMembers(sorted) && Set(sorted) == Set(wanted) && limit <= |sorted|
    requires var n := |ConsistentOf(current, consistent)| - |ConsistentOf(sorted[..limit], consistent)|;
      && (limit > 0 ==> n >= r) && (limit < |sorted| ==> n <= r) && (limit < |sorted| && n < r ==> limit == 0)
    ensures RemovalsAllowed(current, consistent, r, wanted, sorted[..limit])
  {
    assert Set(sorted[..limit]) <= Set(sorted);
    assert sorted[..|sorted|] == sorted;
    if limit == 0 {
      assert sorted[..0] == [];
      MembersOfEmpty();
    }
  }

  lemma SplitIsDistinct(current: seq<Asn>, remove: seq<Asn>, reorder: seq<Asn>)
    requires Split(current, remove, reorder)
    ensures DistinctMembers(remove) && DistinctMembers(reorder)
  {
  }

  lemma NoneRemoved(s: seq<Asn>, consistent: set<int>)
    ensures |ConsistentOf(s[..0], consistent)| == 0
  {
    assert s[..0] == [];
    MembersOfEmpty();
  }

  lemma SortedIsOrdered(s: seq<Asn>)
    requires SortedBySlot(s) && (s == [] || s[0].slot == 0)
    ensures IsOrdered(s)
  {
  }

  lemma BestOfAll(p: Asn, s: seq<Asn>, t: seq<Asn>, consistent: set<int>, load: Asn -> real)
    requires IsBest(p, s, consistent, load) && Set(s) == Set(t)
    ensures IsBest(p, t, consistent, load)
  {
    assert forall a :: a in t <==> a in Set(t);
  }

  method CountConsistent(s: seq<Asn>, consistent: set<int>) returns (n: nat)
    requires DistinctMembers(s)
    ensures n == |ConsistentOf(s, consistent)|
  {
    hide DistinctMembers, ConsistentOf;
    n := 0;
    NoneRemoved(s, consistent);
    for i := 0 to |s|
      invariant n == |ConsistentOf(s[..i], consistent)|
    {
      ConsistentSnoc(s, i, consistent);
      if s[i].member in consistent {
        n := n + 1;
      }
    }
    assert s[..|s|] == s;
  }

  // ---------------------------------------------------------------------------
  // Steps of building operations

  function AddCmps(add: seq<Asn>): (c: seq<Cmp>)
    ensures |c| == |add| && forall i :: 0 <= i < |add| ==> c[i] == MemberUnchanged(add[i].member)
  {
    seq(|add|, i requires 0 <= i < |add| => MemberUnchanged(add[i].member))
  }

  function RemoveCmps(remove: seq<Asn>): (c: seq<Cmp>)
    ensures forall a :: a in remove ==> AsnUnchanged(a) in c && ItemUnchanged in c
  {
    if remove == [] then [] else
      var init, last := remove[..|remove| - 1], remove[|remove| - 1];
      assert remove == init + [last];
      var c := RemoveCmps(init) + (if init == [] then [ItemUnchanged] else []);
      assert init == [] || ItemUnchanged in c by {
        assert init == [] || init[0] in init;
      }
      c + [AsnUnchanged(last)]
  }

  lemma RemoveCmpsGrows(remove: seq<Asn>, i: nat)
    requires i < |remove|
    ensures RemoveCmps(remove[..i + 1]) ==
            RemoveCmps(remove[..i]) + (if i == 0 then [ItemUnchanged] else []) + [AsnUnchanged(remove[i])]
  {
    assert remove[..i + 1][..i] == remove[..i];
  }

  lemma DeletesGrow(remove: seq<Asn>, i: nat)
    requires i < |remove|
    ensures Deletes(remove[..i + 1]) == Deletes(remove[..i]) + [Delete(remove[i])]
  {
  }

  lemma BeginRemove(remove: seq<Asn>)
    ensures Deletes(remove[..0]) == [] && RemoveCmps(remove[..0]) == []
  {
  }

  /** Comparisons of a move. */
  function Unchanged(ops: seq<Op>): seq<Cmp> {
    if ops == [] then [] else [AsnUnchanged(KeyOf(ops[0]))]
  }

  lemma CountNone(limits: map<int, int>, counts: map<int, int>, s: seq<Asn>)
    requires counts.Keys == limits.Keys
    ensures Counted(limits, counts, counts, MembersOf(s[..0]), {})
            && Counted(limits, counts, counts, {}, MembersOf(s[..0]))
    ensures Counted(limits, counts, counts, Primaries(Set(s[..0])), {})
            && Counted(limits, counts, counts, {}, Primaries(Set(s[..0])))
  {
    assert s[..0] == [];
  }

  lemma PrefixGrows(s: seq<Asn>, i: nat)
    requires DistinctMembers(s) && i < |s|
    ensures s[i].member !in MembersOf(s[..i]) && MembersOf(s[..i + 1]) == MembersOf(s[..i]) + {s[i].member}
    ensures s[i].member !in Primaries(Set(s[..i]))
    ensures s[i].slot == 0 ==> Primaries(Set(s[..i + 1])) == Primaries(Set(s[..i])) + {s[i].member}
    ensures s[i].slot != 0 ==> Primaries(Set(s[..i + 1])) == Primaries(Set(s[..i]))
  {
    assert s[..i + 1] == s[..i] + [s[i]];
    MembersOfSnoc(s[..i], s[i]);
    assert Set(s[..i + 1]) == Set(s[..i]) + {s[i]};
  }

  lemma CountGain(limits: map<int, int>, before: map<int, int>, after: map<int, int>,
                  gained: set<int>, lost: set<int>, m: int)
    requires Counted(limits, before, after, gained, lost) && m in limits && m !in gained
    ensures m in after && Counted(limits, before, after[m := after[m] + 1], gained + {m}, lost)
  {
  }

  lemma CountLoss(limits: map<int, int>, before: map<int, int>, after: map<int, int>,
                  gained: set<int>, lost: set<int>, m: int)
    requires Counted(limits, before, after, gained, lost) && m !in lost
    ensures m in limits ==> m in after && Counted(limits, before, after[m := after[m] - 1], gained, lost + {m})
    ensures m !in limits ==> Counted(limits, before, after, gained, lost + {m})
  {
  }

  function LessOne(counts: map<int, int>, m: int, applies: bool): map<int, int> {
    if m in counts && applies then counts[m := counts[m] - 1] else counts
  }

  lemma CountRemoved(
    limits: map<int, int>, total0: map<int, int>, total: map<int, int>, primary0: map<int, int>, primary: map<int, int>,
    s: seq<Asn>, i: nat)
    requires DistinctMembers(s) && i < |s|
    requires Counted(limits, total0, total, {}, MembersOf(s[..i]))
    requires Counted(limits, primary0, primary, {}, Primaries(Set(s[..i])))
    ensures Counted(limits, total0, LessOne(total, s[i].member, true), {}, MembersOf(s[..i + 1]))
    ensures Counted(limits, primary0, LessOne(primary, s[i].member, s[i].slot == 0), {}, Primaries(Set(s[..i + 1])))
  {
    hide MembersOf, Primaries, DistinctMembers;
    PrefixGrows(s, i);
    CountLoss(limits, total0, total, {}, MembersOf(s[..i]), s[i].member);
    CountLoss(limits, primary0, primary, {}, Primaries(Set(s[..i])), s[i].member);
  }

  function PlanCmps(add: seq<Asn>, remove: seq<Asn>, reorder: seq<Asn>): seq<Cmp> {
    AddCmps(add) + RemoveCmps(remove) + Unchanged(PromoteOps(reorder))
    + (if add == [] && remove == [] then Unchanged(PackOps(reorder)) else [])
  }

  lemma Regroup<T>(s: seq<T>, a: seq<T>, b: seq<T>, c: seq<T>, d: seq<T>)
    ensures s + a + b + c + d == s + (a + b + c + d)
  {
    assert a + b + c + d == a + (b + (c + d));
  }

  lemma PlanOpsAre(add: seq<Asn>, remove: seq<Asn>, reorder: seq<Asn>, o: seq<Op>, c: seq<Cmp>)
    ensures var pack := if add == [] && remove == [] then PackOps(reorder) else [];
      && o + Puts(add) + Deletes(remove) + PromoteOps(reorder) + pack == o + PlanOps(add, remove, reorder)
      && c + AddCmps(add) + RemoveCmps(remove) + Unchanged(PromoteOps(reorder)) + Unchanged(pack) ==
        c + PlanCmps(add, remove, reorder)
  {
    hide Puts, Deletes, PromoteOps, PackOps, AddCmps, RemoveCmps;
    var pack := if add == [] && remove == [] then PackOps(reorder) else [];
    Regroup(o, Puts(add), Deletes(remove), PromoteOps(reorder), pack);
    Regroup(c, AddCmps(add), RemoveCmps(remove), Unchanged(PromoteOps(reorder)), Unchanged(pack));
  }

  lemma NoPackOps()
    ensures Unchanged([]) == []
  {
  }

  lemma WantedAreCurrent(current: seq<Asn>, wanted: seq<Asn>, reorder: seq<Asn>)
    requires SortedByMember(current) && Split(current, wanted, reorder)
    ensures DistinctMembers(current) && Set(wanted) <= Set(current)
  {
  }

  lemma PlanIsDistinct(current: seq<Asn>, add: seq<Asn>, remove: seq<Asn>, reorder: seq<Asn>)
    requires IsPlan(current, add, remove, reorder)
    ensures DistinctMembers(add) && DistinctMembers(remove)
  {
  }

  /** Counts follow what a plan adds, removes and promotes, and thus what it leaves. */
  lemma CountsAgree(
    current: seq<Asn>, add: seq<Asn>, remove: seq<Asn>, reorder: seq<Asn>, limits: map<int, int>,
    t0: map<int, int>, t1: map<int, int>, t2: map<int, int>,
    p0: map<int, int>, p1: map<int, int>, p2: map<int, int>, p3: map<int, int>)
    requires IsPlan(current, add, remove, reorder)
    requires Counted(limits, t0, t1, MembersOf(add), {}) && Counted(limits, t1, t2, {}, MembersOf(remove))
    requires Counted(limits, p0, p1, Primaries(Set(add)), {}) && Counted(limits, p1, p2, {}, Primaries(Set(remove)))
    requires Counted(limits, p2, p3, PromotedMember(reorder), {})
    ensures Counted(limits, t0, t2, Members(Outcome(add, remove, reorder)), Members(Set(current)))
    ensures Counted(limits, p0, p3, Primaries(Outcome(add, remove, reorder)), Primaries(Set(current)))
  {
    hide IsPlan, MembersOf, Members, Primaries, Outcome, PromotedMember, Set;
    MembersOfSet(current);
    forall m | m in limits
      ensures t2[m] == t0[m] + One(m in Members(Outcome(add, remove, reorder))) - One(m in Members(Set(current)))
      ensures p3[m] == p0[m] + One(m in Primaries(Outcome(add, remove, reorder))) - One(m in Primaries(Set(current)))
    {
      TotalsAgree(current, add, remove, reorder, m);
      PrimariesAgree(current, add, remove, reorder, m);
    }
  }

  /**
   * An operation is guarded: a deleted Assignment must be unchanged, as must be the Member of a new Assignment, and
   * the Item of one which is removed.
   */
  ghost predicate IsGuarded(op: Op, cmps: seq<Cmp>, current: set<Asn>, after: set<int>) {
    match op
    case Put(a) => a.member !in Members(current) ==> MemberUnchanged(a.member) in cmps
    case Delete(a) => a in current && AsnUnchanged(a) in cmps && (a.member !in after ==> ItemUnchanged in cmps)
  }

  /** A comparison is of what was observed, or of a Member which is given the Item. */
  ghost predicate IsObserved(c: Cmp, current: set<Asn>, after: set<int>) {
    match c
    case ItemUnchanged => true
    case AsnUnchanged(a) => a in current
    case MemberUnchanged(m) => m in after && m !in Members(current)
  }

  /** Each operation is guarded by comparisons, and there are no others than of what was observed. */
  ghost predicate AreGuarded(ops: seq<Op>, cmps: seq<Cmp>, current: set<Asn>, after: set<int>) {
    && (forall op :: op in ops ==> IsGuarded(op, cmps, current, after))
    && (forall c :: c in cmps ==> IsObserved(c, current, after))
  }

  lemma AddIsGuarded(add: seq<Asn>, cmps: seq<Cmp>, current: set<Asn>, after: set<int>, op: Op)
    requires op in Puts(add) && forall c :: c in AddCmps(add) ==> c in cmps
    ensures IsGuarded(op, cmps, current, after)
  {
    var i :| 0 <= i < |add| && Puts(add)[i] == op;
    assert AddCmps(add)[i] == MemberUnchanged(add[i].member);
  }

  lemma RemoveIsGuarded(remove: seq<Asn>, cmps: seq<Cmp>, current: set<Asn>, after: set<int>, op: Op)
    requires op in Deletes(remove) && Set(remove) <= current && forall c :: c in RemoveCmps(remove) ==> c in cmps
    ensures IsGuarded(op, cmps, current, after)
  {
    hide RemoveCmps;
    var i :| 0 <= i < |remove| && Deletes(remove)[i] == op;
    assert remove[i] in remove && remove[i] in Set(remove);
  }

  lemma MoveIsGuarded(a: Asn, slot: nat, cmps: seq<Cmp>, current: set<Asn>, after: set<int>, op: Op)
    requires a in current && a.member in after && op in MoveOps(a, slot) && AsnUnchanged(a) in cmps
    ensures IsGuarded(op, cmps, current, after)
  {
    assert a.member in Members(current);
  }

  lemma PlanOpIsGuarded(current: seq<Asn>, add: seq<Asn>, remove: seq<Asn>, reorder: seq<Asn>, op: Op)
    requires IsPlan(current, add, remove, reorder) && op in PlanOps(add, remove, reorder)
    ensures IsGuarded(op, PlanCmps(add, remove, reorder), Set(current), Members(Outcome(add, remove, reorder)))
  {
    hide WellPlaced, IsOrdered, AreFresh, DistinctMembers, Outcome, Kept, Members, PlanCmps, AddCmps, RemoveCmps;
    hide IsGuarded, Puts, Deletes;
    OutcomeIsWellPlaced(current, add, remove, reorder);
    var cmps, after := PlanCmps(add, remove, reorder), Members(Outcome(add, remove, reorder));
    CmpsAreIn(add, remove, reorder);
    if op in Puts(add) {
      AddIsGuarded(add, cmps, Set(current), after, op);
    } else if op in Deletes(remove) {
      RemoveIsGuarded(remove, cmps, Set(current), after, op);
    } else {
      var i := if op in PromoteOps(reorder) then 0 else PackIndex(reorder, 1);
      KeptIsCurrent(current, remove, reorder, i);
      KeptMembers(current, add, remove, reorder);
      assert reorder[i] in reorder;
      MoveIsGuarded(reorder[i], i, cmps, Set(current), after, op);
    }
  }

  /** Comparisons of a plan are of current Assignments, and of Members which are added. */
  lemma PlanIsObserved(current: seq<Asn>, add: seq<Asn>, remove: seq<Asn>, reorder: seq<Asn>, c: Cmp)
    requires IsPlan(current, add, remove, reorder) && c in PlanCmps(add, remove, reorder)
    ensures IsObserved(c, Set(current), Members(Outcome(add, remove, reorder)))
  {
    hide WellPlaced, IsOrdered, DistinctMembers, Outcome, Kept, NextSlot, Members, MembersOf;
    OutcomeIsWellPlaced(current, add, remove, reorder);
    KeptMembers(current, add, remove, reorder);
    MembersOfSet(current);
    match c
    case ItemUnchanged =>
    case MemberUnchanged(m) => AddedIsNew(current, add, remove, reorder, m);
    case AsnUnchanged(a) => ComparedIsCurrent(current, add, remove, reorder, a);
  }

  lemma AddedIsNew(current: seq<Asn>, add: seq<Asn>, remove: seq<Asn>, reorder: seq<Asn>, m: int)
    requires IsPlan(current, add, remove, reorder) && MemberUnchanged(m) in PlanCmps(add, remove, reorder)
    ensures m in MembersOf(add) && m !in MembersOf(current)
  {
    hide WellPlaced, IsOrdered, Split, PromoteOps, PackOps;
    NoneOfRemoved(remove, m);
    hide RemoveCmps;
    var i :| 0 <= i < |add| && add[i].member == m;
    assert add[i] in add;
  }

  lemma {:induction false} NoneOfRemoved(remove: seq<Asn>, m: int)
    ensures MemberUnchanged(m) !in RemoveCmps(remove)
  {
    if remove != [] {
      NoneOfRemoved(remove[..|remove| - 1], m);
    }
  }

  lemma ComparedIsCurrent(current: seq<Asn>, add: seq<Asn>, remove: seq<Asn>, reorder: seq<Asn>, a: Asn)
    requires IsPlan(current, add, remove, reorder) && AsnUnchanged(a) in PlanCmps(add, remove, reorder)
    ensures a in Set(current)
  {
    hide WellPlaced, IsOrdered, AreFresh, DistinctMembers, MembersOf, RemoveCmps;
    RemovedIsCompared(remove, a);
    if a in remove {
      assert a in Set(remove);
    } else {
      var i := if AsnUnchanged(a) in Unchanged(PromoteOps(reorder)) then 0 else PackIndex(reorder, 1);
      KeptIsCurrent(current, remove, reorder, i);
    }
  }

  lemma {:induction false} RemovedIsCompared(remove: seq<Asn>, a: Asn)
    ensures AsnUnchanged(a) in RemoveCmps(remove) <==> a in remove
  {
    if remove != [] {
      RemovedIsCompared(remove[..|remove| - 1], a);
    }
  }

  /** All operations of a plan are guarded. */
  lemma PlanIsGuarded(current: seq<Asn>, add: seq<Asn>, remove: seq<Asn>, reorder: seq<Asn>)
    requires IsPlan(current, add, remove, reorder)
    ensures AreGuarded(PlanOps(add, remove, reorder), PlanCmps(add, remove, reorder), Set(current),
                       Members(Outcome(add, remove, reorder)))
  {
    hide IsPlan, PlanOps, PlanCmps, Outcome, Members, Set, IsGuarded, IsObserved;
    forall op | op in PlanOps(add, remove, reorder)
      ensures IsGuarded(op, PlanCmps(add, remove, reorder), Set(current), Members(Outcome(add, remove, reorder)))
    {
      PlanOpIsGuarded(current, add, remove, reorder, op);
    }
    forall c | c in PlanCmps(add, remove, reorder)
      ensures IsObserved(c, Set(current), Members(Outcome(add, remove, reorder)))
    {
      PlanIsObserved(current, add, remove, reorder, c);
    }
  }

  lemma CmpsAreIn(add: seq<Asn>, remove: seq<Asn>, reorder: seq<Asn>)
    ensures forall c :: c in AddCmps(add) || c in RemoveCmps(remove) || c in Unchanged(PromoteOps(reorder)) ==>
            c in PlanCmps(add, remove, reorder)
    ensures add == [] && remove == [] ==> forall c :: c in Unchanged(PackOps(reorder)) ==>
            c in PlanCmps(add, remove, reorder)
  {
  }

  /** Prefer consistent Assignments, and then those having lower load. */
  method PickPrimary(s: seq<Asn>, consistent: set<int>, load: Asn -> real) returns (index: nat)
    requires s != []
    ensures index < |s| && IsBest(s[index], s, consistent, load)
  {
    index := 0;
    for i := 1 to |s|
      invariant index < i && IsBest(s[index], s[..i], consistent, load)
    {
      var c, best := s[i].member in consistent, s[index].member in consistent;
      assert s[..i + 1] == s[..i] + [s[i]];
      if (c && !best) || (c == best && load(s[i]) < load(s[index])) {
        index := i;
      }
    }
    assert s[..|s|] == s;
  }

  lemma CapacityOfNone(all: seq<Asn>, limits: map<int, int>, total: map<int, int>)
    requires total.Keys == limits.Keys && forall a :: a in all ==> a.member in limits
    ensures all[..0] == [] && WithCapacity(all[..0], limits, total) == []
  {
  }

  lemma CapacityOfNext(all: seq<Asn>, k: nat, limits: map<int, int>, total: map<int, int>)
    requires k < |all| && total.Keys == limits.Keys && forall a :: a in all ==> a.member in limits
    ensures var a, w := all[k], WithCapacity(all[..k], limits, total);
      WithCapacity(all[..k + 1], limits, total) == if limits[a.member] <= total[a.member] then w else w + [a]
  {
    assert all[..k + 1][..k] == all[..k];
  }

  /** Whether the entry is dropped or passed, what remains is the same. */
  lemma SameRest(s: seq<Asn>, i: nat, all: seq<Asn>, k: nat)
    requires i < |s| && k < |all| && s[i..] == all[k..]
    ensures s[i] == all[k] && s[i + 1..] == all[k + 1..] && s[..i + 1] == s[..i] + [s[i]]
    ensures var t := s[..i] + s[i + 1..]; t[..i] == s[..i] && t[i..] == all[k + 1..]
  {
    assert s[i] == s[i..][0];
    assert s[i + 1..] == s[i..][1..] == all[k..][1..] == all[k + 1..];
  }

  /** Removals are of Members which have at least the load of those which are not removed. */
  ghost predicate AreHeaviest(remove: seq<Asn>, wanted: seq<Asn>, load: Asn -> real) {
    forall a, b :: a in remove && b in wanted && b !in remove ==> load(a) >= load(b)
  }

  lemma LeadingAreHeaviest(sorted: seq<Asn>, limit: nat, wanted: seq<Asn>, load: Asn -> real)
    requires limit <= |sorted| && Set(sorted) == Set(wanted) && SortedBy(sorted, a => -load(a))
    ensures AreHeaviest(sorted[..limit], wanted, load)
  {
    forall a, b | a in sorted[..limit] && b in wanted && b !in sorted[..limit]
      ensures load(a) >= load(b)
    {
      assert b in Set(sorted);
      var i :| 0 <= i < limit && sorted[i] == a;
      var j :| 0 <= j < |sorted| && sorted[j] == b;
      assert j < limit ==> b == sorted[..limit][j];
    }
  }

  /** What stops removals is a consistent Assignment, which has at least the load of all others that are left. */
  ghost predicate AreBlocked(remove: seq<Asn>, wanted: seq<Asn>, consistent: set<int>, load: Asn -> real) {
    exists a :: a in wanted && a !in remove && a.member in consistent
                && forall b :: b in wanted && b !in remove ==> load(a) >= load(b)
  }

  lemma NextBlocks(sorted: seq<Asn>, limit: nat, wanted: seq<Asn>, consistent: set<int>, load: Asn -> real)
    requires limit < |sorted| && DistinctMembers(sorted) && Set(sorted) == Set(wanted)
    requires SortedBy(sorted, a => -load(a)) && sorted[limit].member in consistent
    ensures AreBlocked(sorted[..limit], wanted, consistent, load)
  {
    var a := sorted[limit];
    assert a in Set(sorted);
    assert a !in sorted[..limit];
    assert forall i :: 0 <= i < limit ==> sorted[i] in sorted[..limit];
    forall b | b in wanted && b !in sorted[..limit]
      ensures load(a) >= load(b)
    {
      assert b in Set(sorted);
    }
  }

  /** If there are `r` consistent Assignments, all others which are wanted are removed. */
  lemma InconsistentAreRemoved(
    current: seq<Asn>, consistent: set<int>, r: int, wanted: seq<Asn>, remove: seq<Asn>, load: Asn -> real)
    requires RemovalsAllowed(current, consistent, r, wanted, remove) && MembersOf(wanted) !! consistent
    requires |ConsistentOf(current, consistent)| >= r
    requires Set(remove) != Set(wanted) ==> AreBlocked(remove, wanted, consistent, load)
    ensures Set(remove) == Set(wanted)
  {
    forall a | a in wanted
      ensures a.member !in consistent
    {
      assert a.member in MembersOf(wanted);
    }
  }

  class ItemState {
    const global: GlobalState
    var current: seq<Asn>
    var add: seq<Asn>
    var remove: seq<Asn>
    var reorder: seq<Asn>

    constructor (global: GlobalState)
      ensures this.global == global
    {
      this.global := global;
      current, add, remove, reorder := [], [], [], [];
    }

    method Init(current: seq<Asn>, desired: seq<int>)
      requires SortedByMember(current) && Ascending(desired)
      modifies this`current, this`add, this`remove, this`reorder
      ensures this.current == current
      ensures IsDelta(current, desired, NextSlot(current), add, remove, reorder)
    {
      hide IsDelta, Walked;
      this.current := current;
      add, remove, reorder := [], [], [];
      var nextSlot := 0;
      for k := 0 to |current|
        invariant nextSlot == NextSlot(current[..k])
        invariant this.current == current && add == remove == reorder == []
      {
        assert current[..k + 1][..k] == current[..k];
        if current[k].slot + 1 > nextSlot {
          nextSlot := current[k].slot + 1;
        }
      }
      assert current[..|current|] == current;
      ghost var n := nextSlot;
      var i, j := 0, 0;
      WalkBegin(current, desired, n);
      while i != |current| && j != |desired|
        invariant 0 <= i <= |current| && 0 <= j <= |desired| && this.current == current
        invariant nextSlot == n + |add| && Walked(current, desired, i, j, n, add, remove, reorder)
        decreases |current| - i + |desired| - j
      {
        if current[i].member > desired[j] {
          WalkAdd(current, desired, i, j, n, add, remove, reorder);
          add, nextSlot := add + [Asn(desired[j], nextSlot)], nextSlot + 1;
          j := j + 1;
        } else if current[i].member < desired[j] {
          WalkRemove(current, desired, i, j, n, add, remove, reorder);
          remove := remove + [current[i]];
          i := i + 1;
        } else {
          WalkKeep(current, desired, i, j, n, add, remove, reorder);
          reorder := reorder + [current[i]];
          i, j := i + 1, j + 1;
        }
      }
      while i != |current|
        invariant 0 <= i <= |current| && 0 <= j <= |desired| && this.current == current
        invariant i == |current| || j == |desired|
        invariant nextSlot == n + |add| && Walked(current, desired, i, j, n, add, remove, reorder)
      {
        WalkRemove(current, desired, i, j, n, add, remove, reorder);
        remove := remove + [current[i]];
        i := i + 1;
      }
      while j != |desired|
        invariant i == |current| && 0 <= j <= |desired| && this.current == current
        invariant nextSlot == n + |add| && Walked(current, desired, i, j, n, add, remove, reorder)
      {
        WalkAdd(current, desired, i, j, n, add, remove, reorder);
        add, nextSlot := add + [Asn(desired[j], nextSlot)], nextSlot + 1;
        j := j + 1;
      }
      WalkEnd(current, desired, n, add, remove, reorder);
    }

    /** Remove Assignments in decreasing order of load, as far as the Item's replication `r` allows. */
    method ConstrainRemovals(r: int, consistent: set<int>, load: Asn -> real)
      requires DistinctMembers(current) && Split(current, remove, reorder)
      modifies `remove, `reorder
      ensures Split(current, remove, reorder)
      ensures RemovalsAllowed(current, consistent, r, old(remove), remove) && AreHeaviest(remove, old(remove), load)
      ensures |ConsistentOf(current, consistent)| >= r && Set(remove) != Set(old(remove)) ==>
                AreBlocked(remove, old(remove), consistent, load)
    {
      hide Split, DistinctMembers, ConsistentOf, RemovalsAllowed, SortedBy, AreHeaviest, AreBlocked;
      SplitIsDistinct(current, remove, reorder);
      var sorted := SortBy(remove, a => -load(a));
      SplitSorted(current, remove, reorder, sorted, reorder);
      var n := CountConsistent(current, consistent);
      var limit := 0;
      NoneRemoved(sorted, consistent);
      while n >= r && limit != |sorted|
        invariant 0 <= limit <= |sorted| && (limit > 0 ==> n >= r)
        invariant n == |ConsistentOf(current, consistent)| - |ConsistentOf(sorted[..limit], consistent)|
        invariant unchanged(this)
      {
        ConsistentSnoc(sorted, limit, consistent);
        var c := sorted[limit].member in consistent;
        if c && n == r {
          break;
        } else if c {
          n := n - 1;
        }
        limit := limit + 1;
      }
      LimitReached(current, consistent, r, remove, sorted, limit);
      LeadingAreHeaviest(sorted, limit, remove, load);
      assert sorted[..|sorted|] == sorted;
      if limit < |sorted| && sorted[limit].member in consistent {
        NextBlocks(sorted, limit, remove, consistent, load);
      }
      SplitMoved(current, sorted, reorder, limit);
      reorder := reorder + sorted[limit..];
      remove := sorted[..limit];
    }

    /** Order kept Assignments on slot, and put the best of them first if none is primary. */
    method ConstrainReorders(consistent: set<int>, load: Asn -> real)
      requires WellPlaced(Set(current)) && Split(current, remove, reorder)
      modifies `reorder
      ensures Split(current, remove, reorder) && IsOrdered(reorder)
      ensures reorder != [] && reorder[0].slot != 0 ==> IsBest(reorder[0], reorder, consistent, load)
    {
      hide Split, DistinctMembers, WellPlaced, Set, IsOrdered, IsBest;
      SplitIsDistinct(current, remove, reorder);
      var sorted := SortBy(reorder, (a: Asn) => a.slot as real);
      SplitSorted(current, remove, reorder, remove, sorted);
      SlotsAreSorted(current, remove, sorted);
      reorder := sorted;
      if |reorder| == 0 || reorder[0].slot == 0 {
        SortedIsOrdered(reorder);
        return;
      }
      var index := PickPrimary(reorder, consistent, load);
      ShiftIsOrdered(sorted, index);
      ShiftSet(sorted, index);
      SplitSorted(current, remove, sorted, remove, Shift(sorted, index));
      reorder := Shift(sorted, index);
      BestOfAll(reorder[0], sorted, reorder, consistent, load);
    }

    /** Drop additions for which the Member has no capacity. */
    method ConstrainAdds()
      requires global.Valid() && forall a :: a in add ==> a.member in global.limits
      modifies `add
      ensures add == WithCapacity(old(add), global.limits, global.total)
    {
      hide WithCapacity;
      var i := 0;
      ghost var k, all := 0, add;
      CapacityOfNone(all, global.limits, global.total);
      while i != |add|
        invariant 0 <= i <= |add| && 0 <= k <= |all| && |add| - i == |all| - k
        invariant add[i..] == all[k..]
        invariant forall a :: a in all ==> a.member in global.limits
        invariant add[..i] == WithCapacity(all[..k], global.limits, global.total)
        decreases |add| - i
      {
        var a := add[i];
        SameRest(add, i, all, k);
        CapacityOfNext(all, k, global.limits, global.total);
        if global.limits[a.member] <= global.total[a.member] {
          add := add[..i] + add[i + 1..];
        } else {
          i := i + 1;
        }
        k := k + 1;
      }
      assert add[..|add|] == add && all[..|all|] == all;
    }

    /** Create new Assignments, if their Members haven't changed. */
    method BuildAddOps(txn: Checkpoint)
      requires global.Valid() && DistinctMembers(add) && forall a :: a in add ==> a.member in global.limits
      modifies txn, global`total, global`primary
      ensures global.Valid() && txn.ops == old(txn.ops) + Puts(add) && txn.cmps == old(txn.cmps) + AddCmps(add)
      ensures Counted(global.limits, old(global.total), global.total, MembersOf(add), {})
      ensures Counted(global.limits, old(global.primary), global.primary, Primaries(Set(add)), {})
    {
      hide Counted, DistinctMembers, MembersOf, Primaries, Set;
      CountNone(global.limits, global.total, add);
      CountNone(global.limits, global.primary, add);
      for i := 0 to |add|
        invariant unchanged(this) && global.Valid()
        invariant txn.ops == old(txn.ops) + Puts(add[..i]) && txn.cmps == old(txn.cmps) + AddCmps(add[..i])
        invariant Counted(global.limits, old(global.total), global.total, MembersOf(add[..i]), {})
        invariant Counted(global.limits, old(global.primary), global.primary, Primaries(Set(add[..i])), {})
      {
        var a := add[i];
        txn.If(MemberUnchanged(a.member));
        txn.Then([Put(a)]);
        assert Puts(add[..i + 1]) == Puts(add[..i]) + [Put(a)];
        assert AddCmps(add[..i + 1]) == AddCmps(add[..i]) + [MemberUnchanged(a.member)];
        PrefixGrows(add, i);
        if a.slot == 0 {
          CountGain(global.limits, old(global.primary), global.primary, Primaries(Set(add[..i])), {}, a.member);
          global.primary := global.primary[a.member := global.primary[a.member] + 1];
        }
        CountGain(global.limits, old(global.total), global.total, MembersOf(add[..i]), {}, a.member);
        global.total := global.total[a.member := global.total[a.member] + 1];
      }
      assert add[..|add|] == add;
    }

    /** Delete Assignments, if they and the Item haven't changed. Assignments may outlive their Member. */
    method BuildRemoveOps(txn: Checkpoint)
      requires global.Valid() && DistinctMembers(remove)
      modifies txn, global`total, global`primary
      ensures global.Valid() && txn.ops == old(txn.ops) + Deletes(remove)
              && txn.cmps == old(txn.cmps) + RemoveCmps(remove)
      ensures Counted(global.limits, old(global.total), global.total, {}, MembersOf(remove))
      ensures Counted(global.limits, old(global.primary), global.primary, {}, Primaries(Set(remove)))
    {
      hide Counted, DistinctMembers, MembersOf, Primaries, Set, Deletes, RemoveCmps, LessOne;
      BeginRemove(remove);
      CountNone(global.limits, global.total, remove);
      CountNone(global.limits, global.primary, remove);
      for i := 0 to |remove|
        invariant unchanged(this) && global.Valid()
        invariant txn.ops == old(txn.ops) + Deletes(remove[..i]) && txn.cmps == old(txn.cmps) + RemoveCmps(remove[..i])
        invariant Counted(global.limits, old(global.total), global.total, {}, MembersOf(remove[..i]))
        invariant Counted(global.limits, old(global.primary), global.primary, {}, Primaries(Set(remove[..i])))
      {
        var a := remove[i];
        if i == 0 {
          txn.If(ItemUnchanged);
        }
        txn.If(AsnUnchanged(a));
        txn.Then([Delete(a)]);
        RemoveCmpsGrows(remove, i);
        DeletesGrow(remove, i);
        ghost var ops, cmps := Deletes(remove[..i]), RemoveCmps(remove[..i]);
        assert old(txn.ops) + ops + [Delete(a)] == old(txn.ops) + (ops + [Delete(a)]);
        CountRemoved(global.limits, old(global.total), global.total, old(global.primary), global.primary, remove, i);
        global.Release(a);
      }
      assert remove[..|remove|] == remove;
    }

    /** Move the first kept Assignment to be primary, if it isn't. */
    method BuildPromoteOps(txn: Checkpoint)
      requires global.Valid()
      modifies txn, global`primary
      ensures global.Valid() && txn.ops == old(txn.ops) + PromoteOps(reorder)
              && txn.cmps == old(txn.cmps) + Unchanged(PromoteOps(reorder))
      ensures Counted(global.limits, old(global.primary), global.primary, PromotedMember(reorder), {})
    {
      if |reorder| == 0 {
        return;
      } else if reorder[0].slot == 0 {
        return;
      } else {
        var a := reorder[0];
        if a.member in global.limits {
          global.primary := global.primary[a.member := global.primary[a.member] + 1];
        }
        BuildMoveOps(txn, a, 0);
      }
    }

    /** Move up to one kept Assignment down to its own index. */
    method BuildPackOps(txn: Checkpoint)
      modifies txn
      ensures txn.ops == old(txn.ops) + PackOps(reorder) && txn.cmps == old(txn.cmps) + Unchanged(PackOps(reorder))
    {
      if |reorder| == 0 {
        return;
      }
      var i := 1;
      while i < |reorder|
        invariant 1 <= i <= |reorder| && unchanged(txn) && PackIndex(reorder, 1) == PackIndex(reorder, i)
      {
        if reorder[i].slot != i {
          BuildMoveOps(txn, reorder[i], i);
          return;
        }
        i := i + 1;
      }
    }

    method BuildMoveOps(txn: Checkpoint, a: Asn, slot: nat)
      modifies txn
      ensures txn.ops == old(txn.ops) + MoveOps(a, slot) && txn.cmps == old(txn.cmps) + Unchanged(MoveOps(a, slot))
    {
      txn.If(AsnUnchanged(a));
      txn.Then(MoveOps(a, slot));
    }

    /**
     * Constrain changes, and build a checkpoint which makes them. It's safe, and counts of Members are those of the
     * Assignments which it leaves.
     */
    method ConstrainAndBuildOps(txn: Checkpoint, r: int, consistent: set<int>, load: Asn -> real,
                                primaryLoad: Asn -> real)
      requires global.Valid() && WellPlaced(Set(current)) && SortedByMember(current)
      requires Split(current, remove, reorder) && AreFresh(current, add)
      requires forall a :: a in add ==> a.member in global.limits
      modifies `add, `remove, `reorder, txn, global`total, global`primary
      ensures global.Valid() && IsPlan(current, add, remove, reorder)
      ensures add == WithCapacity(old(add), global.limits, old(global.total))
      ensures RemovalsAllowed(current, consistent, r, old(remove), remove) && AreHeaviest(remove, old(remove), load)
      ensures |ConsistentOf(current, consistent)| >= r && Set(remove) != Set(old(remove)) ==>
                AreBlocked(remove, old(remove), consistent, load)
      ensures reorder != [] && reorder[0].slot != 0 ==> IsBest(reorder[0], reorder, consistent, primaryLoad)
      ensures txn.ops == old(txn.ops) + PlanOps(add, remove, reorder)
      ensures txn.cmps == old(txn.cmps) + PlanCmps(add, remove, reorder)
      ensures IsSafe(Set(current), Outcome(add, remove, reorder), consistent, r, global.limits, old(global.total))
      ensures Counted(global.limits, old(global.total), global.total, Members(Outcome(add, remove, reorder)),
              Members(Set(current)))
      ensures Counted(global.limits, old(global.primary), global.primary, Primaries(Outcome(add, remove, reorder)),
              Primaries(Set(current)))
    {
      hide WellPlaced, Split, AreFresh, IsOrdered, RemovalsAllowed, AreHeaviest, Counted, IsBest, IsSafe, Outcome;
      hide AreBlocked, ConsistentOf;
      hide MembersOf, Members, Primaries;
      hide PlanOps, PlanCmps, DistinctMembers, Kept, Puts, Deletes, PromoteOps, PackOps, RemoveCmps, AddCmps;
      hide Unchanged, PromotedMember, SortedByMember, WithCapacity, Set;
      ghost var wanted := remove;
      WantedAreCurrent(current, wanted, reorder);
      ConstrainRemovals(r, consistent, load);
      ConstrainReorders(consistent, primaryLoad);
      CapacityKeepsFresh(current, add, global.limits, global.total);
      ConstrainAdds();
      PlanIsDistinct(current, add, remove, reorder);
      PlanIsSafe(current, add, remove, reorder, wanted, consistent, r, global.limits, global.total);

      BuildAddOps(txn);
      label L1:
      BuildRemoveOps(txn);
      label L2:
      BuildPromoteOps(txn);
      CountsAgree(current, add, remove, reorder, global.limits,
                  old(global.total), old@L1(global.total), global.total,
                  old(global.primary), old@L1(global.primary), old@L2(global.primary), global.primary);
      PlanOpsAre(add, remove, reorder, old(txn.ops), old(txn.cmps));
      if |add| == 0 && |remove| == 0 {
        BuildPackOps(txn);
      }
      NoPackOps();
    }
  }
}

/**
 * Convergence of one Item's Assignments (v2/pkg/allocator/item_state.go): which Assignments to add, remove and
 * re-order, constrained so that replication, member limits and slots are respected.
 *
 * A Member is named by the rank of its key, so that the order of Members is that of integers.
 */
module ItemPlan {

  /** An Assignment of the Item at hand. Slot 0 is the primary. */
  datatype Asn = Asn(member: int, slot: nat)

  datatype Op = Put(put: Asn) | Delete(deleted: Asn)

  function Set(s: seq<Asn>): set<Asn> {
    set a | a in s
  }

  function Members(s: set<Asn>): set<int> {
    set a | a in s :: a.member
  }

  function MembersOf(s: seq<Asn>): set<int> {
    set a | a in s :: a.member
  }

  /** No two Assignments share a Member, or a slot. */
  ghost predicate WellPlaced(s: set<Asn>) {
    forall a, b :: a in s && b in s && (a.member == b.member || a.slot == b.slot) ==> a == b
  }

  ghost predicate SortedByMember(s: seq<Asn>) {
    forall i, j :: 0 <= i < j < |s| ==> s[i].member < s[j].member
  }

  ghost predicate SortedBySlot(s: seq<Asn>) {
    forall i, j :: 0 <= i < j < |s| ==> s[i].slot < s[j].slot
  }

  ghost predicate Ascending(s: seq<int>) {
    forall i, j :: 0 <= i < j < |s| ==> s[i] < s[j]
  }

  /** The transaction's effect on the Item's Assignments. */
  function ApplyOp(s: set<Asn>, op: Op): set<Asn> {
    match op case Put(a) => s + {a} case Delete(a) => s - {a}
  }

  function ApplyOps(s: set<Asn>, ops: seq<Op>): set<Asn> {
    if ops == [] then s else ApplyOp(ApplyOps(s, ops[..|ops| - 1]), ops[|ops| - 1])
  }

  function KeyOf(op: Op): Asn {
    match op case Put(a) => a case Delete(a) => a
  }

  /** Etcd refuses a transaction which modifies a key twice. */
  ghost predicate KeysAreDistinct(ops: seq<Op>) {
    forall i, j :: 0 <= i < j < |ops| ==> KeyOf(ops[i]) != KeyOf(ops[j])
  }

  // ---------------------------------------------------------------------------
  // The joint walk of current and desired Assignments

  /** A slot greater than any in use. */
  function NextSlot(s: seq<Asn>): (n: nat)
    ensures forall i :: 0 <= i < |s| ==> s[i].slot < n
    ensures n == 0 <==> s == []
  {
    if s == [] then 0
    else
      var m, last := NextSlot(s[..|s| - 1]), s[|s| - 1].slot + 1;
      if last > m then last else m
  }

  /**
   * What init derives: Assignments to remove, Assignments to keep, and new ones in slots from `n` on, which are
   * not in use.
   */
  ghost predicate IsDelta(current: seq<Asn>, desired: seq<int>, n: nat,
                          add: seq<Asn>, remove: seq<Asn>, reorder: seq<Asn>) {
    && (forall a :: a in remove <==> a in current && a.member !in desired)
    && (forall a :: a in reorder <==> a in current && a.member in desired)
    && (forall m :: m in MembersOf(add) <==> m in desired && m !in MembersOf(current))
    && SortedByMember(remove) && SortedByMember(reorder) && SortedByMember(add)
    && (forall i :: 0 <= i < |add| ==> add[i].slot == n + i)
  }

  lemma MembersOfSnoc(s: seq<Asn>, x: Asn)
    ensures MembersOf(s + [x]) == MembersOf(s) + {x.member}
  {
    var t := s + [x];
    assert forall a :: a in t <==> a in s || a == x;
    assert x in t;
  }

  lemma SortedSnoc(s: seq<Asn>, x: Asn)
    requires SortedByMember(s)
    requires forall a :: a in s ==> a.member < x.member
    ensures SortedByMember(s + [x])
  {
  }

  lemma DeltaAdd(c: seq<Asn>, d: seq<int>, n: nat, add: seq<Asn>, remove: seq<Asn>, reorder: seq<Asn>, m: int)
    requires IsDelta(c, d, n, add, remove, reorder)
    requires m !in MembersOf(c) && forall q :: q in d ==> q < m
    ensures IsDelta(c, d + [m], n, add + [Asn(m, n + |add|)], remove, reorder)
  {
    var x := Asn(m, n + |add|);
    MembersOfSnoc(add, x);
    forall a | a in add
      ensures a.member < m
    {
      assert a.member in MembersOf(add);
    }
    SortedSnoc(add, x);
    forall a | a in c
      ensures a.member in d + [m] <==> a.member in d
    {
      assert a.member in MembersOf(c);
    }
  }

  lemma DeltaRemove(c: seq<Asn>, d: seq<int>, n: nat, add: seq<Asn>, remove: seq<Asn>, reorder: seq<Asn>, x: Asn)
    requires IsDelta(c, d, n, add, remove, reorder)
    requires x.member !in d && forall a :: a in c ==> a.member < x.member
    ensures IsDelta(c + [x], d, n, add, remove + [x], reorder)
  {
    MembersOfSnoc(c, x);
    SortedSnoc(remove, x);
  }

  lemma DeltaKeep(c: seq<Asn>, d: seq<int>, n: nat, add: seq<Asn>, remove: seq<Asn>, reorder: seq<Asn>, x: Asn)
    requires IsDelta(c, d, n, add, remove, reorder)
    requires forall a :: a in c ==> a.member < x.member
    requires forall q :: q in d ==> q < x.member
    ensures IsDelta(c + [x], d + [x.member], n, add, remove, reorder + [x])
  {
    MembersOfSnoc(c, x);
    SortedSnoc(reorder, x);
  }

  lemma DeltaEmpty(n: nat)
    ensures IsDelta([], [], n, [], [], [])
  {
  }

  /** The walk has passed exactly the members below those which remain. */
  ghost predicate Apart(current: seq<Asn>, desired: seq<int>, i: nat, j: nat)
    requires i <= |current| && j <= |desired|
  {
    && (forall p, q :: 0 <= p < i && j <= q < |desired| ==> current[p].member < desired[q])
    && (forall p, q :: i <= p < |current| && 0 <= q < j ==> desired[q] < current[p].member)
  }

  ghost predicate Walked(current: seq<Asn>, desired: seq<int>, i: nat, j: nat, n: nat,
                         add: seq<Asn>, remove: seq<Asn>, reorder: seq<Asn>)
  {
    && i <= |current| && j <= |desired| && SortedByMember(current) && Ascending(desired)
    && Apart(current, desired, i, j) && IsDelta(current[..i], desired[..j], n, add, remove, reorder)
  }

  lemma WalkBegin(current: seq<Asn>, desired: seq<int>, n: nat)
    requires SortedByMember(current) && Ascending(desired)
    ensures Walked(current, desired, 0, 0, n, [], [], [])
  {
    assert current[..0] == [] && desired[..0] == [];
    DeltaEmpty(n);
  }

  lemma WalkAdd(current: seq<Asn>, desired: seq<int>, i: nat, j: nat, n: nat,
                add: seq<Asn>, remove: seq<Asn>, reorder: seq<Asn>)
    requires Walked(current, desired, i, j, n, add, remove, reorder)
    requires j < |desired| && (i == |current| || desired[j] < current[i].member)
    ensures Walked(current, desired, i, j + 1, n, add + [Asn(desired[j], n + |add|)], remove, reorder)
  {
    hide IsDelta;
    assert desired[j] !in MembersOf(current[..i]);
    DeltaAdd(current[..i], desired[..j], n, add, remove, reorder, desired[j]);
    assert desired[..j + 1] == desired[..j] + [desired[j]];
  }

  lemma WalkRemove(current: seq<Asn>, desired: seq<int>, i: nat, j: nat, n: nat,
                   add: seq<Asn>, remove: seq<Asn>, reorder: seq<Asn>)
    requires Walked(current, desired, i, j, n, add, remove, reorder)
    requires i < |current| && (j == |desired| || current[i].member < desired[j])
    ensures Walked(current, desired, i + 1, j, n, add, remove + [current[i]], reorder)
  {
    hide IsDelta;
    DeltaRemove(current[..i], desired[..j], n, add, remove, reorder, current[i]);
    assert current[..i + 1] == current[..i] + [current[i]];
  }

  lemma WalkKeep(current: seq<Asn>, desired: seq<int>, i: nat, j: nat, n: nat,
                 add: seq<Asn>, remove: seq<Asn>, reorder: seq<Asn>)
    requires Walked(current, desired, i, j, n, add, remove, reorder)
    requires i < |current| && j < |desired| && current[i].member == desired[j]
    ensures Walked(current, desired, i + 1, j + 1, n, add, remove, reorder + [current[i]])
  {
    hide IsDelta;
    DeltaKeep(current[..i], desired[..j], n, add, remove, reorder, current[i]);
    assert current[..i + 1] == current[..i] + [current[i]];
    assert desired[..j + 1] == desired[..j] + [desired[j]];
  }

  lemma WalkEnd(current: seq<Asn>, desired: seq<int>, n: nat, add: seq<Asn>, remove: seq<Asn>, reorder: seq<Asn>)
    requires Walked(current, desired, |current|, |desired|, n, add, remove, reorder)
    ensures IsDelta(current, desired, n, add, remove, reorder)
  {
    assert current[..|current|] == current && desired[..|desired|] == desired;
  }

  // ---------------------------------------------------------------------------
  // Ordering and constraining

  ghost predicate DistinctMembers(s: seq<Asn>) {
    forall i, j :: 0 <= i < j < |s| ==> s[i].member != s[j].member
  }

  /** Every current Assignment is either removed or kept. */
  ghost predicate Split(current: seq<Asn>, remove: seq<Asn>, reorder: seq<Asn>) {
    && DistinctMembers(remove) && DistinctMembers(reorder)
    && MembersOf(remove) !! MembersOf(reorder)
    && Set(remove) + Set(reorder) == Set(current)
  }

  lemma DeltaSplits(current: seq<Asn>, desired: seq<int>, n: nat, add: seq<Asn>, remove: seq<Asn>, reorder: seq<Asn>)
    requires SortedByMember(current) && IsDelta(current, desired, n, add, remove, reorder)
    ensures Split(current, remove, reorder)
  {
    assert forall a :: a in remove ==> a.member !in desired;
    assert forall a :: a in reorder ==> a.member in desired;
  }

  ghost predicate SortedBy(s: seq<Asn>, key: Asn -> real) {
    forall i, j :: 0 <= i < j < |s| ==> key(s[i]) <= key(s[j])
  }

  function Insert(t: seq<Asn>, p: nat, x: Asn): (u: seq<Asn>)
    requires p <= |t|
    ensures |u| == |t| + 1 && forall i :: 0 <= i < |u| ==>
            u[i] == if i < p then t[i] else if i == p then x else t[i - 1]
  {
    t[..p] + [x] + t[p..]
  }

  lemma InsertDistinct(t: seq<Asn>, p: nat, x: Asn)
    requires DistinctMembers(t) && x.member !in MembersOf(t) && p <= |t|
    ensures DistinctMembers(Insert(t, p, x))
  {
    var u := Insert(t, p, x);
    assert forall i :: 0 <= i < |t| ==> t[i].member in MembersOf(t);
  }

  lemma InsertSorted(t: seq<Asn>, p: nat, x: Asn, key: Asn -> real)
    requires SortedBy(t, key) && p <= |t|
    requires (forall i :: 0 <= i < p ==> key(t[i]) <= key(x)) && (p < |t| ==> key(x) <= key(t[p]))
    ensures SortedBy(Insert(t, p, x), key)
  {
    var u := Insert(t, p, x);
    assert forall i :: p <= i < |t| ==> key(x) <= key(t[i]);
  }

  lemma InsertSet(t: seq<Asn>, p: nat, x: Asn)
    requires p <= |t|
    ensures Set(Insert(t, p, x)) == Set(t) + {x}
  {
    assert t == t[..p] + t[p..];
  }

  /** sort.Slice: a permutation of Assignments (which are distinct), ordered on a key. */
  method SortBy(s: seq<Asn>, key: Asn -> real) returns (t: seq<Asn>)
    requires DistinctMembers(s)
    ensures DistinctMembers(t) && Set(t) == Set(s) && SortedBy(t, key)
  {
    hide DistinctMembers, SortedBy, MembersOf, Set;
    t := [];
    SortBegin(s, key);
    for i := 0 to |s|
      invariant DistinctMembers(t) && Set(t) == Set(s[..i]) && SortedBy(t, key)
    {
      var p := 0;
      while p < |t| && key(t[p]) <= key(s[i])
        invariant p <= |t| && forall k :: 0 <= k < p ==> key(t[k]) <= key(s[i])
      {
        p := p + 1;
      }
      SortStep(s, i, t, p, key);
      t := Insert(t, p, s[i]);
    }
    assert s[..|s|] == s;
  }

  lemma SortBegin(s: seq<Asn>, key: Asn -> real)
    ensures DistinctMembers([]) && Set([]) == Set(s[..0]) && SortedBy([], key)
  {
  }

  lemma SortStep(s: seq<Asn>, i: nat, t: seq<Asn>, p: nat, key: Asn -> real)
    requires DistinctMembers(s) && i < |s|
    requires DistinctMembers(t) && Set(t) == Set(s[..i]) && SortedBy(t, key)
    requires p <= |t| && (forall k :: 0 <= k < p ==> key(t[k]) <= key(s[i])) && (p < |t| ==> key(s[i]) <= key(t[p]))
    ensures var u := Insert(t, p, s[i]); DistinctMembers(u) && SortedBy(u, key) && Set(u) == Set(s[..i + 1])
  {
    forall a | a in t
      ensures a.member != s[i].member
    {
      assert a in Set(t);
    }
    InsertDistinct(t, p, s[i]);
    InsertSorted(t, p, s[i], key);
    InsertSet(t, p, s[i]);
    assert s[..i + 1] == s[..i] + [s[i]];
  }

  /** Set of Members having consistent Assignments. */
  function ConsistentOf(s: seq<Asn>, consistent: set<int>): set<int> {
    MembersOf(s) * consistent
  }

  /**
   * Removals keep at least `r` consistent Assignments if there are so many, and otherwise remove none. All removals
   * which were asked for are made, unless just `r` consistent Assignments remain, be it from the outset.
   */
  ghost predicate RemovalsAllowed(current: seq<Asn>, consistent: set<int>, r: int, wanted: seq<Asn>, remove: seq<Asn>) {
    var n, removed := |ConsistentOf(current, consistent)|, |ConsistentOf(remove, consistent)|;
    && Set(remove) <= Set(wanted)
    && (n < r ==> remove == [])
    && (n >= r ==> n - removed >= r)
    && (n >= r && Set(remove) != Set(wanted) ==> n - removed == r)
  }

  ghost predicate HasPrimary(s: seq<Asn>) {
    exists a :: a in s && a.slot == 0
  }

  /** The Assignment to promote is preferred over every other one. */
  ghost predicate IsBest(p: Asn, s: seq<Asn>, consistent: set<int>, ratio: Asn -> real) {
    forall a :: a in s ==>
      && (a.member in consistent ==> p.member in consistent)
      && ((a.member in consistent <==> p.member in consistent) ==> ratio(p) <= ratio(a))
  }

  /** Kept Assignments are ordered on slot, but for a first one which is to be promoted if there's no primary. */
  ghost predicate IsOrdered(s: seq<Asn>) {
    && (forall i, j :: 0 < i < j < |s| ==> s[i].slot < s[j].slot)
    && (s != [] && s[0].slot != 0 ==> !HasPrimary(s))
  }

  // ---------------------------------------------------------------------------
  // What a checkpoint of the Item leaves behind

  function Promoted(s: seq<Asn>): (t: seq<Asn>)
    ensures |t| == |s|
  {
    if s == [] then [] else s[0 := s[0].(slot := 0)]
  }

  /** The first Assignment, past the primary, which isn't at its own index. */
  function PackIndex(s: seq<Asn>, from: nat): (i: nat)
    requires from <= |s|
    ensures from <= i <= |s| && (i < |s| ==> s[i].slot != i) && forall k :: from <= k < i ==> s[k].slot == k
    decreases |s| - from
  {
    if from == |s| || s[from].slot != from then from else PackIndex(s, from + 1)
  }

  function Packed(s: seq<Asn>): (t: seq<Asn>)
    ensures |t| == |s|
  {
    if s == [] then [] else
      var i := PackIndex(s, 1);
      if i == |s| then s else s[i := s[i].(slot := i)]
  }

  /** Kept Assignments, after at most a promotion, and packing if there's nothing to add or remove. */
  function Kept(add: seq<Asn>, remove: seq<Asn>, reorder: seq<Asn>): seq<Asn> {
    if add == [] && remove == [] then Packed(Promoted(reorder)) else Promoted(reorder)
  }

  function Outcome(add: seq<Asn>, remove: seq<Asn>, reorder: seq<Asn>): set<Asn> {
    Set(Kept(add, remove, reorder)) + Set(add)
  }

  /** New Assignments are of other Members, in slots above all others. */
  ghost predicate AreFresh(current: seq<Asn>, add: seq<Asn>) {
    && DistinctMembers(add) && SortedBySlot(add) && MembersOf(add) !! MembersOf(current)
    && forall i :: 0 <= i < |add| ==> add[i].slot >= NextSlot(current)
  }

  /** A plan which satisfies all constraints. */
  ghost predicate IsPlan(current: seq<Asn>, add: seq<Asn>, remove: seq<Asn>, reorder: seq<Asn>) {
    WellPlaced(Set(current)) && Split(current, remove, reorder) && AreFresh(current, add) && IsOrdered(reorder)
  }

  lemma KeptIsCurrent(current: seq<Asn>, remove: seq<Asn>, reorder: seq<Asn>, i: nat)
    requires Split(current, remove, reorder) && i < |reorder|
    ensures reorder[i] in Set(current) && reorder[i].slot < NextSlot(current) && reorder[i].member in MembersOf(current)
  {
    assert reorder[i] in Set(reorder);
  }

  lemma OthersAreNotPrimary(current: seq<Asn>, add: seq<Asn>, remove: seq<Asn>, reorder: seq<Asn>, i: nat)
    requires IsPlan(current, add, remove, reorder) && 0 < i < |reorder|
    ensures reorder[i].slot > 0
  {
    hide AreFresh, NextSlot, MembersOf;
    KeptIsCurrent(current, remove, reorder, i);
    KeptIsCurrent(current, remove, reorder, 0);
    assert reorder[0].member != reorder[i].member;
  }

  lemma PromotedIsSorted(current: seq<Asn>, add: seq<Asn>, remove: seq<Asn>, reorder: seq<Asn>)
    requires IsPlan(current, add, remove, reorder)
    ensures SortedBySlot(Promoted(reorder)) && DistinctMembers(Promoted(reorder))
    ensures reorder != [] ==> Promoted(reorder)[0].slot == 0
    ensures forall i :: 0 <= i < |reorder| ==>
            Promoted(reorder)[i].slot <= reorder[i].slot && Promoted(reorder)[i].member == reorder[i].member
  {
    hide AreFresh, WellPlaced, MembersOf, Set, NextSlot;
    forall i | 0 < i < |reorder|
      ensures reorder[i].slot > 0
    {
      OthersAreNotPrimary(current, add, remove, reorder, i);
    }
  }

  lemma PackedIsSorted(s: seq<Asn>)
    requires SortedBySlot(s) && DistinctMembers(s) && (s != [] ==> s[0].slot == 0)
    ensures SortedBySlot(Packed(s)) && DistinctMembers(Packed(s))
    ensures s != [] ==> Packed(s)[0].slot == 0
    ensures forall i :: 0 <= i < |s| ==> Packed(s)[i].slot <= s[i].slot && Packed(s)[i].member == s[i].member
    ensures s == [] || PackIndex(s, 1) == |s| || s[PackIndex(s, 1)].slot > PackIndex(s, 1)
  {
    if s != [] {
      var i := PackIndex(s, 1);
      if i < |s| {
        assert s[i - 1].slot == i - 1;
        assert s[i].slot > s[i - 1].slot;
      }
    }
  }

  /** Kept Assignments have slots in strict order, beginning with the one primary, and below all those used before. */
  lemma KeptIsSorted(current: seq<Asn>, add: seq<Asn>, remove: seq<Asn>, reorder: seq<Asn>)
    requires IsPlan(current, add, remove, reorder)
    ensures var k := Kept(add, remove, reorder); SortedBySlot(k) && DistinctMembers(k) && |k| == |reorder|
    ensures reorder != [] ==> Kept(add, remove, reorder)[0].slot == 0
    ensures forall i :: 0 <= i < |reorder| ==> IsKeptBelow(Kept(add, remove, reorder)[i], reorder[i], NextSlot(current))
  {
    hide Promoted, Packed, SortedBySlot;
    PromotedIsSorted(current, add, remove, reorder);
    PackedIsSorted(Promoted(reorder));
    forall i | 0 <= i < |reorder|
      ensures IsKeptBelow(Kept(add, remove, reorder)[i], reorder[i], NextSlot(current))
    {
      KeptIsCurrent(current, remove, reorder, i);
    }
  }

  ghost predicate IsKeptBelow(a: Asn, was: Asn, n: nat) {
    a.member == was.member && a.slot <= was.slot < n
  }

  lemma KeptMembers(current: seq<Asn>, add: seq<Asn>, remove: seq<Asn>, reorder: seq<Asn>)
    requires IsPlan(current, add, remove, reorder)
    ensures MembersOf(Kept(add, remove, reorder)) == MembersOf(reorder)
    ensures MembersOf(reorder) == MembersOf(current) - MembersOf(remove)
  {
    hide Kept, SortedBySlot, WellPlaced;
    KeptIsSorted(current, add, remove, reorder);
    var k := Kept(add, remove, reorder);
    forall i | 0 <= i < |k|
      ensures k[i].member in MembersOf(reorder) && reorder[i].member in MembersOf(k)
    {
      assert IsKeptBelow(k[i], reorder[i], NextSlot(current));
      assert reorder[i] in reorder && k[i] in k;
    }
    assert forall a :: a in current <==> a in Set(remove) + Set(reorder);
  }

  lemma AddedIsApart(current: seq<Asn>, add: seq<Asn>, remove: seq<Asn>, reorder: seq<Asn>, a: Asn, b: Asn)
    requires IsPlan(current, add, remove, reorder)
    requires a in Kept(add, remove, reorder) && b in add
    ensures a.member != b.member && a.slot != b.slot
  {
    hide Kept, SortedBySlot, WellPlaced, Split, IsOrdered;
    KeptIsSorted(current, add, remove, reorder);
    KeptMembers(current, add, remove, reorder);
    var k := Kept(add, remove, reorder);
    assert a.member in MembersOf(k) && b.member in MembersOf(add);
    var i :| 0 <= i < |k| && k[i] == a;
    assert IsKeptBelow(k[i], reorder[i], NextSlot(current));
  }

  lemma UnionIsWellPlaced(s: set<Asn>, t: set<Asn>)
    requires WellPlaced(s) && WellPlaced(t)
    requires forall a, b :: a in s && b in t ==> a.member != b.member && a.slot != b.slot
    ensures WellPlaced(s + t)
  {
  }

  lemma MembersOfUnion(s: seq<Asn>, t: seq<Asn>)
    ensures Members(Set(s) + Set(t)) == MembersOf(s) + MembersOf(t)
  {
    assert forall a :: a in s ==> a in Set(s) + Set(t);
    assert forall a :: a in t ==> a in Set(s) + Set(t);
  }

  /** Slots stay distinct, and there's exactly one primary if a current Assignment is kept. */
  lemma OutcomeIsWellPlaced(current: seq<Asn>, add: seq<Asn>, remove: seq<Asn>, reorder: seq<Asn>)
    requires IsPlan(current, add, remove, reorder)
    ensures WellPlaced(Outcome(add, remove, reorder))
    ensures reorder != [] ==> exists a :: a in Outcome(add, remove, reorder) && a.slot == 0
    ensures Members(Outcome(add, remove, reorder)) == MembersOf(current) - MembersOf(remove) + MembersOf(add)
  {
    hide Kept, WellPlaced, SortedBySlot, DistinctMembers, MembersOf, Members;
    KeptIsSorted(current, add, remove, reorder);
    KeptMembers(current, add, remove, reorder);
    var k := Kept(add, remove, reorder);
    SortedIsWellPlaced(k);
    SortedIsWellPlaced(add);
    forall a, b | a in Set(k) && b in Set(add)
      ensures a.member != b.member && a.slot != b.slot
    {
      AddedIsApart(current, add, remove, reorder, a, b);
    }
    UnionIsWellPlaced(Set(k), Set(add));
    MembersOfUnion(k, add);
    if reorder != [] {
      assert k[0] in Outcome(add, remove, reorder);
    }
  }

  lemma SortedIsWellPlaced(s: seq<Asn>)
    requires SortedBySlot(s) && DistinctMembers(s)
    ensures WellPlaced(Set(s))
  {
  }

  // ---------------------------------------------------------------------------
  // Steps of the constraints

  lemma ConsistentSnoc(s: seq<Asn>, i: nat, consistent: set<int>)
    requires DistinctMembers(s) && i < |s|
    ensures |ConsistentOf(s[..i + 1], consistent)| ==
            |ConsistentOf(s[..i], consistent)| + if s[i].member in consistent then 1 else 0
  {
    assert s[..i + 1] == s[..i] + [s[i]];
    MembersOfSnoc(s[..i], s[i]);
    assert s[i].member !in MembersOf(s[..i]);
    var c := ConsistentOf(s[..i], consistent);
    assert ConsistentOf(s[..i + 1], consistent) == if s[i].member in consistent then c + {s[i].member} else c;
  }

  lemma SplitSorted(current: seq<Asn>, remove: seq<Asn>, reorder: seq<Asn>, remove': seq<Asn>, reorder': seq<Asn>)
    requires Split(current, remove, reorder)
    requires Set(remove') == Set(remove) && Set(reorder') == Set(reorder)
    requires DistinctMembers(remove') && DistinctMembers(reorder')
    ensures Split(current, remove', reorder')
  {
    assert forall a :: a in remove' <==> a in Set(remove);
    assert forall a :: a in reorder' <==> a in Set(reorder);
    assert forall a :: a in remove <==> a in Set(remove);
    assert forall a :: a in reorder <==> a in Set(reorder);
    assert MembersOf(remove') == MembersOf(remove);
    assert MembersOf(reorder') == MembersOf(reorder);
  }

  /** Removals past `limit` are kept instead. */
  lemma SplitMoved(current: seq<Asn>, sorted: seq<Asn>, reorder: seq<Asn>, limit: nat)
    requires Split(current, sorted, reorder) && limit <= |sorted|
    ensures Split(current, sorted[..limit], reorder + sorted[limit..])
  {
    hide DistinctMembers, MembersOf, Set;
    var kept, moved := sorted[..limit], sorted[limit..];
    assert sorted == kept + moved;
    DistinctParts(kept, moved);
    PartMembers(kept, moved);
    DistinctJoin(reorder, moved);
    PartMembers(reorder, moved);
    assert Set(kept) + (Set(reorder) + Set(moved)) == (Set(kept) + Set(moved)) + Set(reorder);
  }

  lemma PartMembers(x: seq<Asn>, y: seq<Asn>)
    ensures MembersOf(x + y) == MembersOf(x) + MembersOf(y) && Set(x + y) == Set(x) + Set(y)
  {
  }

  lemma MembersAre(s: seq<Asn>)
    ensures forall i :: 0 <= i < |s| ==> s[i].member in MembersOf(s)
  {
    assert forall i :: 0 <= i < |s| ==> s[i] in s;
  }

  lemma DistinctParts(x: seq<Asn>, y: seq<Asn>)
    requires DistinctMembers(x + y)
    ensures DistinctMembers(x) && DistinctMembers(y) && MembersOf(x) !! MembersOf(y)
  {
    var s := x + y;
    assert forall i :: 0 <= i < |x| ==> s[i] == x[i];
    assert forall i :: 0 <= i < |y| ==> s[|x| + i] == y[i];
    forall a, b | a in x && b in y ensures a.member != b.member {
      var i :| 0 <= i < |x| && x[i] == a;
      var j :| 0 <= j < |y| && y[j] == b;
      assert s[i].member != s[|x| + j].member;
    }
  }

  lemma DistinctJoin(x: seq<Asn>, y: seq<Asn>)
    requires DistinctMembers(x) && DistinctMembers(y) && MembersOf(x) !! MembersOf(y)
    ensures DistinctMembers(x + y)
  {
    MembersAre(x);
    MembersAre(y);
    hide MembersOf;
    var s := x + y;
    forall i, j | 0 <= i < j < |s| ensures s[i].member != s[j].member {
      if i >= |x| {
        assert s[i] == y[i - |x|] && s[j] == y[j - |x|];
      } else if j >= |x| {
        assert s[i] == x[i] && s[j] == y[j - |x|];
      }
    }
  }

  lemma SlotsAreSorted(current: seq<Asn>, remove: seq<Asn>, sorted: seq<Asn>)
    requires WellPlaced(Set(current)) && Split(current, remove, sorted)
    requires forall i, j :: 0 <= i < j < |sorted| ==> sorted[i].slot <= sorted[j].slot
    ensures SortedBySlot(sorted)
  {
    forall i, j | 0 <= i < j < |sorted|
      ensures sorted[i].slot < sorted[j].slot
    {
      KeptIsCurrent(current, remove, sorted, i);
      KeptIsCurrent(current, remove, sorted, j);
      assert sorted[i].member != sorted[j].member;
    }
  }

  /** Shift elements [0, p) to the right by one, and put element `p` first. */
  function Shift(s: seq<Asn>, p: nat): (t: seq<Asn>)
    requires p < |s|
    ensures |t| == |s| && t[0] == s[p]
    ensures forall i :: 0 < i <= p ==> t[i] == s[i - 1]
    ensures forall i :: p < i < |s| ==> t[i] == s[i]
  {
    [s[p]] + s[..p] + s[p + 1..]
  }

  lemma ShiftSet(s: seq<Asn>, p: nat)
    requires p < |s|
    ensures Set(Shift(s, p)) == Set(s)
  {
    assert s == s[..p] + [s[p]] + s[p + 1..];
  }

  function ShiftedFrom(i: nat, p: nat): nat {
    if i == 0 then p else if i <= p then i - 1 else i
  }

  lemma NoneIsPrimary(t: seq<Asn>)
    requires forall i :: 0 <= i < |t| ==> t[i].slot != 0
    ensures !HasPrimary(t)
  {
  }

  lemma ShiftIsOrdered(s: seq<Asn>, p: nat)
    requires p < |s| && SortedBySlot(s) && DistinctMembers(s) && s[0].slot != 0
    ensures IsOrdered(Shift(s, p)) && DistinctMembers(Shift(s, p))
  {
    var t := Shift(s, p);
    hide Shift, HasPrimary;
    assert forall k :: 0 <= k < |s| ==> s[k].slot != 0;
    forall i | 0 <= i < |t| ensures t[i].slot != 0 {
      assert t[i] == s[ShiftedFrom(i, p)];
    }
    forall i, j | 0 <= i < j < |t| ensures t[i].member != t[j].member && (0 < i ==> t[i].slot < t[j].slot) {
      var k, l := ShiftedFrom(i, p), ShiftedFrom(j, p);
      assert t[i] == s[k] && t[j] == s[l] && k != l;
      assert if k < l then s[k].member != s[l].member else s[l].member != s[k].member;
    }
    NoneIsPrimary(t);
  }

  /** Additions which the Member has capacity for. */
  function WithCapacity(s: seq<Asn>, limits: map<int, int>, total: map<int, int>): (t: seq<Asn>)
    requires total.Keys == limits.Keys && forall a :: a in s ==> a.member in limits
    ensures forall a :: a in t <==> a in s && total[a.member] < limits[a.member]
    ensures |t| <= |s|
  {
    if s == [] then [] else
      var t, a := WithCapacity(s[..|s| - 1], limits, total), s[|s| - 1];
      if limits[a.member] <= total[a.member] then t else t + [a]
  }

  lemma FreshSnoc(current: seq<Asn>, t: seq<Asn>, a: Asn)
    requires AreFresh(current, t) && a.member !in MembersOf(current) && a.slot >= NextSlot(current)
    requires forall b :: b in t ==> b.slot < a.slot && b.member != a.member
    ensures AreFresh(current, t + [a])
  {
    MembersOfSnoc(t, a);
  }

  lemma FreshInit(current: seq<Asn>, s: seq<Asn>)
    requires AreFresh(current, s) && s != []
    ensures var init, a := s[..|s| - 1], s[|s| - 1];
      && AreFresh(current, init) && a.member !in MembersOf(current) && a.slot >= NextSlot(current)
      && forall b :: b in init ==> b.slot < a.slot && b.member != a.member
  {
    var init, a := s[..|s| - 1], s[|s| - 1];
    assert s == init + [a];
    MembersOfSnoc(init, a);
  }

  lemma {:induction false} CapacityKeepsFresh(current: seq<Asn>, s: seq<Asn>, limits: map<int, int>,
                                              total: map<int, int>)
    requires total.Keys == limits.Keys && forall a :: a in s ==> a.member in limits
    requires AreFresh(current, s)
    ensures AreFresh(current, WithCapacity(s, limits, total))
  {
    hide AreFresh;
    if s != [] {
      FreshInit(current, s);
      var init, a := s[..|s| - 1], s[|s| - 1];
      CapacityKeepsFresh(current, init, limits, total);
      if total[a.member] < limits[a.member] {
        FreshSnoc(current, WithCapacity(init, limits, total), a);
      }
    }
  }
}

/**
 * The operations of one Item's checkpoint (v2/pkg/allocator/item_state.go): what they do to its Assignments, and to
 * the counts of total and primary Assignments which are kept for each Member.
 */
module ItemOps {
  import opened ItemPlan

  function Puts(s: seq<Asn>): (ops: seq<Op>)
    ensures |ops| == |s| && forall i :: 0 <= i < |s| ==> ops[i] == Put(s[i])
  {
    seq(|s|, i requires 0 <= i < |s| => Put(s[i]))
  }

  function Deletes(s: seq<Asn>): (ops: seq<Op>)
    ensures |ops| == |s| && forall i :: 0 <= i < |s| ==> ops[i] == Delete(s[i])
  {
    seq(|s|, i requires 0 <= i < |s| => Delete(s[i]))
  }

  /** An atomic move of an Assignment to another slot. */
  function MoveOps(a: Asn, slot: nat): seq<Op> {
    [Delete(a), Put(a.(slot := slot))]
  }

  function PromoteOps(reorder: seq<Asn>): seq<Op> {
    if reorder == [] || reorder[0].slot == 0 then [] else MoveOps(reorder[0], 0)
  }

  function PackOps(reorder: seq<Asn>): seq<Op> {
    if reorder == [] then [] else
      var i := PackIndex(reorder, 1);
      if i == |reorder| then [] else MoveOps(reorder[i], i)
  }

  function PlanOps(add: seq<Asn>, remove: seq<Asn>, reorder: seq<Asn>): seq<Op> {
    Puts(add) + Deletes(remove) + PromoteOps(reorder) + (if add == [] && remove == [] then PackOps(reorder) else [])
  }

  lemma {:induction false} ApplyConcat(s: set<Asn>, a: seq<Op>, b: seq<Op>)
    ensures ApplyOps(s, a + b) == ApplyOps(ApplyOps(s, a), b)
    decreases |b|
  {
    if b == [] {
      assert a + b == a;
    } else {
      var init := b[..|b| - 1];
      assert (a + b)[..|a + b| - 1] == a + init;
      ApplyConcat(s, a, init);
    }
  }

  lemma {:induction false} ApplyPuts(s: set<Asn>, add: seq<Asn>)
    ensures ApplyOps(s, Puts(add)) == s + Set(add)
  {
    if add != [] {
      var init, last := add[..|add| - 1], add[|add| - 1];
      assert Puts(add)[..|add| - 1] == Puts(init);
      ApplyPuts(s, init);
      assert add == init + [last];
    }
  }

  lemma {:induction false} ApplyDeletes(s: set<Asn>, remove: seq<Asn>)
    ensures ApplyOps(s, Deletes(remove)) == s - Set(remove)
  {
    if remove != [] {
      var init, last := remove[..|remove| - 1], remove[|remove| - 1];
      assert Deletes(remove)[..|remove| - 1] == Deletes(init);
      ApplyDeletes(s, init);
      assert remove == init + [last];
    }
  }

  lemma ApplyMove(s: set<Asn>, a: Asn, slot: nat)
    ensures ApplyOps(s, MoveOps(a, slot)) == s - {a} + {a.(slot := slot)}
  {
    var ops := MoveOps(a, slot);
    assert ops[..1] == [ops[0]];
    assert ops[..1][..0] == [];
    assert ApplyOps(s, []) == s;
    assert ApplyOps(s, ops[..1]) == s - {a};
  }

  lemma SetUpdate(s: seq<Asn>, i: nat, x: Asn)
    requires DistinctMembers(s) && i < |s|
    ensures Set(s[i := x]) == Set(s) - {s[i]} + {x}
  {
    var t := s[i := x];
    assert t[i] == x;
    forall a | a in Set(s) - {s[i]}
      ensures a in t
    {
      var k :| 0 <= k < |s| && s[k] == a;
      assert t[k] == a;
    }
  }

  /** Adding and removing leaves kept and added Assignments. */
  lemma AddRemove(current: seq<Asn>, add: seq<Asn>, remove: seq<Asn>, reorder: seq<Asn>)
    requires IsPlan(current, add, remove, reorder)
    ensures Set(current) + Set(add) - Set(remove) == Set(reorder) + Set(add)
  {
    hide WellPlaced, IsOrdered, NextSlot;
    forall a | a in add
      ensures a !in remove
    {
      assert a.member in MembersOf(add);
      assert a in remove ==> a in Set(current);
      assert a in Set(current) ==> a.member in MembersOf(current);
    }
    forall a | a in reorder
      ensures a !in remove
    {
      assert a.member in MembersOf(reorder);
      assert a in remove ==> a.member in MembersOf(remove);
    }
  }

  /** A kept Assignment is moved in place, and isn't confused with an added one. */
  lemma MoveKept(kept: seq<Asn>, add: seq<Asn>, i: nat, slot: nat)
    requires DistinctMembers(kept) && i < |kept| && kept[i].member !in MembersOf(add)
    ensures ApplyOps(Set(kept) + Set(add), MoveOps(kept[i], slot)) == Set(kept[i := kept[i].(slot := slot)]) + Set(add)
  {
    ApplyMove(Set(kept) + Set(add), kept[i], slot);
    SetUpdate(kept, i, kept[i].(slot := slot));
    var a := kept[i];
    assert a in add ==> a.member in MembersOf(add);
  }

  lemma PromotionApplies(current: seq<Asn>, add: seq<Asn>, remove: seq<Asn>, reorder: seq<Asn>)
    requires IsPlan(current, add, remove, reorder)
    ensures ApplyOps(Set(reorder) + Set(add), PromoteOps(reorder)) == Set(Promoted(reorder)) + Set(add)
  {
    if reorder != [] {
      KeptIsCurrent(current, remove, reorder, 0);
      if reorder[0].slot == 0 {
        assert reorder[0].(slot := 0) == reorder[0];
        assert Promoted(reorder) == reorder;
      } else {
        MoveKept(reorder, add, 0, 0);
      }
    }
  }

  lemma {:induction false} PackIndexOfPromoted(reorder: seq<Asn>, from: nat)
    requires 1 <= from <= |reorder|
    ensures PackIndex(Promoted(reorder), from) == PackIndex(reorder, from)
    decreases |reorder| - from
  {
    if from < |reorder| {
      PackIndexOfPromoted(reorder, from + 1);
    }
  }

  lemma PackingApplies(current: seq<Asn>, remove: seq<Asn>, reorder: seq<Asn>)
    requires IsPlan(current, [], remove, reorder)
    ensures ApplyOps(Set(Promoted(reorder)) + Set([]), PackOps(reorder)) == Set(Packed(Promoted(reorder))) + Set([])
  {
    if reorder != [] {
      PackIndexOfPromoted(reorder, 1);
      var i := PackIndex(reorder, 1);
      PromotedIsSorted(current, [], remove, reorder);
      if i < |reorder| {
        MoveKept(Promoted(reorder), [], i, i);
      }
    }
  }

  /** A plan's operations bring about its outcome. */
  lemma PlanApplies(current: seq<Asn>, add: seq<Asn>, remove: seq<Asn>, reorder: seq<Asn>)
    requires IsPlan(current, add, remove, reorder)
    ensures ApplyOps(Set(current), PlanOps(add, remove, reorder)) == Outcome(add, remove, reorder)
  {
    hide IsPlan, PromoteOps, PackOps, Puts, Deletes, ApplyOps, Set, Packed, Promoted;
    var base := Puts(add) + Deletes(remove);
    ApplyPuts(Set(current), add);
    ApplyConcat(Set(current), Puts(add), Deletes(remove));
    ApplyDeletes(Set(current) + Set(add), remove);
    AddRemove(current, add, remove, reorder);
    ApplyConcat(Set(current), base, PromoteOps(reorder));
    PromotionApplies(current, add, remove, reorder);
    if add == [] && remove == [] {
      PackingApplies(current, remove, reorder);
      ApplyConcat(Set(current), base + PromoteOps(reorder), PackOps(reorder));
    } else {
      assert PlanOps(add, remove, reorder) == base + PromoteOps(reorder);
    }
  }

  // ---------------------------------------------------------------------------
  // Each key is written at most once

  /** Operations on none but the given Members. */
  ghost predicate AreOf(ops: seq<Op>, members: set<int>) {
    forall i :: 0 <= i < |ops| ==> KeyOf(ops[i]).member in members
  }

  lemma DisjointAreApart(a: seq<Op>, m: set<int>, b: seq<Op>, n: set<int>)
    requires AreOf(a, m) && AreOf(b, n) && m !! n
    requires KeysAreDistinct(a) && KeysAreDistinct(b)
    ensures KeysAreDistinct(a + b) && AreOf(a + b, m + n)
  {
    forall i, j | 0 <= i < |a| && 0 <= j < |b|
      ensures KeyOf(a[i]) != KeyOf(b[j])
    {
      assert KeyOf(a[i]).member in m && KeyOf(b[j]).member in n;
    }
  }

  lemma PutsAreDistinct(s: seq<Asn>)
    requires DistinctMembers(s)
    ensures KeysAreDistinct(Puts(s)) && AreOf(Puts(s), MembersOf(s))
  {
    assert forall i :: 0 <= i < |s| ==> s[i] in s;
  }

  lemma DeletesAreDistinct(s: seq<Asn>)
    requires DistinctMembers(s)
    ensures KeysAreDistinct(Deletes(s)) && AreOf(Deletes(s), MembersOf(s))
  {
    assert forall i :: 0 <= i < |s| ==> s[i] in s;
  }

  lemma MovesAreDistinct(s: seq<Asn>)
    requires DistinctMembers(s)
    ensures KeysAreDistinct(PromoteOps(s)) && KeysAreDistinct(PromoteOps(s) + PackOps(s))
    ensures AreOf(PromoteOps(s), MembersOf(s)) && AreOf(PromoteOps(s) + PackOps(s), MembersOf(s))
  {
    if s != [] {
      var i := PackIndex(s, 1);
      MoveIsDistinct(s, 0, 0);
      assert PromoteOps(s) + [] == PromoteOps(s);
      if i < |s| {
        MoveIsDistinct(s, i, i);
        hide MoveOps, KeysAreDistinct, AreOf, MembersOf;
        DisjointAreApart(PromoteOps(s), {s[0].member}, PackOps(s), {s[i].member});
        AreOfMore(PromoteOps(s) + PackOps(s), {s[0].member} + {s[i].member}, MembersOf(s));
      }
    }
  }

  lemma AreOfMore(ops: seq<Op>, m: set<int>, n: set<int>)
    requires AreOf(ops, m) && m <= n
    ensures AreOf(ops, n)
  {
  }

  lemma MoveIsDistinct(s: seq<Asn>, i: nat, slot: nat)
    requires i < |s|
    ensures s[i].slot != slot ==> KeysAreDistinct(MoveOps(s[i], slot))
    ensures AreOf(MoveOps(s[i], slot), {s[i].member}) && s[i].member in MembersOf(s)
    ensures AreOf([], {s[i].member}) && KeysAreDistinct([])
  {
    assert s[i] in s;
  }

  lemma PlanKeysAreDistinct(current: seq<Asn>, add: seq<Asn>, remove: seq<Asn>, reorder: seq<Asn>)
    requires IsPlan(current, add, remove, reorder)
    ensures KeysAreDistinct(PlanOps(add, remove, reorder))
  {
    hide PromoteOps, PackOps, Puts, Deletes, KeysAreDistinct, AreOf, WellPlaced, IsOrdered, DistinctMembers;
    PutsAreDistinct(add);
    DeletesAreDistinct(remove);
    MovesAreDistinct(reorder);
    KeptMembers(current, add, remove, reorder);
    var base := Puts(add) + Deletes(remove);
    assert MembersOf(remove) <= MembersOf(current) by {
      assert forall a :: a in remove ==> a in Set(current);
    }
    DisjointAreApart(Puts(add), MembersOf(add), Deletes(remove), MembersOf(remove));
    if add == [] && remove == [] {
      DisjointAreApart(base, MembersOf(add) + MembersOf(remove), PromoteOps(reorder) + PackOps(reorder),
        MembersOf(reorder));
      assert PlanOps(add, remove, reorder) == base + (PromoteOps(reorder) + PackOps(reorder));
    } else {
      DisjointAreApart(base, MembersOf(add) + MembersOf(remove), PromoteOps(reorder), MembersOf(reorder));
      assert PlanOps(add, remove, reorder) == base + PromoteOps(reorder);
    }
  }

  // ---------------------------------------------------------------------------
  // Counts of Assignments by Member

  function One(b: bool): int {
    if b then 1 else 0
  }

  function Primaries(s: set<Asn>): set<int> {
    set a | a in s && a.slot == 0 :: a.member
  }

  /** Counts of known Members have changed by exactly those gained and lost. */
  ghost predicate Counted(limits: map<int, int>, before: map<int, int>, after: map<int, int>,
                          gained: set<int>, lost: set<int>) {
    && before.Keys == after.Keys == limits.Keys
    && forall m :: m in limits ==> after[m] == before[m] + One(m in gained) - One(m in lost)
  }

  /** The Member which a plan promotes. */
  function PromotedMember(reorder: seq<Asn>): set<int> {
    if reorder == [] || reorder[0].slot == 0 then {} else {reorder[0].member}
  }

  lemma TotalsAgree(current: seq<Asn>, add: seq<Asn>, remove: seq<Asn>, reorder: seq<Asn>, m: int)
    requires IsPlan(current, add, remove, reorder)
    ensures One(m in MembersOf(add)) - One(m in MembersOf(remove)) ==
            One(m in Members(Outcome(add, remove, reorder))) - One(m in MembersOf(current))
  {
    hide Outcome, WellPlaced, IsOrdered;
    OutcomeIsWellPlaced(current, add, remove, reorder);
    assert MembersOf(remove) <= MembersOf(current) by {
      assert forall a :: a in remove ==> a in Set(current);
    }
  }

  lemma PrimariesOfKept(current: seq<Asn>, add: seq<Asn>, remove: seq<Asn>, reorder: seq<Asn>)
    requires IsPlan(current, add, remove, reorder) && reorder != []
    ensures Primaries(Outcome(add, remove, reorder)) == {reorder[0].member}
    ensures Primaries(Set(add)) == {}
  {
    hide Kept, Split, IsOrdered, WellPlaced, DistinctMembers;
    KeptIsSorted(current, add, remove, reorder);
    KeptIsCurrent(current, remove, reorder, 0);
    var k := Kept(add, remove, reorder);
    assert k[0] in k && IsKeptBelow(k[0], reorder[0], NextSlot(current));
    assert forall a :: a in k && a.slot == 0 ==> a == k[0];
    assert forall a :: a in add ==> a.slot > 0;
  }

  lemma PrimariesOfCurrent(current: seq<Asn>, add: seq<Asn>, remove: seq<Asn>, reorder: seq<Asn>)
    requires IsPlan(current, add, remove, reorder) && reorder != []
    ensures reorder[0].slot == 0 ==> Primaries(Set(current)) == {reorder[0].member} && Primaries(Set(remove)) == {}
    ensures reorder[0].slot != 0 ==> Primaries(Set(current)) == Primaries(Set(remove))
  {
    hide AreFresh, NextSlot;
    KeptIsCurrent(current, remove, reorder, 0);
    var p := reorder[0];
    if p.slot == 0 {
      assert forall a :: a in Set(current) && a.slot == 0 ==> a == p;
      assert p.member in MembersOf(reorder);
      assert p in remove ==> p.member in MembersOf(remove);
    } else {
      assert forall a :: a in Set(reorder) ==> a.slot != 0;
    }
  }

  lemma PrimariesAgree(current: seq<Asn>, add: seq<Asn>, remove: seq<Asn>, reorder: seq<Asn>, m: int)
    requires IsPlan(current, add, remove, reorder)
    ensures One(m in Primaries(Set(add))) - One(m in Primaries(Set(remove))) + One(m in PromotedMember(reorder))
         == One(m in Primaries(Outcome(add, remove, reorder))) - One(m in Primaries(Set(current)))
  {
    hide Primaries, WellPlaced, AreFresh, IsOrdered;
    if reorder == [] {
      assert Kept(add, remove, reorder) == [];
      assert Outcome(add, remove, reorder) == Set(add);
      assert Set(current) == Set(remove);
    } else {
      PrimariesOfKept(current, add, remove, reorder);
      PrimariesOfCurrent(current, add, remove, reorder);
    }
  }
}

/**
 * Any feasible flow over the network extracts to sound Assignments (v2/pkg/allocator/flow_network.go): within the slots
 * of each Item and the limit of each Member, and across zones.
 */
module Flow {
  import opened FlowNetwork
  import opened Network
  import Converge

  /** The flow over Arcs which `p` selects. */
  function FlowOver(arcs: seq<Arc>, flow: seq<nat>, p: Arc -> bool): nat
    requires |flow| == |arcs|
  {
    if arcs == [] then 0 else
      var n := |arcs| - 1;
      FlowOver(arcs[..n], flow[..n], p) + if p(arcs[n]) then flow[n] else 0
  }

  function To(n: Node): Arc -> bool {
    (a: Arc) => a.to == n
  }

  function From(n: Node): Arc -> bool {
    (a: Arc) => a.from == n
  }

  /** Arcs from, and to, the first `n` zones of an Item. */
  function FromZones(i: nat, n: nat): Arc -> bool {
    (a: Arc) => a.from.ZoneItem? && a.from.ofItem == i && a.from.zone < n
  }

  function ToZones(i: nat, n: nat): Arc -> bool {
    (a: Arc) => a.to.ZoneItem? && a.to.ofItem == i && a.to.zone < n
  }

  ghost predicate IsBalanced(arcs: seq<Arc>, flow: seq<nat>, n: Node)
    requires |flow| == |arcs|
  {
    FlowOver(arcs, flow, To(n)) == FlowOver(arcs, flow, From(n))
  }

  /** Flow is within capacity, and is conserved by all but Source and Sink. */
  ghost predicate IsFeasible(arcs: seq<Arc>, flow: seq<nat>) {
    && |flow| == |arcs|
    && (forall k :: 0 <= k < |arcs| ==> flow[k] <= arcs[k].capacity)
    && (forall n :: n != Source && n != Sink ==> IsBalanced(arcs, flow, n))
  }

  // ---------------------------------------------------------------------------
  // Sums

  lemma {:induction false} SumAlike(arcs: seq<Arc>, flow: seq<nat>, p: Arc -> bool, q: Arc -> bool)
    requires |flow| == |arcs| && forall a :: a in arcs ==> p(a) == q(a)
    ensures FlowOver(arcs, flow, p) == FlowOver(arcs, flow, q)
  {
    if arcs != [] {
      SumAlike(arcs[..|arcs| - 1], flow[..|arcs| - 1], p, q);
    }
  }

  lemma {:induction false} SumSplits(arcs: seq<Arc>, flow: seq<nat>, p: Arc -> bool, q: Arc -> bool, r: Arc -> bool)
    requires |flow| == |arcs| && forall a :: a in arcs ==> !(p(a) && q(a)) && r(a) == (p(a) || q(a))
    ensures FlowOver(arcs, flow, r) == FlowOver(arcs, flow, p) + FlowOver(arcs, flow, q)
  {
    if arcs != [] {
      SumSplits(arcs[..|arcs| - 1], flow[..|arcs| - 1], p, q, r);
    }
  }

  lemma {:induction false} SumOfNone(arcs: seq<Arc>, flow: seq<nat>, p: Arc -> bool)
    requires |flow| == |arcs| && forall a :: a in arcs ==> !p(a)
    ensures FlowOver(arcs, flow, p) == 0
  {
    if arcs != [] {
      SumOfNone(arcs[..|arcs| - 1], flow[..|arcs| - 1], p);
    }
  }

  ghost predicate IsWithin(arcs: seq<Arc>, flow: seq<nat>) {
    |flow| == |arcs| && forall k :: 0 <= k < |arcs| ==> flow[k] <= arcs[k].capacity
  }

  /** At most one Arc joins two nodes, so the flow is within its capacity. */
  lemma {:induction false} SumOfOne(arcs: seq<Arc>, flow: seq<nat>, p: Arc -> bool, from: Node, to: Node, c: nat)
    requires Unique(arcs) && IsWithin(arcs, flow)
    requires forall a :: a in arcs && p(a) ==> a.from == from && a.to == to && a.capacity == c
    ensures FlowOver(arcs, flow, p) <= c
  {
    if arcs != [] {
      var n := |arcs| - 1;
      var init := arcs[..n];
      if p(arcs[n]) {
        assert forall k :: 0 <= k < n ==> init[k] == arcs[k];
        forall a | a in init
          ensures !p(a)
        {
          var k :| 0 <= k < n && arcs[k] == a;
        }
        SumOfNone(init, flow[..n], p);
      } else {
        SumOfOne(init, flow[..n], p, from, to, c);
      }
    }
  }

  lemma {:induction false} OutIsWithin(arcs: seq<Arc>, flow: seq<nat>, n: Node)
    requires IsWithin(arcs, flow)
    ensures FlowOver(arcs, flow, From(n)) <= CapacityFrom(arcs, n)
  {
    if arcs != [] {
      OutIsWithin(arcs[..|arcs| - 1], flow[..|arcs| - 1], n);
    }
  }

  /** If more flows over `p` than over `q`, then some flows over `p` alone. */
  lemma {:induction false} SumExceeds(arcs: seq<Arc>, flow: seq<nat>, p: Arc -> bool, q: Arc -> bool) returns (k: nat)
    requires |flow| == |arcs| && FlowOver(arcs, flow, p) > FlowOver(arcs, flow, q)
    ensures k < |arcs| && flow[k] > 0 && p(arcs[k]) && !q(arcs[k])
  {
    var n := |arcs| - 1;
    if p(arcs[n]) && !q(arcs[n]) && flow[n] > 0 {
      k := n;
    } else {
      k := SumExceeds(arcs[..n], flow[..n], p, q);
    }
  }

  // ---------------------------------------------------------------------------
  // Flow through an Item

  ghost predicate AreSound(arcs: seq<Arc>, l: Layout) {
    && |l.slots| == |l.zoneSlots| && Unique(arcs) && AreZonesOf(l.zones, l.members)
    && (forall a :: a in arcs ==> IsNetworkArc(a, l))
  }

  lemma {:induction false} ZonesBalance(arcs: seq<Arc>, flow: seq<nat>, i: nat, n: nat)
    requires IsFeasible(arcs, flow)
    ensures FlowOver(arcs, flow, FromZones(i, n)) == FlowOver(arcs, flow, ToZones(i, n))
  {
    if n == 0 {
      SumOfNone(arcs, flow, FromZones(i, n));
      SumOfNone(arcs, flow, ToZones(i, n));
    } else {
      ZonesBalance(arcs, flow, i, n - 1);
      var z := ZoneItem(i, n - 1);
      assert IsBalanced(arcs, flow, z);
      SumSplits(arcs, flow, FromZones(i, n - 1), From(z), FromZones(i, n));
      SumSplits(arcs, flow, ToZones(i, n - 1), To(z), ToZones(i, n));
    }
  }

  /** What leaves the Item's zones is what enters the Item. */
  lemma ItemFlow(arcs: seq<Arc>, flow: seq<nat>, l: Layout, i: nat)
    requires AreSound(arcs, l) && IsFeasible(arcs, flow) && i < |l.slots|
    ensures FlowOver(arcs, flow, FromZones(i, |l.zones|)) <= l.slots[i]
  {
    hide FlowOver, AreZonesOf;
    ZonesBalance(arcs, flow, i, |l.zones|);
    SumAlike(arcs, flow, ToZones(i, |l.zones|), From(ItemNode(i)));
    assert IsBalanced(arcs, flow, ItemNode(i));
    SumOfOne(arcs, flow, To(ItemNode(i)), Source, ItemNode(i), l.slots[i]);
  }

  /** No zone of the Item is given more than its share. */
  lemma ZoneFlow(arcs: seq<Arc>, flow: seq<nat>, l: Layout, i: nat, z: nat)
    requires AreSound(arcs, l) && IsFeasible(arcs, flow) && i < |l.slots|
    ensures FlowOver(arcs, flow, From(ZoneItem(i, z))) <= l.zoneSlots[i]
  {
    hide FlowOver, AreZonesOf;
    assert IsBalanced(arcs, flow, ZoneItem(i, z));
    SumOfOne(arcs, flow, To(ZoneItem(i, z)), ItemNode(i), ZoneItem(i, z), l.zoneSlots[i]);
  }

  // ---------------------------------------------------------------------------
  // Members which are taken

  ghost predicate IsTaken(a: Arc, f: nat, i: nat, m: nat) {
    f > 0 && a.from.ZoneItem? && a.from.ofItem == i && a.to == MemberNode(m)
  }

  /** Members which the flow assigns an Item to. */
  ghost function Taken(arcs: seq<Arc>, flow: seq<nat>, i: nat): set<nat>
    requires |flow| == |arcs|
  {
    if arcs == [] then {} else
      var n := |arcs| - 1;
      var more := arcs[n].to.MemberNode? && IsTaken(arcs[n], flow[n], i, arcs[n].to.member);
      Taken(arcs[..n], flow[..n], i) + if more then {arcs[n].to.member} else {}
  }

  lemma {:induction false} TakenMeans(arcs: seq<Arc>, flow: seq<nat>, i: nat, m: nat)
    requires |flow| == |arcs|
    ensures m in Taken(arcs, flow, i) <==> exists k :: 0 <= k < |arcs| && IsTaken(arcs[k], flow[k], i, m)
  {
    if arcs != [] {
      var n := |arcs| - 1;
      TakenMeans(arcs[..n], flow[..n], i, m);
      if m in Taken(arcs[..n], flow[..n], i) {
        var k :| 0 <= k < n && IsTaken(arcs[..n][k], flow[..n][k], i, m);
        assert IsTaken(arcs[k], flow[k], i, m);
      }
      if exists k :: 0 <= k < |arcs| && IsTaken(arcs[k], flow[k], i, m) {
        var k :| 0 <= k < |arcs| && IsTaken(arcs[k], flow[k], i, m);
        if k < n {
          assert IsTaken(arcs[..n][k], flow[..n][k], i, m);
        }
      }
    }
  }

  lemma PrefixIsSound(arcs: seq<Arc>, flow: seq<nat>, l: Layout)
    requires AreSound(arcs, l) && IsWithin(arcs, flow) && arcs != []
    ensures AreSound(arcs[..|arcs| - 1], l) && IsWithin(arcs[..|arcs| - 1], flow[..|arcs| - 1])
  {
  }

  /** A Member's zone, and thus the Arc which it's taken by, is given by the Member and the Item. */
  lemma SameArc(arcs: seq<Arc>, l: Layout, j: nat, k: nat, i: nat, m: nat)
    requires AreSound(arcs, l) && j < |arcs| && k < |arcs|
    requires arcs[j].from.ZoneItem? && arcs[j].from.ofItem == i && arcs[j].to == MemberNode(m)
    requires arcs[k].from.ZoneItem? && arcs[k].from.ofItem == i && arcs[k].to == MemberNode(m)
    ensures j == k
  {
    assert arcs[j] in arcs && arcs[k] in arcs;
    assert IsNetworkArc(arcs[j], l) && IsNetworkArc(arcs[k], l);
    var y, z := arcs[j].from.zone, arcs[k].from.zone;
    assert l.zones[y] == l.zones[z];
  }

  lemma LastIsNew(arcs: seq<Arc>, flow: seq<nat>, l: Layout, i: nat, m: nat)
    requires AreSound(arcs, l) && |flow| == |arcs| && arcs != []
    requires var a := arcs[|arcs| - 1]; a.from.ZoneItem? && a.from.ofItem == i && a.to == MemberNode(m)
    ensures m !in Taken(arcs[..|arcs| - 1], flow[..|arcs| - 1], i)
  {
    hide AreSound;
    var n := |arcs| - 1;
    TakenMeans(arcs[..n], flow[..n], i, m);
    forall k | 0 <= k < n
      ensures !IsTaken(arcs[..n][k], flow[..n][k], i, m)
    {
      if arcs[k].from.ZoneItem? && arcs[k].from.ofItem == i && arcs[k].to == MemberNode(m) {
        SameArc(arcs, l, k, n, i, m);
      }
    }
  }

  /** As many Members are taken as flow leaves the Item's zones. */
  lemma {:induction false} TakenCount(arcs: seq<Arc>, flow: seq<nat>, l: Layout, i: nat)
    requires AreSound(arcs, l) && IsWithin(arcs, flow)
    ensures |Taken(arcs, flow, i)| == FlowOver(arcs, flow, FromZones(i, |l.zones|))
  {
    if arcs != [] {
      var n := |arcs| - 1;
      PrefixIsSound(arcs, flow, l);
      TakenCount(arcs[..n], flow[..n], l, i);
      var a := arcs[n];
      assert a in arcs && IsNetworkArc(a, l);
      if a.from.ZoneItem? && a.from.ofItem == i {
        assert a.capacity == 1 && a.to.MemberNode?;
        LastIsNew(arcs, flow, l, i, a.to.member);
      }
    }
  }

  /** Items which the flow assigns to a Member. */
  ghost function Holding(arcs: seq<Arc>, flow: seq<nat>, m: nat): set<nat>
    requires |flow| == |arcs|
  {
    if arcs == [] then {} else
      var n := |arcs| - 1;
      var more := arcs[n].from.ZoneItem? && IsTaken(arcs[n], flow[n], arcs[n].from.ofItem, m);
      Holding(arcs[..n], flow[..n], m) + if more then {arcs[n].from.ofItem} else {}
  }

  /** An Item is held by a Member just if the Member is taken by the Item. */
  lemma {:induction false} HoldingIsTaken(arcs: seq<Arc>, flow: seq<nat>, i: nat, m: nat)
    requires |flow| == |arcs|
    ensures i in Holding(arcs, flow, m) <==> m in Taken(arcs, flow, i)
  {
    if arcs != [] {
      HoldingIsTaken(arcs[..|arcs| - 1], flow[..|arcs| - 1], i, m);
    }
  }

  lemma {:induction false} HoldingCount(arcs: seq<Arc>, flow: seq<nat>, l: Layout, m: nat)
    requires AreSound(arcs, l) && IsWithin(arcs, flow)
    ensures |Holding(arcs, flow, m)| == FlowOver(arcs, flow, To(MemberNode(m)))
  {
    if arcs != [] {
      var n := |arcs| - 1;
      PrefixIsSound(arcs, flow, l);
      HoldingCount(arcs[..n], flow[..n], l, m);
      var a := arcs[n];
      assert a in arcs && IsNetworkArc(a, l);
      if a.to == MemberNode(m) {
        assert a.from.ZoneItem? && a.capacity == 1;
        LastIsNew(arcs, flow, l, a.from.ofItem, m);
        HoldingIsTaken(arcs[..n], flow[..n], a.from.ofItem, m);
      }
    }
  }

  // ---------------------------------------------------------------------------
  // Soundness of any feasible flow

  /** Within the slots of each Item. */
  lemma ItemIsWithinSlots(arcs: seq<Arc>, flow: seq<nat>, l: Layout, i: nat)
    requires IsNetwork(arcs, l) && AreZonesOf(l.zones, l.members) && IsFeasible(arcs, flow) && i < |l.slots|
    ensures |Taken(arcs, flow, i)| <= l.slots[i]
  {
    TakenCount(arcs, flow, l, i);
    ItemFlow(arcs, flow, l, i);
  }

  /** Within the limit of each Member. */
  lemma MemberIsWithinLimit(arcs: seq<Arc>, flow: seq<nat>, l: Layout, m: nat)
    requires IsNetwork(arcs, l) && AreZonesOf(l.zones, l.members) && IsFeasible(arcs, flow) && m < |l.members|
    ensures |Holding(arcs, flow, m)| <= l.members[m].limit
  {
    HoldingCount(arcs, flow, l, m);
    assert IsBalanced(arcs, flow, MemberNode(m));
    OutIsWithin(arcs, flow, MemberNode(m));
  }

  /** Every Member which is taken is a known one. */
  lemma TakenAreMembers(arcs: seq<Arc>, flow: seq<nat>, l: Layout, i: nat, m: nat)
    requires AreSound(arcs, l) && |flow| == |arcs| && m in Taken(arcs, flow, i)
    ensures i < |l.slots| && m < |l.members|
  {
    TakenMeans(arcs, flow, i, m);
    var k :| 0 <= k < |arcs| && IsTaken(arcs[k], flow[k], i, m);
    assert arcs[k] in arcs && IsNetworkArc(arcs[k], l);
  }

  /** A saturated Item, the share of which is less in any zone, has a Member outside of any given zone. */
  lemma LeavesZone(arcs: seq<Arc>, flow: seq<nat>, l: Layout, i: nat, z: nat) returns (m: nat)
    requires AreSound(arcs, l) && IsFeasible(arcs, flow) && i < |l.slots| && z < |l.zones|
    requires |Taken(arcs, flow, i)| == l.slots[i] && l.zoneSlots[i] < l.slots[i]
    ensures m in Taken(arcs, flow, i) && m < |l.members| && l.members[m].zone != l.zones[z]
  {
    hide FlowOver, Taken;
    TakenCount(arcs, flow, l, i);
    ZoneFlow(arcs, flow, l, i, z);
    var k := SumExceeds(arcs, flow, FromZones(i, |l.zones|), From(ZoneItem(i, z)));
    assert arcs[k] in arcs && IsNetworkArc(arcs[k], l);
    m := arcs[k].to.member;
    assert IsTaken(arcs[k], flow[k], i, m);
    TakenMeans(arcs, flow, i, m);
  }

  lemma SpansZones(arcs: seq<Arc>, flow: seq<nat>, l: Layout, i: nat) returns (m: nat, k: nat)
    requires AreSound(arcs, l) && IsFeasible(arcs, flow) && i < |l.slots|
    requires |Taken(arcs, flow, i)| == l.slots[i] && l.zoneSlots[i] < l.slots[i]
    ensures IsPairAcross(Taken(arcs, flow, i), l.members, m, k)
  {
    hide Taken, Unique, IsNetworkArc;
    assert Taken(arcs, flow, i) != {};
    m :| m in Taken(arcs, flow, i);
    TakenAreMembers(arcs, flow, l, i, m);
    assert l.members[m].zone in l.zones;
    var z :| 0 <= z < |l.zones| && l.zones[z] == l.members[m].zone;
    k := LeavesZone(arcs, flow, l, i, z);
  }

  lemma ZoneShareIsLess(items: seq<Item>, zones: seq<int>, zoneSlots: seq<nat>, members: seq<Member>, i: nat)
    requires i < |items| && EffectiveZones(zoneSlots, |items|) > 1
    ensures var l := LayoutOf(items, zones, zoneSlots, members); l.slots[i] > 1 ==> l.zoneSlots[i] < l.slots[i]
  {
    hide EffectiveZones;
  }

  /** A saturated Item of more than one slot spans zones, where there's more than one effective zone. */
  lemma SaturatedItemSpansZones(
    items: seq<Item>, zones: seq<int>, zoneSlots: seq<nat>, members: seq<Member>, l: Layout,
    arcs: seq<Arc>, flow: seq<nat>, i: nat)
    returns (m: nat, k: nat)
    requires |flow| == |arcs| && i < |items| && l == LayoutOf(items, zones, zoneSlots, members)
    requires |Taken(arcs, flow, i)| == l.slots[i] > 1 && EffectiveZones(zoneSlots, |items|) > 1
    requires AreZonesOf(l.zones, l.members) && IsNetwork(arcs, l) && IsFeasible(arcs, flow)
    ensures IsPairAcross(Taken(arcs, flow, i), members, m, k)
  {
    hide IsNetwork, IsFeasible, Taken, AreZonesOf, EffectiveZones, AreSound, IsPairAcross;
    ZoneShareIsLess(items, zones, zoneSlots, members, i);
    NetworkIsSound(arcs, l);
    m, k := SpansZones(arcs, flow, l, i);
  }

  lemma NetworkIsSound(arcs: seq<Arc>, l: Layout)
    requires IsNetwork(arcs, l) && AreZonesOf(l.zones, l.members)
    ensures AreSound(arcs, l)
  {
  }

  ghost predicate IsPairAcross(taken: set<nat>, members: seq<Member>, m: nat, k: nat) {
    m in taken && k in taken && m < |members| && k < |members| && members[m].zone != members[k].zone
  }

  // ---------------------------------------------------------------------------
  // Extraction

  ghost predicate IsAscending(s: seq<nat>) {
    forall i, j :: 0 <= i < j < |s| ==> s[i] < s[j]
  }

  ghost function Elements(s: seq<nat>): set<nat> {
    set x | x in s
  }

  lemma InsertElement(s: seq<nat>, p: nat, x: nat)
    requires IsAscending(s) && x !in s && p <= |s|
    requires (forall i :: 0 <= i < p ==> s[i] < x) && (forall i :: p <= i < |s| ==> s[i] > x)
    ensures IsAscending(s[..p] + [x] + s[p..]) && Elements(s[..p] + [x] + s[p..]) == Elements(s) + {x}
  {
    var a, b := s[..p], s[p..];
    var t := a + [x] + b;
    assert IsAscending(t) by {
      assert forall i :: 0 <= i < |t| ==> t[i] == if i < p then s[i] else if i == p then x else s[i - 1];
    }
    assert s == a + b;
    hide IsAscending;
    assert Elements(t) == Elements(a) + {x} + Elements(b) && Elements(a + b) == Elements(a) + Elements(b);
  }

  /** Members ordered as their Assignments are: that's the order of Members themselves. */
  method Sort(s: seq<nat>) returns (t: seq<nat>)
    requires forall i, j :: 0 <= i < j < |s| ==> s[i] != s[j]
    ensures IsAscending(t) && Elements(t) == Elements(s)
  {
    t := [];
    for i := 0 to |s|
      invariant IsAscending(t) && Elements(t) == Elements(s[..i])
    {
      var p := 0;
      while p < |t| && t[p] < s[i]
        invariant p <= |t| && forall k :: 0 <= k < p ==> t[k] < s[i]
      {
        p := p + 1;
      }
      assert s[i] !in Elements(s[..i]);
      assert s[i] !in t by {
        assert forall x :: x in t ==> x in Elements(t);
      }
      InsertElement(t, p, s[i]);
      assert s[..i + 1] == s[..i] + [s[i]];
      t := t[..p] + [s[i]] + t[p..];
    }
    assert s[..|s|] == s;
  }

  /** Members of zone `z` which are taken. */
  ghost function TakenIn(arcs: seq<Arc>, flow: seq<nat>, l: Layout, i: nat, z: nat): set<nat>
    requires |flow| == |arcs| && z < |l.zones|
  {
    set m | m in Taken(arcs, flow, i) && m < |l.members| && l.members[m].zone == l.zones[z]
  }

  ghost predicate AreDistinct(s: seq<nat>) {
    forall i, j :: 0 <= i < j < |s| ==> s[i] != s[j]
  }

  lemma CollectStep(arcs: seq<Arc>, flow: seq<nat>, l: Layout, i: nat, z: nat, k: nat)
    requires AreSound(arcs, l) && |flow| == |arcs| && k < |arcs| && z < |l.zones|
    ensures var a, was := arcs[k], TakenIn(arcs[..k], flow[..k], l, i, z);
      if a.from == ZoneItem(i, z) && flow[k] > 0
      then a.to.MemberNode? && a.to.member !in was
        && TakenIn(arcs[..k + 1], flow[..k + 1], l, i, z) == was + {a.to.member}
      else TakenIn(arcs[..k + 1], flow[..k + 1], l, i, z) == was
  {
    var a := arcs[k];
    assert a in arcs && IsNetworkArc(a, l);
    assert arcs[..k + 1][..k] == arcs[..k] && flow[..k + 1][..k] == flow[..k];
    assert AreSound(arcs[..k + 1], l);
    if a.from.ZoneItem? && a.from.ofItem == i {
      LastIsNew(arcs[..k + 1], flow[..k + 1], l, i, a.to.member);
    }
  }

  lemma DistinctSnoc(s: seq<nat>, x: nat)
    requires AreDistinct(s) && x !in Elements(s)
    ensures AreDistinct(s + [x]) && Elements(s + [x]) == Elements(s) + {x}
  {
  }

  lemma DistinctConcat(s: seq<nat>, t: seq<nat>)
    requires AreDistinct(s) && AreDistinct(t) && Elements(s) !! Elements(t)
    ensures AreDistinct(s + t) && Elements(s + t) == Elements(s) + Elements(t)
  {
    forall i, j | 0 <= i < |s| && 0 <= j < |t|
      ensures s[i] != t[j]
    {
      assert s[i] in Elements(s) && t[j] in Elements(t);
    }
  }

  /** Members which Arcs of a Zone-Item send flow to. */
  method CollectZone(arcs: seq<Arc>, flow: seq<nat>, i: nat, z: nat, ghost l: Layout) returns (out: seq<nat>)
    requires AreSound(arcs, l) && |flow| == |arcs| && z < |l.zones|
    ensures AreDistinct(out) && Elements(out) == TakenIn(arcs, flow, l, i, z)
  {
    hide TakenIn, AreSound, AreDistinct, Elements;
    out := [];
    CollectNone(arcs, flow, l, i, z);
    for k := 0 to |arcs|
      invariant AreDistinct(out) && Elements(out) == TakenIn(arcs[..k], flow[..k], l, i, z)
    {
      CollectStep(arcs, flow, l, i, z, k);
      if arcs[k].from == ZoneItem(i, z) && flow[k] > 0 {
        DistinctSnoc(out, arcs[k].to.member);
        out := out + [arcs[k].to.member];
      }
    }
    assert arcs[..|arcs|] == arcs && flow[..|flow|] == flow;
  }

  lemma CollectNone(arcs: seq<Arc>, flow: seq<nat>, l: Layout, i: nat, z: nat)
    requires |flow| == |arcs| && z < |l.zones|
    ensures AreDistinct([]) && Elements([]) == TakenIn(arcs[..0], flow[..0], l, i, z)
  {
  }

  /** Members of the first `n` zones which are taken. */
  ghost function TakenBelow(arcs: seq<Arc>, flow: seq<nat>, l: Layout, i: nat, n: nat): set<nat>
    requires |flow| == |arcs| && n <= |l.zones|
  {
    if n == 0 then {} else TakenBelow(arcs, flow, l, i, n - 1) + TakenIn(arcs, flow, l, i, n - 1)
  }

  lemma {:induction false} BelowIsApart(arcs: seq<Arc>, flow: seq<nat>, l: Layout, i: nat, n: nat, z: nat)
    requires |flow| == |arcs| && n <= z < |l.zones| && AreZonesOf(l.zones, l.members)
    ensures TakenBelow(arcs, flow, l, i, n) !! TakenIn(arcs, flow, l, i, z)
  {
    hide HasMember;
    if n > 0 {
      BelowIsApart(arcs, flow, l, i, n - 1, z);
    }
  }

  lemma {:induction false} BelowMeans(arcs: seq<Arc>, flow: seq<nat>, l: Layout, i: nat, n: nat, m: nat)
    requires |flow| == |arcs| && n <= |l.zones|
    ensures m in TakenBelow(arcs, flow, l, i, n) <==> exists z :: 0 <= z < n && m in TakenIn(arcs, flow, l, i, z)
  {
    hide TakenIn;
    if n > 0 {
      BelowMeans(arcs, flow, l, i, n - 1, m);
    }
  }

  /** Every Member which is taken is of some zone. */
  lemma AllAreBelow(arcs: seq<Arc>, flow: seq<nat>, l: Layout, i: nat)
    requires AreSound(arcs, l) && |flow| == |arcs|
    ensures TakenBelow(arcs, flow, l, i, |l.zones|) == Taken(arcs, flow, i)
  {
    hide Taken, TakenBelow, Unique, IsNetworkArc;
    forall m | m in Taken(arcs, flow, i)
      ensures m in TakenBelow(arcs, flow, l, i, |l.zones|)
    {
      TakenAreMembers(arcs, flow, l, i, m);
      assert l.members[m].zone in l.zones;
      var z :| 0 <= z < |l.zones| && l.zones[z] == l.members[m].zone;
      assert m in TakenIn(arcs, flow, l, i, z);
      BelowMeans(arcs, flow, l, i, |l.zones|, m);
    }
    forall m | m in TakenBelow(arcs, flow, l, i, |l.zones|)
      ensures m in Taken(arcs, flow, i)
    {
      BelowMeans(arcs, flow, l, i, |l.zones|, m);
    }
  }

  /** Desired Members of an Item, ordered and without duplicates: exactly those which are taken. */
  method ExtractItemFlow(arcs: seq<Arc>, flow: seq<nat>, zoneCount: nat, i: nat, ghost l: Layout)
    returns (out: seq<nat>)
    requires AreSound(arcs, l) && |flow| == |arcs| && zoneCount == |l.zones|
    ensures IsAscending(out) && Elements(out) == Taken(arcs, flow, i)
  {
    hide AreSound, TakenIn, TakenBelow, Taken, AreDistinct, Elements;
    var all := [];
    CollectBegin(arcs, flow, l, i);
    for z := 0 to zoneCount
      invariant AreDistinct(all) && Elements(all) == TakenBelow(arcs, flow, l, i, z)
    {
      var more := CollectZone(arcs, flow, i, z, l);
      CollectNext(arcs, flow, l, i, z);
      DistinctConcat(all, more);
      all := all + more;
    }
    AllAreBelow(arcs, flow, l, i);
    DistinctMeans(all);
    out := Sort(all);
  }

  lemma DistinctMeans(s: seq<nat>)
    requires AreDistinct(s)
    ensures forall i, j :: 0 <= i < j < |s| ==> s[i] != s[j]
  {
  }

  lemma CollectBegin(arcs: seq<Arc>, flow: seq<nat>, l: Layout, i: nat)
    requires |flow| == |arcs|
    ensures AreDistinct([]) && Elements([]) == TakenBelow(arcs, flow, l, i, 0)
  {
  }

  lemma CollectNext(arcs: seq<Arc>, flow: seq<nat>, l: Layout, i: nat, z: nat)
    requires AreSound(arcs, l) && |flow| == |arcs| && z < |l.zones|
    ensures TakenBelow(arcs, flow, l, i, z) !! TakenIn(arcs, flow, l, i, z)
    ensures TakenBelow(arcs, flow, l, i, z + 1) == TakenBelow(arcs, flow, l, i, z) + TakenIn(arcs, flow, l, i, z)
  {
    BelowIsApart(arcs, flow, l, i, z, z);
  }

  function DesiredMembers(i: nat, members: seq<nat>): (d: seq<Converge.Desired>)
    ensures |d| == |members| && forall k :: 0 <= k < |members| ==> d[k] == Converge.Desired(i, members[k])
  {
    seq(|members|, k requires 0 <= k < |members| => Converge.Desired(i, members[k]))
  }

  lemma DesiredGrows(desired: seq<Converge.Desired>, i: nat, members: seq<nat>, itemCount: nat, limits: map<int, int>)
    requires Converge.DesiredIsOrdered(desired, itemCount, limits) && (forall d :: d in desired ==> d.item < i)
             && i < itemCount
    requires IsAscending(members) && forall m :: m in members ==> m in limits
    ensures Converge.DesiredIsOrdered(desired + DesiredMembers(i, members), itemCount, limits)
  {
    var all := desired + DesiredMembers(i, members);
    forall j, k | 0 <= j < k < |all|
      ensures Converge.IsBefore(all[j], all[k])
    {
      if j < |desired| {
        assert all[j] in desired;
      } else {
        assert all[j] == Converge.Desired(i, members[j - |desired|]);
      }
      if k >= |desired| {
        assert all[k] == Converge.Desired(i, members[k - |desired|]);
      }
    }
  }

  lemma DesiredIsTaken(desired: seq<Converge.Desired>, i: nat, members: seq<nat>, k: nat)
    requires forall d :: d in desired ==> d.item < i
    ensures k < i ==> Converge.DesiredOf(desired + DesiredMembers(i, members), k) == Converge.DesiredOf(desired, k)
    ensures Converge.DesiredOf(desired + DesiredMembers(i, members), i) == Elements(members)
  {
    var more := DesiredMembers(i, members);
    var all := desired + more;
    assert forall d :: d in all <==> d in desired || d in more;
    forall m | m in Elements(members)
      ensures m in Converge.DesiredOf(all, i)
    {
      var p :| 0 <= p < |members| && members[p] == m;
      assert more[p] in all;
    }
  }

  ghost predicate IsExtracted(desired: seq<Converge.Desired>, arcs: seq<Arc>, flow: seq<nat>, n: nat)
    requires |flow| == |arcs|
  {
    && (forall d :: d in desired ==> d.item < n)
    && (forall i :: 0 <= i < n ==> Converge.DesiredOf(desired, i) == Taken(arcs, flow, i))
  }

  lemma ExtractStep(desired: seq<Converge.Desired>, arcs: seq<Arc>, flow: seq<nat>, i: nat, members: seq<nat>)
    requires |flow| == |arcs| && IsExtracted(desired, arcs, flow, i) && Elements(members) == Taken(arcs, flow, i)
    ensures IsExtracted(desired + DesiredMembers(i, members), arcs, flow, i + 1)
  {
    hide Taken, Converge.DesiredOf, Elements;
    var all := desired + DesiredMembers(i, members);
    forall k | 0 <= k < i + 1
      ensures Converge.DesiredOf(all, k) == Taken(arcs, flow, k)
    {
      DesiredIsTaken(desired, i, members, k);
    }
  }

  /** Desired Assignments of all Items, in the order which convergence walks them. */
  method ExtractAll(arcs: seq<Arc>, flow: seq<nat>, itemCount: nat, zoneCount: nat, ghost l: Layout,
                    ghost limits: map<int, int>)
    returns (desired: seq<Converge.Desired>)
    requires AreSound(arcs, l) && |flow| == |arcs| && zoneCount == |l.zones|
    requires forall m :: 0 <= m < |l.members| ==> m in limits
    ensures Converge.DesiredIsOrdered(desired, itemCount, limits) && IsExtracted(desired, arcs, flow, itemCount)
  {
    hide AreSound, IsExtracted, Taken, Converge.DesiredIsOrdered, Elements, IsAscending;
    desired := [];
    ExtractBegin(arcs, flow, itemCount, limits);
    for i := 0 to itemCount
      invariant Converge.DesiredIsOrdered(desired, itemCount, limits) && IsExtracted(desired, arcs, flow, i)
    {
      var members := ExtractItemFlow(arcs, flow, zoneCount, i, l);
      ExtractIsKnown(desired, arcs, flow, l, i, members, limits);
      DesiredGrows(desired, i, members, itemCount, limits);
      ExtractStep(desired, arcs, flow, i, members);
      desired := desired + DesiredMembers(i, members);
    }
  }

  lemma ExtractBegin(arcs: seq<Arc>, flow: seq<nat>, itemCount: nat, limits: map<int, int>)
    requires |flow| == |arcs|
    ensures Converge.DesiredIsOrdered([], itemCount, limits) && IsExtracted([], arcs, flow, 0)
  {
  }

  lemma ExtractIsKnown(desired: seq<Converge.Desired>, arcs: seq<Arc>, flow: seq<nat>, l: Layout, i: nat,
                       members: seq<nat>, limits: map<int, int>)
    requires AreSound(arcs, l) && |flow| == |arcs| && Elements(members) == Taken(arcs, flow, i)
    requires IsExtracted(desired, arcs, flow, i) && forall m :: 0 <= m < |l.members| ==> m in limits
    ensures (forall m :: m in members ==> m in limits) && (forall d :: d in desired ==> d.item < i)
  {
    hide Taken, AreSound;
    forall m | m in members
      ensures m in limits
    {
      assert m in Elements(members);
      TakenAreMembers(arcs, flow, l, i, m);
    }
  }
}

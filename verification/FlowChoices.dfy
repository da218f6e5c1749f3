/**
 * Feasible flows over the network (v2/pkg/allocator/flow_network.go) are exactly the choices of Members which are
 * within the slots of each Item, spread over zones, and within the limit of each Member. Nothing else is asked of them:
 * Arcs to Overflow make up for scaled capacities.
 */
module FlowChoices {
  import opened Common
  import opened FlowNetwork
  import opened Network
  import opened Flow
  import ZoneScaling

  /** Members of a zone, of those which are chosen. */
  function InZone(l: Layout, chosen: set<nat>, z: nat): (s: set<nat>)
    requires z < |l.zones|
    ensures s <= chosen
  {
    set m | m in chosen && m < |l.members| && l.members[m].zone == l.zones[z]
  }

  /** Items which a Member is chosen for. */
  function ItemsOf(chosen: seq<set<nat>>, m: nat): set<nat> {
    set i | 0 <= i < |chosen| && m in chosen[i]
  }

  ghost predicate IsChoice(chosen: seq<set<nat>>, l: Layout) {
    && |chosen| == |l.slots| == |l.zoneSlots|
    && (forall i, m :: 0 <= i < |chosen| && m in chosen[i] ==> m < |l.members|)
    && (forall i :: 0 <= i < |chosen| ==> |chosen[i]| <= l.slots[i])
    && (forall i, z :: 0 <= i < |chosen| && 0 <= z < |l.zones| ==> |InZone(l, chosen[i], z)| <= l.zoneSlots[i])
    && (forall m :: 0 <= m < |l.members| ==> |ItemsOf(chosen, m)| <= l.members[m].limit)
  }

  // ---------------------------------------------------------------------------
  // Sums

  /** Flow depends on the Arcs which are selected only. */
  lemma {:induction false} SumSame(arcs: seq<Arc>, f: seq<nat>, g: seq<nat>, p: Arc -> bool)
    requires |f| == |g| == |arcs| && forall k :: 0 <= k < |arcs| && p(arcs[k]) ==> f[k] == g[k]
    ensures FlowOver(arcs, f, p) == FlowOver(arcs, g, p)
  {
    if arcs != [] {
      SumSame(arcs[..|arcs| - 1], f[..|arcs| - 1], g[..|arcs| - 1], p);
    }
  }

  /** If the `k`-th Arc is the only one which is selected, all flow is its. */
  lemma {:induction false} SumIsOne(arcs: seq<Arc>, flow: seq<nat>, p: Arc -> bool, k: nat)
    requires k < |arcs| == |flow| && p(arcs[k]) && forall j :: 0 <= j < |arcs| && j != k ==> !p(arcs[j])
    ensures FlowOver(arcs, flow, p) == flow[k]
  {
    var n := |arcs| - 1;
    if k == n {
      SumOfNone(arcs[..n], flow[..n], p);
    } else {
      SumIsOne(arcs[..n], flow[..n], p, k);
    }
  }

  /** The Arc which joins two nodes, of those which `p` selects. */
  lemma SumOfArc(arcs: seq<Arc>, flow: seq<nat>, p: Arc -> bool, from: Node, to: Node) returns (k: nat)
    requires Unique(arcs) && |flow| == |arcs| && HasArc(arcs, from, to)
    requires forall a :: a in arcs ==> (p(a) <==> a.from == from && a.to == to)
    ensures k < |arcs| && arcs[k].from == from && arcs[k].to == to && FlowOver(arcs, flow, p) == flow[k]
  {
    var a :| a in arcs && a.from == from && a.to == to;
    k :| 0 <= k < |arcs| && arcs[k] == a;
    forall j | 0 <= j < |arcs| && j != k ensures !p(arcs[j]) {
      assert arcs[j] in arcs;
    }
    SumIsOne(arcs, flow, p, k);
  }

  lemma {:induction false} SumWithin(arcs: seq<Arc>, flow: seq<nat>, p: Arc -> bool, q: Arc -> bool)
    requires |flow| == |arcs| && forall a :: a in arcs && p(a) ==> q(a)
    ensures FlowOver(arcs, flow, p) <= FlowOver(arcs, flow, q)
  {
    if arcs != [] {
      SumWithin(arcs[..|arcs| - 1], flow[..|arcs| - 1], p, q);
    }
  }

  // ---------------------------------------------------------------------------
  // Flow to Members

  /** One unit to each Member which is chosen, and what that takes of the Item and of its zones. */
  function ItemPart(a: Arc, l: Layout, chosen: seq<set<nat>>): nat {
    match a.from
    case Source => if a.to.ItemNode? && a.to.item < |chosen| then |chosen[a.to.item]| else 0
    case ItemNode(i) =>
      if i < |chosen| && a.to.ZoneItem? && a.to.zone < |l.zones| then |InZone(l, chosen[i], a.to.zone)| else 0
    case ZoneItem(i, _) => if i < |chosen| && a.to.MemberNode? && a.to.member in chosen[i] then 1 else 0
    case _ => 0
  }

  function ItemParts(arcs: seq<Arc>, l: Layout, chosen: seq<set<nat>>): (f: seq<nat>)
    ensures |f| == |arcs| && forall k :: 0 <= k < |arcs| ==> f[k] == ItemPart(arcs[k], l, chosen)
  {
    seq(|arcs|, k requires 0 <= k < |arcs| => ItemPart(arcs[k], l, chosen))
  }

  lemma PartsAreWithin(arcs: seq<Arc>, l: Layout, chosen: seq<set<nat>>)
    requires AreSound(arcs, l) && IsChoice(chosen, l)
    ensures IsWithin(arcs, ItemParts(arcs, l, chosen))
  {
    hide InZone, ItemsOf, Unique, AreZonesOf;
    forall k | 0 <= k < |arcs| ensures ItemPart(arcs[k], l, chosen) <= arcs[k].capacity {
      assert arcs[k] in arcs && IsNetworkArc(arcs[k], l);
    }
  }

  /** Just Members which are chosen are taken. */
  lemma PartsTakeChosen(arcs: seq<Arc>, l: Layout, chosen: seq<set<nat>>, flow: seq<nat>, i: nat)
    requires IsNetwork(arcs, l) && AreZonesOf(l.zones, l.members) && IsChoice(chosen, l) && i < |chosen|
    requires |flow| == |arcs|
    requires forall k :: 0 <= k < |arcs| && arcs[k].from.ZoneItem? ==> flow[k] == ItemPart(arcs[k], l, chosen)
    ensures Taken(arcs, flow, i) == chosen[i]
  {
    hide Taken, InZone, ItemsOf, CapacityFrom, HasMember;
    forall m: nat ensures m in Taken(arcs, flow, i) <==> m in chosen[i] {
      TakenMeans(arcs, flow, i, m);
      if m in chosen[i] {
        var z :| 0 <= z < |l.zones| && l.zones[z] == l.members[m].zone;
        assert HasItemArcs(arcs, l, i);
        assert HasArc(arcs, ZoneItem(i, z), MemberNode(m));
        var a :| a in arcs && a.from == ZoneItem(i, z) && a.to == MemberNode(m);
        var k :| 0 <= k < |arcs| && arcs[k] == a;
        assert IsTaken(arcs[k], flow[k], i, m);
      }
    }
  }

  // ---------------------------------------------------------------------------
  // Flow to Members of one zone

  /** As many Members of a zone are taken as flow leaves the Zone-Item. */
  lemma {:induction false} TakenInCount(arcs: seq<Arc>, flow: seq<nat>, l: Layout, i: nat, z: nat)
    requires AreSound(arcs, l) && IsWithin(arcs, flow) && z < |l.zones|
    ensures |InZone(l, Taken(arcs, flow, i), z)| == FlowOver(arcs, flow, From(ZoneItem(i, z)))
  {
    if arcs == [] {
      assert InZone(l, Taken(arcs, flow, i), z) == {};
    } else {
      var n := |arcs| - 1;
      PrefixIsSound(arcs, flow, l);
      TakenInCount(arcs[..n], flow[..n], l, i, z);
      TakenInStep(arcs, flow, l, i, z);
    }
  }

  lemma TakenInStep(arcs: seq<Arc>, flow: seq<nat>, l: Layout, i: nat, z: nat)
    requires AreSound(arcs, l) && IsWithin(arcs, flow) && z < |l.zones| && arcs != []
    ensures var n := |arcs| - 1;
            |InZone(l, Taken(arcs, flow, i), z)| == |InZone(l, Taken(arcs[..n], flow[..n], i), z)|
              + if arcs[n].from == ZoneItem(i, z) then flow[n] else 0
  {
    var n := |arcs| - 1;
    var a := arcs[n];
    assert a in arcs && IsNetworkArc(a, l);
    var was, now := Taken(arcs[..n], flow[..n], i), Taken(arcs, flow, i);
    if a.from.ZoneItem? && a.from.ofItem == i {
      LastIsNew(arcs, flow, l, i, a.to.member);
      var y := a.from.zone;
      assert l.zones[y] == l.zones[z] <==> y == z;
      if flow[n] > 0 && y == z {
        assert InZone(l, now, z) == InZone(l, was, z) + {a.to.member};
      } else {
        assert InZone(l, now, z) == InZone(l, was, z);
      }
    } else {
      assert now == was;
    }
  }

  // ---------------------------------------------------------------------------
  // Balance of Items and zones

  /** Members of the first `n` zones, of those which are chosen. */
  function InZones(l: Layout, chosen: set<nat>, n: nat): set<nat>
    requires n <= |l.zones|
  {
    set m | m in chosen && m < |l.members| && l.members[m].zone in l.zones[..n]
  }

  lemma NextZone(l: Layout, chosen: set<nat>, n: nat)
    requires AreZonesOf(l.zones, l.members) && n < |l.zones|
    ensures |InZones(l, chosen, n + 1)| == |InZones(l, chosen, n)| + |InZone(l, chosen, n)|
  {
    assert l.zones[..n + 1] == l.zones[..n] + [l.zones[n]];
    assert InZones(l, chosen, n + 1) == InZones(l, chosen, n) + InZone(l, chosen, n);
    assert InZones(l, chosen, n) !! InZone(l, chosen, n);
  }

  lemma AllZones(l: Layout, chosen: set<nat>)
    requires AreZonesOf(l.zones, l.members) && forall m :: m in chosen ==> m < |l.members|
    ensures InZones(l, chosen, |l.zones|) == chosen
  {
    assert l.zones[..|l.zones|] == l.zones;
  }

  /** The flow of Arcs to Members, zones and Items is that of the choice. */
  ghost predicate IsPart(arcs: seq<Arc>, flow: seq<nat>, l: Layout, chosen: seq<set<nat>>) {
    && |flow| == |arcs|
    && forall k :: 0 <= k < |arcs| && !arcs[k].from.MemberNode? && arcs[k].from != Overflow ==>
         flow[k] == ItemPart(arcs[k], l, chosen)
  }

  ghost predicate AreReady(arcs: seq<Arc>, l: Layout, chosen: seq<set<nat>>) {
    IsNetwork(arcs, l) && AreZonesOf(l.zones, l.members) && IsChoice(chosen, l)
  }

  lemma ZoneIsFed(arcs: seq<Arc>, flow: seq<nat>, l: Layout, chosen: seq<set<nat>>, i: nat, z: nat)
    requires AreReady(arcs, l, chosen) && IsPart(arcs, flow, l, chosen) && i < |chosen| && z < |l.zones|
    ensures FlowOver(arcs, flow, To(ZoneItem(i, z))) == |InZone(l, chosen[i], z)|
  {
    hide FlowOver, InZone, ItemsOf, CapacityFrom, AreZonesOf;
    assert HasItemArcs(arcs, l, i);
    forall a | a in arcs ensures To(ZoneItem(i, z))(a) <==> a.from == ItemNode(i) && a.to == ZoneItem(i, z) {
      assert IsNetworkArc(a, l);
    }
    var k := SumOfArc(arcs, flow, To(ZoneItem(i, z)), ItemNode(i), ZoneItem(i, z));
  }

  lemma {:induction false} ZonesAreFed(
    arcs: seq<Arc>, flow: seq<nat>, l: Layout, chosen: seq<set<nat>>, i: nat, n: nat)
    requires AreReady(arcs, l, chosen) && IsPart(arcs, flow, l, chosen) && i < |chosen| && n <= |l.zones|
    ensures FlowOver(arcs, flow, ToZones(i, n)) == |InZones(l, chosen[i], n)|
  {
    hide FlowOver, InZone, ItemsOf, IsNetwork, IsChoice;
    if n == 0 {
      assert InZones(l, chosen[i], 0) == {};
      SumOfNone(arcs, flow, ToZones(i, 0));
    } else {
      ZonesAreFed(arcs, flow, l, chosen, i, n - 1);
      ZoneIsFed(arcs, flow, l, chosen, i, n - 1);
      NextZone(l, chosen[i], n - 1);
      SumSplits(arcs, flow, ToZones(i, n - 1), To(ZoneItem(i, n - 1)), ToZones(i, n));
    }
  }

  lemma ItemIsBalanced(arcs: seq<Arc>, flow: seq<nat>, l: Layout, chosen: seq<set<nat>>, i: nat)
    requires AreReady(arcs, l, chosen) && IsPart(arcs, flow, l, chosen)
    ensures IsBalanced(arcs, flow, ItemNode(i))
  {
    hide FlowOver, InZone, InZones, ItemsOf, CapacityFrom, AreZonesOf;
    forall a | a in arcs
      ensures To(ItemNode(i))(a) <==> a.from == Source && a.to == ItemNode(i)
      ensures From(ItemNode(i))(a) <==> ToZones(i, |l.zones|)(a)
      ensures To(ItemNode(i))(a) || From(ItemNode(i))(a) ==> i < |chosen|
    {
      assert IsNetworkArc(a, l);
    }
    if i < |chosen| {
      assert HasItemArcs(arcs, l, i);
      var k := SumOfArc(arcs, flow, To(ItemNode(i)), Source, ItemNode(i));
      SumAlike(arcs, flow, ToZones(i, |l.zones|), From(ItemNode(i)));
      ZonesAreFed(arcs, flow, l, chosen, i, |l.zones|);
      AllZones(l, chosen[i]);
    } else {
      SumOfNone(arcs, flow, To(ItemNode(i)));
      SumOfNone(arcs, flow, From(ItemNode(i)));
    }
  }

  lemma ZoneIsBalanced(arcs: seq<Arc>, flow: seq<nat>, l: Layout, chosen: seq<set<nat>>, i: nat, z: nat)
    requires AreReady(arcs, l, chosen) && IsPart(arcs, flow, l, chosen)
    ensures IsBalanced(arcs, flow, ZoneItem(i, z))
  {
    hide FlowOver, InZone, ItemsOf, CapacityFrom, AreZonesOf, Taken;
    forall a | a in arcs
      ensures To(ZoneItem(i, z))(a) || From(ZoneItem(i, z))(a) ==> i < |chosen| && z < |l.zones|
    {
      assert IsNetworkArc(a, l);
    }
    if i < |chosen| && z < |l.zones| {
      ZoneIsFed(arcs, flow, l, chosen, i, z);
      var part := ItemParts(arcs, l, chosen);
      SumSame(arcs, flow, part, From(ZoneItem(i, z)));
      PartsAreWithin(arcs, l, chosen);
      PartsTakeChosen(arcs, l, chosen, part, i);
      TakenInCount(arcs, part, l, i, z);
    } else {
      SumOfNone(arcs, flow, To(ZoneItem(i, z)));
      SumOfNone(arcs, flow, From(ZoneItem(i, z)));
    }
  }

  // ---------------------------------------------------------------------------
  // Flow from Members

  /** What the `k`-th Arc takes of `c` units which leave its node, if Arcs are filled in turn. */
  function Fill(arcs: seq<Arc>, k: nat, c: nat): (f: nat)
    requires k < |arcs|
    ensures f <= arcs[k].capacity
  {
    var n := arcs[k].from;
    assert arcs[..k + 1][..k] == arcs[..k];
    assert CapacityFrom(arcs[..k + 1], n) == CapacityFrom(arcs[..k], n) + arcs[k].capacity;
    Min(c, CapacityFrom(arcs[..k + 1], n)) - Min(c, CapacityFrom(arcs[..k], n))
  }

  lemma {:induction false} FilledIs(arcs: seq<Arc>, flow: seq<nat>, n: Node, c: nat, j: nat)
    requires |flow| == |arcs| && j <= |arcs|
    requires forall k :: 0 <= k < |arcs| && arcs[k].from == n ==> flow[k] == Fill(arcs, k, c)
    ensures FlowOver(arcs[..j], flow[..j], From(n)) == Min(c, CapacityFrom(arcs[..j], n))
  {
    if j > 0 {
      FilledIs(arcs, flow, n, c, j - 1);
      assert arcs[..j][..j - 1] == arcs[..j - 1] && flow[..j][..j - 1] == flow[..j - 1];
      if arcs[j - 1].from == n {
        assert flow[j - 1] == Fill(arcs, j - 1, c);
      }
    }
  }

  /** Units which leave each Member are those which reach it. */
  function MemberPart(arcs: seq<Arc>, part: seq<nat>, k: nat): nat
    requires k < |arcs| == |part|
  {
    if arcs[k].from.MemberNode? then Fill(arcs, k, FlowOver(arcs, part, To(arcs[k].from))) else part[k]
  }

  function MemberParts(arcs: seq<Arc>, part: seq<nat>): (f: seq<nat>)
    requires |part| == |arcs|
    ensures |f| == |arcs| && forall k :: 0 <= k < |arcs| ==> f[k] == MemberPart(arcs, part, k)
  {
    seq(|arcs|, k requires 0 <= k < |arcs| => MemberPart(arcs, part, k))
  }

  /** What reaches a Member is the number of Items it's chosen for. */
  lemma MemberIsReached(arcs: seq<Arc>, l: Layout, chosen: seq<set<nat>>, m: nat)
    requires AreReady(arcs, l, chosen)
    ensures FlowOver(arcs, ItemParts(arcs, l, chosen), To(MemberNode(m))) == |ItemsOf(chosen, m)|
  {
    hide FlowOver, InZone, CapacityFrom, AreZonesOf, Taken, Holding, IsNetworkArc;
    var part := ItemParts(arcs, l, chosen);
    PartsAreWithin(arcs, l, chosen);
    HoldingCount(arcs, part, l, m);
    forall i: nat ensures i in Holding(arcs, part, m) <==> i in ItemsOf(chosen, m) {
      HoldingIsTaken(arcs, part, i, m);
      if i < |chosen| {
        PartsTakeChosen(arcs, l, chosen, part, i);
      } else if m in Taken(arcs, part, i) {
        TakenAreMembers(arcs, part, l, i, m);
      }
    }
    assert Holding(arcs, part, m) == ItemsOf(chosen, m);
  }

  lemma MemberIsBalanced(arcs: seq<Arc>, flow: seq<nat>, l: Layout, chosen: seq<set<nat>>, m: nat)
    requires AreReady(arcs, l, chosen) && |flow| == |arcs|
    requires var parts := MemberParts(arcs, ItemParts(arcs, l, chosen));
             forall k :: 0 <= k < |arcs| && arcs[k].from != Overflow ==> flow[k] == parts[k]
    ensures IsBalanced(arcs, flow, MemberNode(m))
  {
    hide FlowOver, InZone, ItemsOf, CapacityFrom, AreZonesOf, Fill, ItemPart;
    var part := ItemParts(arcs, l, chosen);
    forall a | a in arcs
      ensures To(MemberNode(m))(a) ==> a.from.ZoneItem?
      ensures To(MemberNode(m))(a) || From(MemberNode(m))(a) ==> m < |l.members|
    {
      assert IsNetworkArc(a, l);
    }
    if m < |l.members| {
      forall k | 0 <= k < |arcs| && arcs[k].to == MemberNode(m) ensures flow[k] == part[k] {
        assert arcs[k] in arcs;
      }
      SumSame(arcs, flow, part, To(MemberNode(m)));
      MemberIsReached(arcs, l, chosen, m);
      FilledIs(arcs, flow, MemberNode(m), FlowOver(arcs, part, To(MemberNode(m))), |arcs|);
      assert arcs[..|arcs|] == arcs && flow[..|arcs|] == flow;
    } else {
      SumOfNone(arcs, flow, To(MemberNode(m)));
      SumOfNone(arcs, flow, From(MemberNode(m)));
    }
  }

  // ---------------------------------------------------------------------------
  // Flow over Overflow

  function TotalLimit(members: seq<Member>, n: nat): nat
    requires n <= |members|
  {
    if n == 0 then 0 else TotalLimit(members, n - 1) + members[n - 1].limit
  }

  function FromMembersBelow(n: nat): Arc -> bool {
    (a: Arc) => a.from.MemberNode? && a.from.member < n
  }

  lemma {:induction false} MembersAreWithin(arcs: seq<Arc>, flow: seq<nat>, l: Layout, n: nat)
    requires IsNetwork(arcs, l) && IsWithin(arcs, flow) && n <= |l.members|
    ensures FlowOver(arcs, flow, FromMembersBelow(n)) <= TotalLimit(l.members, n)
  {
    hide FlowOver, CapacityFrom, Unique, HasItemArcs, IsNetworkArc;
    if n == 0 {
      SumOfNone(arcs, flow, FromMembersBelow(0));
    } else {
      MembersAreWithin(arcs, flow, l, n - 1);
      OutIsWithin(arcs, flow, MemberNode(n - 1));
      SumSplits(arcs, flow, FromMembersBelow(n - 1), From(MemberNode(n - 1)), FromMembersBelow(n));
    }
  }

  lemma OverflowIsWithin(arcs: seq<Arc>, flow: seq<nat>, l: Layout)
    requires IsNetwork(arcs, l) && IsWithin(arcs, flow)
    ensures FlowOver(arcs, flow, To(Overflow)) <= TotalLimit(l.members, |l.members|)
  {
    hide FlowOver, CapacityFrom, Unique, HasItemArcs, TotalLimit;
    forall a | a in arcs && To(Overflow)(a) ensures FromMembersBelow(|l.members|)(a) {
      assert IsNetworkArc(a, l);
    }
    SumWithin(arcs, flow, To(Overflow), FromMembersBelow(|l.members|));
    MembersAreWithin(arcs, flow, l, |l.members|);
  }

  /** What reaches Overflow goes on to Sink. */
  function WithOverflow(arcs: seq<Arc>, parts: seq<nat>): (f: seq<nat>)
    requires |parts| == |arcs|
    ensures |f| == |arcs|
    ensures forall k :: 0 <= k < |arcs| ==>
              f[k] == if arcs[k].from == Overflow then FlowOver(arcs, parts, To(Overflow)) else parts[k]
  {
    seq(|arcs|, k requires 0 <= k < |arcs| =>
      if arcs[k].from == Overflow then FlowOver(arcs, parts, To(Overflow)) else parts[k])
  }

  lemma OverflowIsBalanced(arcs: seq<Arc>, parts: seq<nat>, l: Layout)
    requires IsNetwork(arcs, l) && |parts| == |arcs|
    ensures IsBalanced(arcs, WithOverflow(arcs, parts), Overflow)
  {
    hide FlowOver, CapacityFrom, HasItemArcs;
    var flow := WithOverflow(arcs, parts);
    forall a | a in arcs
      ensures To(Overflow)(a) ==> a.from != Overflow
      ensures From(Overflow)(a) <==> a.from == Overflow && a.to == Sink
    {
      assert IsNetworkArc(a, l);
    }
    forall k | 0 <= k < |arcs| && To(Overflow)(arcs[k]) ensures flow[k] == parts[k] {
      assert arcs[k] in arcs;
    }
    SumSame(arcs, flow, parts, To(Overflow));
    var k := SumOfArc(arcs, flow, From(Overflow), Overflow, Sink);
  }

  // ---------------------------------------------------------------------------
  // Choices and flows

  function FlowOf(arcs: seq<Arc>, l: Layout, chosen: seq<set<nat>>): (f: seq<nat>)
    ensures |f| == |arcs|
  {
    WithOverflow(arcs, MemberParts(arcs, ItemParts(arcs, l, chosen)))
  }

  lemma FlowIsWithin(arcs: seq<Arc>, l: Layout, chosen: seq<set<nat>>)
    requires AreReady(arcs, l, chosen) && TotalLimit(l.members, |l.members|) <= MaxInt32
    ensures IsWithin(arcs, FlowOf(arcs, l, chosen))
  {
    hide FlowOver, InZone, ItemsOf, CapacityFrom, AreZonesOf, Fill, ItemPart, TotalLimit, HasItemArcs;
    PartsAreWithin(arcs, l, chosen);
    var parts := MemberParts(arcs, ItemParts(arcs, l, chosen));
    assert IsWithin(arcs, parts);
    OverflowIsWithin(arcs, parts, l);
    forall k | 0 <= k < |arcs| && arcs[k].from == Overflow ensures arcs[k].capacity == MaxInt32 {
      assert arcs[k] in arcs && IsNetworkArc(arcs[k], l);
    }
  }

  /** Every choice within slots, zones and limits is that of a feasible flow. */
  lemma ChoiceIsFlow(arcs: seq<Arc>, l: Layout, chosen: seq<set<nat>>)
    requires IsNetwork(arcs, l) && AreZonesOf(l.zones, l.members) && IsChoice(chosen, l)
    requires TotalLimit(l.members, |l.members|) <= MaxInt32
    ensures IsFeasible(arcs, FlowOf(arcs, l, chosen))
    ensures forall i :: 0 <= i < |chosen| ==> Taken(arcs, FlowOf(arcs, l, chosen), i) == chosen[i]
  {
    hide IsNetwork, AreZonesOf, IsChoice, FlowOver, ItemPart, Fill, Taken, TotalLimit, IsBalanced;
    var flow := FlowOf(arcs, l, chosen);
    FlowIsWithin(arcs, l, chosen);
    assert IsPart(arcs, flow, l, chosen);
    forall n | n != Source && n != Sink ensures IsBalanced(arcs, flow, n) {
      if n.ItemNode? {
        ItemIsBalanced(arcs, flow, l, chosen, n.item);
      } else if n.ZoneItem? {
        ZoneIsBalanced(arcs, flow, l, chosen, n.ofItem, n.zone);
      } else if n.MemberNode? {
        MemberIsBalanced(arcs, flow, l, chosen, n.member);
      } else {
        OverflowIsBalanced(arcs, MemberParts(arcs, ItemParts(arcs, l, chosen)), l);
      }
    }
    forall i | 0 <= i < |chosen| ensures Taken(arcs, flow, i) == chosen[i] {
      PartsTakeChosen(arcs, l, chosen, flow, i);
    }
  }

  /** A feasible flow takes Members within slots, zones and limits. */
  lemma FlowIsChoice(arcs: seq<Arc>, flow: seq<nat>, l: Layout, chosen: seq<set<nat>>)
    requires IsNetwork(arcs, l) && AreZonesOf(l.zones, l.members) && IsFeasible(arcs, flow)
    requires |chosen| == |l.slots| && forall i :: 0 <= i < |chosen| ==> Taken(arcs, flow, i) == chosen[i]
    ensures IsChoice(chosen, l)
  {
    hide FlowOver, InZone, CapacityFrom, AreZonesOf, Taken, Holding, HasItemArcs, Unique, IsNetworkArc;
    NetworkIsSound(arcs, l);
    hide IsNetwork, AreSound;
    forall i | 0 <= i < |chosen|
      ensures |chosen[i]| <= l.slots[i] && forall m :: m in chosen[i] ==> m < |l.members|
    {
      ItemIsWithinSlots(arcs, flow, l, i);
      forall m | m in chosen[i] ensures m < |l.members| {
        TakenAreMembers(arcs, flow, l, i, m);
      }
    }
    forall i, z | 0 <= i < |chosen| && 0 <= z < |l.zones| ensures |InZone(l, chosen[i], z)| <= l.zoneSlots[i] {
      TakenInCount(arcs, flow, l, i, z);
      ZoneFlow(arcs, flow, l, i, z);
    }
    forall m | 0 <= m < |l.members| ensures |ItemsOf(chosen, m)| <= l.members[m].limit {
      HoldingIsItems(arcs, flow, l, chosen, m);
      MemberIsWithinLimit(arcs, flow, l, m);
    }
  }

  lemma HoldingIsItems(arcs: seq<Arc>, flow: seq<nat>, l: Layout, chosen: seq<set<nat>>, m: nat)
    requires AreSound(arcs, l) && |flow| == |arcs|
    requires |chosen| == |l.slots| && forall i :: 0 <= i < |chosen| ==> Taken(arcs, flow, i) == chosen[i]
    ensures Holding(arcs, flow, m) == ItemsOf(chosen, m)
  {
    hide Taken, Holding, AreSound;
    forall i: nat ensures i in Holding(arcs, flow, m) <==> i in ItemsOf(chosen, m) {
      HoldingIsTaken(arcs, flow, i, m);
      if i >= |chosen| && m in Taken(arcs, flow, i) {
        TakenAreMembers(arcs, flow, l, i, m);
      }
    }
  }

  // ---------------------------------------------------------------------------
  // Choices in terms of Items and zones

  /** Zones which can hold all Items, plus one. */
  function Effective(zoneSlots: seq<nat>, itemCount: nat): set<nat> {
    set z: nat | z < |zoneSlots| && zoneSlots[z] > itemCount
  }

  lemma {:induction false} EffectiveZonesIs(zoneSlots: seq<nat>, itemCount: nat)
    ensures EffectiveZones(zoneSlots, itemCount) == |Effective(zoneSlots, itemCount)|
  {
    if zoneSlots == [] {
      assert Effective(zoneSlots, itemCount) == {};
    } else {
      var n := |zoneSlots| - 1;
      EffectiveZonesIs(zoneSlots[..n], itemCount);
      assert Effective(zoneSlots, itemCount) ==
             Effective(zoneSlots[..n], itemCount) + if zoneSlots[n] > itemCount then {n} else {};
    }
  }

  /** `n` Members of one zone don't use all slots, if there are several slots and several effective zones. */
  predicate IsSpread(n: nat, slots: nat, effective: nat) {
    n <= slots && (slots > 1 && effective > 1 ==> n < slots)
  }

  ghost predicate IsAllocation(chosen: seq<set<nat>>, items: seq<Item>, zoneSlots: seq<nat>, l: Layout) {
    var slots, effective := SlotsOf(items, ZoneScaling.Sum(zoneSlots)), |Effective(zoneSlots, |items|)|;
    && |chosen| == |items|
    && (forall i, m :: 0 <= i < |chosen| && m in chosen[i] ==> m < |l.members|)
    && (forall i :: 0 <= i < |chosen| ==> |chosen[i]| <= slots[i])
    && (forall i, z :: 0 <= i < |chosen| && 0 <= z < |l.zones| ==>
          IsSpread(|InZone(l, chosen[i], z)|, slots[i], effective))
    && (forall m :: 0 <= m < |l.members| ==> |ItemsOf(chosen, m)| <= l.members[m].limit)
  }

  ghost predicate IsLayout(
    l: Layout, items: seq<Item>, zones: seq<int>, zoneSlots: seq<nat>, members: seq<Member>)
  {
    l == LayoutOf(items, zones, zoneSlots, members)
  }

  lemma AllocationIsChoice(chosen: seq<set<nat>>, items: seq<Item>, zones: seq<int>, zoneSlots: seq<nat>,
                           members: seq<Member>, l: Layout)
    requires IsLayout(l, items, zones, zoneSlots, members)
    ensures IsAllocation(chosen, items, zoneSlots, l) <==> IsChoice(chosen, l)
    ensures |l.slots| == |items| && l.zones == zones && l.members == members
  {
    hide InZone, ItemsOf, SlotsOf, Effective, EffectiveZones;
    EffectiveZonesIs(zoneSlots, |items|);
  }

  ghost predicate IsFlowOf(arcs: seq<Arc>, flow: seq<nat>, chosen: seq<set<nat>>) {
    IsFeasible(arcs, flow) && forall i :: 0 <= i < |chosen| ==> Taken(arcs, flow, i) == chosen[i]
  }

  /** Some feasible flow extracts to the choice. */
  ghost predicate HasFlow(arcs: seq<Arc>, chosen: seq<set<nat>>) {
    exists flow :: IsFlowOf(arcs, flow, chosen)
  }

  lemma ChoiceIff(arcs: seq<Arc>, l: Layout, chosen: seq<set<nat>>)
    requires IsNetwork(arcs, l) && AreZonesOf(l.zones, l.members) && |chosen| == |l.slots|
    requires TotalLimit(l.members, |l.members|) <= MaxInt32
    ensures IsChoice(chosen, l) <==> HasFlow(arcs, chosen)
  {
    hide IsNetwork, AreZonesOf, IsFeasible, IsChoice, FlowOf, Taken, TotalLimit;
    if IsChoice(chosen, l) {
      ChoiceIsFlow(arcs, l, chosen);
      assert IsFlowOf(arcs, FlowOf(arcs, l, chosen), chosen);
    }
    if HasFlow(arcs, chosen) {
      var flow :| IsFlowOf(arcs, flow, chosen);
      FlowIsChoice(arcs, flow, l, chosen);
    }
  }

  /**
   * Of a network which was built for Items and Members, the allocations which a feasible flow extracts to are exactly
   * those within the slots of Items, spread over zones, and within the limits of Members.
   */
  lemma AllocationIff(
    arcs: seq<Arc>, items: seq<Item>, zones: seq<int>, zoneSlots: seq<nat>, members: seq<Member>, l: Layout,
    chosen: seq<set<nat>>)
    requires IsLayout(l, items, zones, zoneSlots, members) && IsNetwork(arcs, l) && AreZonesOf(zones, members)
    requires TotalLimit(members, |members|) <= MaxInt32 && |chosen| == |items|
    ensures IsAllocation(chosen, items, zoneSlots, l) <==> HasFlow(arcs, chosen)
  {
    hide IsLayout, IsNetwork, AreZonesOf, TotalLimit, IsAllocation, IsChoice, HasFlow;
    AllocationIsChoice(chosen, items, zones, zoneSlots, members, l);
    ChoiceIff(arcs, l, chosen);
  }
}

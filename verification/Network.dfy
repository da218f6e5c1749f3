/**
 * The whole flow network (v2/pkg/allocator/flow_network.go), built from Members, zones and Items, and the structure
 * which flows over it rely upon.
 */
module Network {
  import opened Common
  import opened FlowNetwork
  import ZoneScaling
  import LeftJoin

  /** No two Arcs join the same nodes. */
  ghost predicate Unique(arcs: seq<Arc>) {
    forall j, k :: 0 <= j < k < |arcs| ==> arcs[j].from != arcs[k].from || arcs[j].to != arcs[k].to
  }

  ghost predicate AreApart(a: seq<Arc>, b: seq<Arc>) {
    forall j, k :: 0 <= j < |a| && 0 <= k < |b| ==> a[j].from != b[k].from || a[j].to != b[k].to
  }

  lemma UniqueConcat(a: seq<Arc>, b: seq<Arc>)
    requires Unique(a) && Unique(b) && AreApart(a, b)
    ensures Unique(a + b)
  {
  }

  // ---------------------------------------------------------------------------
  // Arcs of one Item

  /** An Arc of the Item, which reaches none but the first `n` zones. */
  ghost predicate IsItemArc(a: Arc, item: nat, zones: seq<int>, members: seq<Member>, slots: nat, zoneSlots: nat,
                            n: nat) {
    match a.from
    case Source => a.to == ItemNode(item) && a.capacity == slots
    case ItemNode(i) => i == item && a.to.ZoneItem? && a.to.ofItem == item && a.to.zone < n && a.capacity == zoneSlots
    case ZoneItem(i, z) =>
      && i == item && z < n && z < |zones| && a.capacity == 1
      && a.to.MemberNode? && a.to.member < |members| && members[a.to.member].zone == zones[z]
    case _ => false
  }

  ghost predicate AreItemArcs(arcs: seq<Arc>, item: nat, zones: seq<int>, members: seq<Member>, slots: nat,
                              zoneSlots: nat, n: nat) {
    Unique(arcs) && forall a :: a in arcs ==> IsItemArc(a, item, zones, members, slots, zoneSlots, n)
  }

  lemma {:induction false} ItemArcsAre(item: nat, zones: seq<int>, members: seq<Member>, held: seq<Held>, slots: nat,
                                       zoneSlots: nat, n: nat)
    requires MembersAreSorted(members) && AreZonesOf(zones, members) && n <= |zones|
    ensures AreItemArcs(ItemArcs(item, zones, members, held, slots, zoneSlots, n), item, zones, members, slots,
                        zoneSlots, n)
  {
    hide Begin, MembersAreSorted, AreZonesOf;
    if n > 0 {
      ItemArcsAre(item, zones, members, held, slots, zoneSlots, n - 1);
      ZoneRange(zones, members, n - 1);
      var lo, hi := Begin(zones, members, n - 1), Begin(zones, members, n);
      var init := ItemArcs(item, zones, members, held, slots, zoneSlots, n - 1);
      hide AreItemArcs;
      ItemArcsGrow(init, item, zones, members, held, slots, zoneSlots, n - 1, lo, hi);
    }
  }

  lemma ItemArcsGrow(init: seq<Arc>, item: nat, zones: seq<int>, members: seq<Member>, held: seq<Held>, slots: nat,
                     zoneSlots: nat, z: nat, lo: nat, hi: nat)
    requires z < |zones| && lo <= hi <= |members| && AreItemArcs(init, item, zones, members, slots, zoneSlots, z)
    requires forall m :: lo <= m < hi ==> members[m].zone == zones[z]
    ensures AreItemArcs(init + [ZoneArc(item, zones, z, held, zoneSlots)] + MemberArcs(item, z, members, lo, hi, held),
                        item, zones, members, slots, zoneSlots, z + 1)
  {
    hide CountHeld;
    var zone, more := ZoneArc(item, zones, z, held, zoneSlots), MemberArcs(item, z, members, lo, hi, held);
    forall j | 0 <= j < |init| ensures IsItemArc(init[j], item, zones, members, slots, zoneSlots, z) {
      assert init[j] in init;
    }
    assert forall k :: 0 <= k < |more| ==> more[k].from == ZoneItem(item, z) && more[k].to == MemberNode(lo + k);
    assert AreApart(init, [zone]);
    assert AreApart(init + [zone], more);
    UniqueConcat(init, [zone]);
    UniqueConcat(init + [zone], more);
    hide Unique, AreApart;
  }

  ghost predicate HasArc(arcs: seq<Arc>, from: Node, to: Node) {
    exists a :: a in arcs && a.from == from && a.to == to
  }

  /** Each zone is joined with the Item, and each of its Members with the zone. */
  lemma {:induction false} ItemArcsReach(item: nat, zones: seq<int>, members: seq<Member>, held: seq<Held>, slots: nat,
                                         zoneSlots: nat, n: nat)
    requires MembersAreSorted(members) && AreZonesOf(zones, members) && n <= |zones|
    ensures SourceArc(item, held, slots) in ItemArcs(item, zones, members, held, slots, zoneSlots, n)
    ensures forall z :: 0 <= z < n ==>
            ZoneArc(item, zones, z, held, zoneSlots) in ItemArcs(item, zones, members, held, slots, zoneSlots, n)
    ensures forall z, m :: 0 <= z < n && 0 <= m < |members| && members[m].zone == zones[z] ==>
      MemberArc(item, z, members, m, held) in ItemArcs(item, zones, members, held, slots, zoneSlots, n)
  {
    hide Begin, CountHeld, MembersAreSorted, AreZonesOf;
    if n > 0 {
      ItemArcsReach(item, zones, members, held, slots, zoneSlots, n - 1);
      ZoneRange(zones, members, n - 1);
      var lo, hi := Begin(zones, members, n - 1), Begin(zones, members, n);
      var more := MemberArcs(item, n - 1, members, lo, hi, held);
      forall m | 0 <= m < |members| && members[m].zone == zones[n - 1]
        ensures MemberArc(item, n - 1, members, m, held) in more
      {
        assert more[m - lo] == MemberArc(item, n - 1, members, m, held);
      }
    }
  }

  // ---------------------------------------------------------------------------
  // The network

  /** An Item's desired replication, and its current Assignments. */
  datatype Item = Item(r: int, held: seq<Held>)

  /** What a network is built for: slots of each Item, in total and within a zone. */
  datatype Layout = Layout(zones: seq<int>, members: seq<Member>, slots: seq<nat>, zoneSlots: seq<nat>)

  ghost predicate IsNetworkArc(a: Arc, l: Layout)
    requires |l.slots| == |l.zoneSlots|
  {
    match a.from
    case Source =>
      exists i :: 0 <= i < |l.slots| && IsItemArc(a, i, l.zones, l.members, l.slots[i], l.zoneSlots[i], |l.zones|)
    case ItemNode(i) => i < |l.slots| && IsItemArc(a, i, l.zones, l.members, l.slots[i], l.zoneSlots[i], |l.zones|)
    case ZoneItem(i, _) => i < |l.slots| && IsItemArc(a, i, l.zones, l.members, l.slots[i], l.zoneSlots[i], |l.zones|)
    case MemberNode(m) => m < |l.members| && (a.to == Sink || a.to == Overflow)
    case Overflow => a.to == Sink && a.capacity == MaxInt32
    case Sink => false
  }

  function CapacityFrom(arcs: seq<Arc>, n: Node): nat {
    if arcs == [] then 0 else
      CapacityFrom(arcs[..|arcs| - 1], n) + if arcs[|arcs| - 1].from == n then arcs[|arcs| - 1].capacity else 0
  }

  /** Every Arc is as it should be, and none is missing or repeated. */
  ghost predicate IsNetwork(arcs: seq<Arc>, l: Layout) {
    && |l.slots| == |l.zoneSlots| && Unique(arcs)
    && (forall a :: a in arcs ==> IsNetworkArc(a, l))
    && (forall m :: 0 <= m < |l.members| ==> CapacityFrom(arcs, MemberNode(m)) == l.members[m].limit)
    && (forall i :: 0 <= i < |l.slots| ==> HasItemArcs(arcs, l, i))
    && HasArc(arcs, Overflow, Sink)
  }

  ghost predicate HasItemArcs(arcs: seq<Arc>, l: Layout, i: nat) {
    && HasArc(arcs, Source, ItemNode(i))
    && (forall z :: 0 <= z < |l.zones| ==> HasArc(arcs, ItemNode(i), ZoneItem(i, z)))
    && (forall z, m :: 0 <= z < |l.zones| && 0 <= m < |l.members| && l.members[m].zone == l.zones[z] ==>
      HasArc(arcs, ZoneItem(i, z), MemberNode(m)))
  }

  /** Item slots are bounded by Member slots which remain. */
  function Clamp(r: int, avail: nat): nat {
    if r < 0 then 0 else if r > avail then avail else r
  }

  function Remaining(items: seq<Item>, total: nat, n: nat): nat
    requires n <= |items|
  {
    if n == 0 then total else Remaining(items, total, n - 1) - Clamp(items[n - 1].r, Remaining(items, total, n - 1))
  }

  function SlotsOf(items: seq<Item>, total: nat): (s: seq<nat>)
    ensures |s| == |items| && forall i :: 0 <= i < |items| ==> s[i] == Clamp(items[i].r, Remaining(items, total, i))
  {
    seq(|items|, i requires 0 <= i < |items| => Clamp(items[i].r, Remaining(items, total, i)))
  }

  /**
   * No more slots are asked for than there are, or than are desired of an Item. Each Item gets all slots which are
   * desired of it, or all which remain.
   */
  lemma {:induction false} SlotsAreBounded(items: seq<Item>, total: nat, n: nat)
    requires n <= |items|
    ensures ZoneScaling.Sum(SlotsOf(items, total)[..n]) + Remaining(items, total, n) == total
    ensures forall i :: 0 <= i < n ==> SlotsOf(items, total)[i] <= Max(0, items[i].r)
    ensures forall i :: 0 <= i < n ==>
              SlotsOf(items, total)[i] == Max(0, items[i].r) || Remaining(items, total, i + 1) == 0
  {
    if n > 0 {
      SlotsAreBounded(items, total, n - 1);
      SumOfPrefix(SlotsOf(items, total), n);
      hide SlotsOf, ZoneScaling.Sum;
    }
  }

  lemma SumOfPrefix(s: seq<nat>, n: nat)
    requires 0 < n <= |s|
    ensures ZoneScaling.Sum(s[..n]) == ZoneScaling.Sum(s[..n - 1]) + s[n - 1]
  {
    assert s[..n][..n - 1] == s[..n - 1];
  }

  function ZoneSlotsOfAll(slots: seq<nat>, effectiveZones: nat): (s: seq<nat>)
    ensures |s| == |slots| && forall i :: 0 <= i < |slots| ==> s[i] == ZoneSlotsOf(slots[i], effectiveZones)
  {
    seq(|slots|, i requires 0 <= i < |slots| => ZoneSlotsOf(slots[i], effectiveZones))
  }

  const MaxInt32 := 0x7fff_ffff

  /** Arcs of the first `n` Items, after the one from Overflow to Sink. */
  function AllItemArcs(items: seq<Item>, l: Layout, n: nat): seq<Arc>
    requires n <= |items| == |l.slots| == |l.zoneSlots|
  {
    if n == 0 then [Arc(Overflow, Sink, MaxInt32, 0)] else
      AllItemArcs(items, l, n - 1)
      + ItemArcs(n - 1, l.zones, l.members, items[n - 1].held, l.slots[n - 1], l.zoneSlots[n - 1], |l.zones|)
  }

  /** The Item which an Arc is of. */
  ghost predicate IsOf(a: Arc, n: nat) {
    match a.from
    case Source => a.to.ItemNode? && a.to.item < n
    case ItemNode(i) => i < n
    case ZoneItem(i, _) => i < n
    case Overflow => true
    case _ => false
  }

  lemma {:induction false} AllItemArcsAre(items: seq<Item>, l: Layout, n: nat)
    requires n <= |items| == |l.slots| == |l.zoneSlots| && MembersAreSorted(l.members) && AreZonesOf(l.zones, l.members)
    ensures Unique(AllItemArcs(items, l, n)) && HasArc(AllItemArcs(items, l, n), Overflow, Sink)
    ensures forall a :: a in AllItemArcs(items, l, n) ==> IsNetworkArc(a, l) && IsOf(a, n)
  {
    hide ItemArcs, MembersAreSorted, AreZonesOf;
    if n > 0 {
      AllItemArcsAre(items, l, n - 1);
      ItemArcsAre(n - 1, l.zones, l.members, items[n - 1].held, l.slots[n - 1], l.zoneSlots[n - 1], |l.zones|);
      var init := AllItemArcs(items, l, n - 1);
      var more := ItemArcs(n - 1, l.zones, l.members, items[n - 1].held, l.slots[n - 1], l.zoneSlots[n - 1], |l.zones|);
      forall j, k | 0 <= j < |init| && 0 <= k < |more|
        ensures init[j].from != more[k].from || init[j].to != more[k].to
      {
        assert init[j] in init && more[k] in more;
        assert IsOf(init[j], n - 1);
        assert IsItemArc(more[k], n - 1, l.zones, l.members, l.slots[n - 1], l.zoneSlots[n - 1], |l.zones|);
      }
      UniqueConcat(init, more);
      forall a | a in more
        ensures IsNetworkArc(a, l) && IsOf(a, n)
      {
        assert IsItemArc(a, n - 1, l.zones, l.members, l.slots[n - 1], l.zoneSlots[n - 1], |l.zones|);
      }
    }
  }

  lemma {:induction false} AllItemArcsReach(items: seq<Item>, l: Layout, n: nat, i: nat)
    requires i < n <= |items| == |l.slots| == |l.zoneSlots| && MembersAreSorted(l.members)
             && AreZonesOf(l.zones, l.members)
    ensures HasItemArcs(AllItemArcs(items, l, n), l, i)
  {
    hide ItemArcs, MembersAreSorted, AreZonesOf;
    var init := AllItemArcs(items, l, n - 1);
    var more := ItemArcs(n - 1, l.zones, l.members, items[n - 1].held, l.slots[n - 1], l.zoneSlots[n - 1], |l.zones|);
    if i < n - 1 {
      AllItemArcsReach(items, l, n - 1, i);
    } else {
      ItemArcsReach(i, l.zones, l.members, items[i].held, l.slots[i], l.zoneSlots[i], |l.zones|);
      ItemHasArcs(items[i].held, l, i, more);
    }
    ArcsGrow(init, more, l, i);
  }

  lemma ItemHasArcs(held: seq<Held>, l: Layout, i: nat, arcs: seq<Arc>)
    requires i < |l.slots| == |l.zoneSlots|
    requires SourceArc(i, held, l.slots[i]) in arcs
    requires forall z :: 0 <= z < |l.zones| ==> ZoneArc(i, l.zones, z, held, l.zoneSlots[i]) in arcs
    requires forall z, m :: 0 <= z < |l.zones| && 0 <= m < |l.members| && l.members[m].zone == l.zones[z] ==>
             MemberArc(i, z, l.members, m, held) in arcs
    ensures HasItemArcs(arcs, l, i)
  {
    hide CountHeld;
    forall z | 0 <= z < |l.zones|
      ensures HasArc(arcs, ItemNode(i), ZoneItem(i, z))
    {
      assert ZoneArc(i, l.zones, z, held, l.zoneSlots[i]) in arcs;
    }
    forall z, m | 0 <= z < |l.zones| && 0 <= m < |l.members| && l.members[m].zone == l.zones[z]
      ensures HasArc(arcs, ZoneItem(i, z), MemberNode(m))
    {
      assert MemberArc(i, z, l.members, m, held) in arcs;
    }
  }

  lemma HasArcGrows(a: seq<Arc>, b: seq<Arc>, from: Node, to: Node)
    ensures HasArc(a + b, from, to) <==> HasArc(a, from, to) || HasArc(b, from, to)
  {
    assert forall x :: x in a + b <==> x in a || x in b;
  }

  lemma ArcsGrow(a: seq<Arc>, b: seq<Arc>, l: Layout, i: nat)
    requires HasItemArcs(a, l, i) || HasItemArcs(b, l, i)
    ensures HasItemArcs(a + b, l, i)
  {
    hide HasArc;
    HasArcGrows(a, b, Source, ItemNode(i));
    forall z | 0 <= z < |l.zones|
      ensures HasArc(a + b, ItemNode(i), ZoneItem(i, z))
    {
      HasArcGrows(a, b, ItemNode(i), ZoneItem(i, z));
    }
    forall z, m | 0 <= z < |l.zones| && 0 <= m < |l.members| && l.members[m].zone == l.zones[z]
      ensures HasArc(a + b, ZoneItem(i, z), MemberNode(m))
    {
      HasArcGrows(a, b, ZoneItem(i, z), MemberNode(m));
    }
  }

  lemma {:induction false} CapacityOfConcat(a: seq<Arc>, b: seq<Arc>, n: Node)
    ensures CapacityFrom(a + b, n) == CapacityFrom(a, n) + CapacityFrom(b, n)
  {
    if b == [] {
      assert a + b == a;
    } else {
      assert (a + b)[..|a + b| - 1] == a + b[..|b| - 1];
      CapacityOfConcat(a, b[..|b| - 1], n);
    }
  }

  lemma {:induction false} NoCapacity(arcs: seq<Arc>, n: Node)
    requires forall a :: a in arcs ==> a.from != n
    ensures CapacityFrom(arcs, n) == 0
  {
    if arcs != [] {
      NoCapacity(arcs[..|arcs| - 1], n);
    }
  }

  // ---------------------------------------------------------------------------
  // Zones of Members, and Arcs from Members

  function LimitSum(members: seq<Member>, zone: int): nat {
    if members == [] then 0 else
      var last := members[|members| - 1];
      LimitSum(members[..|members| - 1], zone) + if last.zone == zone then last.limit else 0
  }

  ghost predicate AreSlotsOf(zoneSlots: seq<nat>, zones: seq<int>, members: seq<Member>) {
    |zoneSlots| == |zones| && forall z :: 0 <= z < |zones| ==> zoneSlots[z] == LimitSum(members, zones[z])
  }

  lemma {:induction false} LimitIsWithinSum(members: seq<Member>, m: nat)
    requires m < |members|
    ensures members[m].limit <= LimitSum(members, members[m].zone)
  {
    if m < |members| - 1 {
      LimitIsWithinSum(members[..|members| - 1], m);
    }
  }

  lemma {:induction false} NoLimitSum(members: seq<Member>, zone: int)
    requires forall m :: 0 <= m < |members| ==> members[m].zone != zone
    ensures LimitSum(members, zone) == 0
  {
    if members != [] {
      NoLimitSum(members[..|members| - 1], zone);
    }
  }

  lemma ZonesGrow(zones: seq<int>, slots: seq<nat>, members: seq<Member>, x: Member)
    requires AreZonesOf(zones, members) && AreSlotsOf(slots, zones, members)
    requires forall z :: 0 <= z < |zones| ==> zones[z] < x.zone
    ensures AreZonesOf(zones + [x.zone], members + [x])
            && AreSlotsOf(slots + [x.limit], zones + [x.zone], members + [x])
  {
    hide LimitSum;
    var all, zs, ss := members + [x], zones + [x.zone], slots + [x.limit];
    NoLimitSum(members, x.zone);
    forall z | 0 <= z < |zs|
      ensures HasMember(all, zs[z]) && ss[z] == LimitSum(all, zs[z])
    {
      LimitSumSnoc(members, x, zs[z]);
      HasMemberSnoc(members, x, zs[z]);
    }
  }

  lemma LimitSumSnoc(members: seq<Member>, x: Member, zone: int)
    ensures LimitSum(members + [x], zone) == LimitSum(members, zone) + if x.zone == zone then x.limit else 0
  {
    assert (members + [x])[..|members|] == members;
  }

  lemma HasMemberSnoc(members: seq<Member>, x: Member, zone: int)
    requires x.zone == zone || HasMember(members, zone)
    ensures HasMember(members + [x], zone)
  {
    var all := members + [x];
    if x.zone == zone {
      assert all[|members|].zone == zone;
    } else {
      var m :| 0 <= m < |members| && members[m].zone == zone;
      assert all[m].zone == zone;
    }
  }

  lemma SlotsGrow(zones: seq<int>, slots: seq<nat>, members: seq<Member>, x: Member)
    requires AreZonesOf(zones, members) && AreSlotsOf(slots, zones, members) && zones != []
             && zones[|zones| - 1] == x.zone
    ensures AreZonesOf(zones, members + [x])
            && AreSlotsOf(slots[|zones| - 1 := slots[|zones| - 1] + x.limit], zones, members + [x])
  {
    hide LimitSum;
    var all := members + [x];
    var ss := slots[|zones| - 1 := slots[|zones| - 1] + x.limit];
    forall z | 0 <= z < |zones|
      ensures HasMember(all, zones[z]) && ss[z] == LimitSum(all, zones[z])
    {
      LimitSumSnoc(members, x, zones[z]);
      HasMemberSnoc(members, x, zones[z]);
    }
  }

  /** Group the zones of Members, and sum their slots. Members being ordered, none is of an earlier zone. */
  method GroupZones(members: seq<Member>) returns (zones: seq<int>, zoneSlots: seq<nat>)
    requires MembersAreSorted(members)
    ensures AreZonesOf(zones, members) && AreSlotsOf(zoneSlots, zones, members)
  {
    hide LimitSum, HasMember;
    zones, zoneSlots := [], [];
    for i := 0 to |members|
      invariant AreZonesOf(zones, members[..i]) && AreSlotsOf(zoneSlots, zones, members[..i])
      invariant if i == 0 then zones == [] else zones != [] && zones[|zones| - 1] == members[i - 1].zone
    {
      var m := members[i];
      assert members[..i + 1] == members[..i] + [m];
      if |zones| == 0 || zones[|zones| - 1] < m.zone {
        ZonesGrow(zones, zoneSlots, members[..i], m);
        zones, zoneSlots := zones + [m.zone], zoneSlots + [m.limit];
      } else {
        NotEarlier(zones, members, i);
        SlotsGrow(zones, zoneSlots, members[..i], m);
        zoneSlots := zoneSlots[|zones| - 1 := zoneSlots[|zones| - 1] + m.limit];
      }
    }
    assert members[..|members|] == members;
  }

  lemma NotEarlier(zones: seq<int>, members: seq<Member>, i: nat)
    requires MembersAreSorted(members) && 0 < i < |members| && zones != [] && zones[|zones| - 1] == members[i - 1].zone
    ensures zones[|zones| - 1] <= members[i].zone
  {
  }

  /** An Arc to Sink of the scaled capacity, and one to Overflow of what remains. */
  function MemberOut(m: nat, limit: nat, scaled: nat, count: nat): seq<Arc> {
    [Arc(MemberNode(m), Sink, scaled, Priority(scaled, count))]
    + if limit > scaled then [Arc(MemberNode(m), Overflow, limit - scaled, Priority(limit - scaled, 0))] else []
  }

  ghost predicate AreMemberArcs(arcs: seq<Arc>, members: seq<Member>, k: nat)
    requires k <= |members|
  {
    && Unique(arcs)
    && (forall a :: a in arcs ==> a.from.MemberNode? && a.from.member < k && (a.to == Sink || a.to == Overflow))
    && (forall m :: 0 <= m < k ==> CapacityFrom(arcs, MemberNode(m)) == members[m].limit)
  }

  lemma MemberArcsGrow(arcs: seq<Arc>, members: seq<Member>, k: nat, scaled: nat, count: nat)
    requires k < |members| && AreMemberArcs(arcs, members, k) && scaled <= members[k].limit
    ensures AreMemberArcs(arcs + MemberOut(k, members[k].limit, scaled, count), members, k + 1)
  {
    var more := MemberOut(k, members[k].limit, scaled, count);
    forall j, i | 0 <= j < |arcs| && 0 <= i < |more|
      ensures arcs[j].from != more[i].from
    {
      assert arcs[j] in arcs;
    }
    UniqueConcat(arcs, more);
    forall m | 0 <= m < k + 1
      ensures CapacityFrom(arcs + more, MemberNode(m)) == members[m].limit
    {
      CapacityOfConcat(arcs, more, MemberNode(m));
      OutCapacity(k, members[k].limit, scaled, count, m);
      if m == k {
        NoCapacity(arcs, MemberNode(m));
      }
    }
  }

  lemma OutCapacity(k: nat, limit: nat, scaled: nat, count: nat, m: nat)
    requires scaled <= limit
    ensures CapacityFrom(MemberOut(k, limit, scaled, count), MemberNode(m)) == if m == k then limit else 0
  {
    var out := MemberOut(k, limit, scaled, count);
    assert out[..1] == [out[0]];
    assert out[..1][..0] == [];
    assert CapacityFrom(out[..1], MemberNode(m)) == if m == k then scaled else 0;
    if |out| == 1 {
      assert out == out[..1];
    }
  }

  function CompareMemberZones(members: seq<Member>, zones: seq<int>): LeftJoin.Compare {
    (l: nat, r: nat) => if l < |members| && r < |zones| then CompareInt(members[l].zone, zones[r]) else 0
  }

  lemma MemberZonesAreOrdered(members: seq<Member>, zones: seq<int>)
    requires MembersAreSorted(members) && AreZonesOf(zones, members)
    ensures LeftJoin.IsOrdered(CompareMemberZones(members, zones), |members|, |zones|)
  {
    hide HasMember;
    var compare := CompareMemberZones(members, zones);
    forall l, k, r | 0 <= l <= k < |members| && 0 <= r < |zones|
      ensures compare(l, r) <= compare(k, r)
    {
      assert members[l].zone <= members[k].zone;
    }
    forall l, r, s | 0 <= l < |members| && 0 <= r <= s < |zones|
      ensures compare(l, r) >= compare(l, s)
    {
      assert zones[r] <= zones[s];
    }
  }

  lemma ZoneIsFound(members: seq<Member>, zones: seq<int>, m: nat, b: nat, e: nat)
    requires AreZonesOf(zones, members) && m < |members|
    requires LeftJoin.IsEqualRange(CompareMemberZones(members, zones), |zones|, m, b, e)
    ensures b < |zones| && zones[b] == members[m].zone
  {
    var compare := CompareMemberZones(members, zones);
    var z :| 0 <= z < |zones| && zones[z] == members[m].zone;
    assert compare(m, z) == 0;
    assert compare(m, b) == 0;
  }

  /** A Member's share is within its limit, and no zero denominator is used. */
  lemma ShareIsWithin(itemCount: nat, itemSlots: int, zoneSlots: seq<nat>, slots: nat, limit: nat)
    requires limit <= slots
    ensures var num, denom :=
      ZoneScaling.Numerator(itemCount, itemSlots, zoneSlots, slots),
      ZoneScaling.Denominator(itemCount, zoneSlots, slots);
      && num >= 0 && (ZoneScaling.Times(limit, num) != 0 ==> denom != 0)
        && ZoneScaling.Scaled(limit, num, denom) <= limit
  {
    hide ZoneScaling.Times, ZoneScaling.Scaled, ZoneScaling.MemberRemainder, ZoneScaling.Numerator;
    ZoneScaling.RatioBounds(itemCount, itemSlots, zoneSlots, slots);
    var mr := ZoneScaling.MemberRemainder(itemCount, zoneSlots);
    ZoneScaling.TimesNat(mr, ZoneScaling.Fixed(itemCount, slots));
    ZoneScaling.TimesCommutes(slots, mr);
    var num, denom :=
      ZoneScaling.Numerator(itemCount, itemSlots, zoneSlots, slots),
      ZoneScaling.Denominator(itemCount, zoneSlots, slots);
    ZoneScaling.DenominatorIsUsable(itemCount, zoneSlots, slots, limit, num);
    ZoneScaling.ScaledBounds(limit, num, denom);
  }

  /** The capacity of a Member's Arc to Sink: its limit, scaled by the ratio of its zone. */
  function SinkCapacity(members: seq<Member>, zoneSlots: seq<nat>, itemCount: nat, itemSlots: int, m: nat): (c: nat)
    requires m < |members|
    ensures c <= members[m].limit
  {
    var slots := LimitSum(members, members[m].zone);
    LimitIsWithinSum(members, m);
    ShareIsWithin(itemCount, itemSlots, zoneSlots, slots, members[m].limit);
    ZoneScaling.Scaled(members[m].limit, ZoneScaling.Numerator(itemCount, itemSlots, zoneSlots, slots),
      ZoneScaling.Denominator(itemCount, zoneSlots, slots))
  }

  /** There's an Arc from the Member to Sink, of the least capacity which is at least its limit's share. */
  ghost predicate HasSinkArc(
    arcs: seq<Arc>, members: seq<Member>, zoneSlots: seq<nat>, itemCount: nat, itemSlots: int, counts: seq<nat>, m: nat)
    requires m < |members| == |counts|
  {
    exists c: nat ::
      && Arc(MemberNode(m), Sink, c, Priority(c, counts[m])) in arcs
      && IsMemberShare(c, members, zoneSlots, itemCount, itemSlots, m)
  }

  ghost predicate IsMemberShare(
    c: nat, members: seq<Member>, zoneSlots: seq<nat>, itemCount: nat, itemSlots: int, m: nat)
    requires m < |members|
  {
    var slots := LimitSum(members, members[m].zone);
    ZoneScaling.IsLeastShare(
      c, members[m].limit, ZoneScaling.Numerator(itemCount, itemSlots, zoneSlots, slots),
      ZoneScaling.Denominator(itemCount, zoneSlots, slots))
  }

  lemma SinkCapacityIsShare(members: seq<Member>, zoneSlots: seq<nat>, itemCount: nat, itemSlots: int, m: nat)
    requires m < |members|
    ensures IsMemberShare(
      SinkCapacity(members, zoneSlots, itemCount, itemSlots, m), members, zoneSlots, itemCount, itemSlots, m)
  {
    hide ZoneScaling.Times, ZoneScaling.Scaled, ZoneScaling.Numerator, ZoneScaling.Denominator, LimitSum;
    hide ZoneScaling.IsLeastShare;
    var slots, limit := LimitSum(members, members[m].zone), members[m].limit;
    LimitIsWithinSum(members, m);
    ShareIsWithin(itemCount, itemSlots, zoneSlots, slots, limit);
    ZoneScaling.ScaledIsLeast(limit, ZoneScaling.Numerator(itemCount, itemSlots, zoneSlots, slots),
      ZoneScaling.Denominator(itemCount, zoneSlots, slots));
  }

  lemma {:induction false} HasSinkArcs(
    members: seq<Member>, zoneSlots: seq<nat>, itemCount: nat, itemSlots: int, counts: seq<nat>, k: nat, m: nat)
    requires m < k <= |members| == |counts|
    ensures HasSinkArc(AllMemberOut(members, zoneSlots, itemCount, itemSlots, counts, k),
              members, zoneSlots, itemCount, itemSlots, counts, m)
  {
    hide SinkCapacity, IsMemberShare, Priority;
    if m < k - 1 {
      HasSinkArcs(members, zoneSlots, itemCount, itemSlots, counts, k - 1, m);
    } else {
      var c := SinkCapacity(members, zoneSlots, itemCount, itemSlots, m);
      SinkCapacityIsShare(members, zoneSlots, itemCount, itemSlots, m);
      var out := MemberOut(m, members[m].limit, c, counts[m]);
      assert out[0] in out;
    }
  }

  /** Arcs from the first `k` Members. */
  function AllMemberOut(members: seq<Member>, zoneSlots: seq<nat>, itemCount: nat, itemSlots: int,
                        counts: seq<nat>, k: nat): seq<Arc>
    requires k <= |members| == |counts|
  {
    if k == 0 then [] else
      AllMemberOut(members, zoneSlots, itemCount, itemSlots, counts, k - 1)
      + MemberOut(k - 1, members[k - 1].limit, SinkCapacity(members, zoneSlots, itemCount, itemSlots, k - 1),
        counts[k - 1])
  }

  lemma {:induction false} AllMemberOutAre(members: seq<Member>, zoneSlots: seq<nat>, itemCount: nat, itemSlots: int,
                                           counts: seq<nat>, k: nat)
    requires k <= |members| == |counts|
    ensures AreMemberArcs(AllMemberOut(members, zoneSlots, itemCount, itemSlots, counts, k), members, k)
  {
    hide AreMemberArcs, SinkCapacity, MemberOut;
    if k == 0 {
      NoMemberArcs(members);
    } else {
      AllMemberOutAre(members, zoneSlots, itemCount, itemSlots, counts, k - 1);
      var init := AllMemberOut(members, zoneSlots, itemCount, itemSlots, counts, k - 1);
      MemberArcsGrow(init, members, k - 1, SinkCapacity(members, zoneSlots, itemCount, itemSlots, k - 1),
        counts[k - 1]);
    }
  }

  lemma NoMemberArcs(members: seq<Member>)
    ensures AreMemberArcs([], members, 0)
  {
  }

  /** Arcs from each Member to Sink, of its scaled capacity, and to Overflow, of what remains of its limit. */
  method BuildMemberArcs(members: seq<Member>, zones: seq<int>, zoneSlots: seq<nat>, itemCount: nat, itemSlots: int,
                         counts: seq<nat>)
    returns (arcs: seq<Arc>)
    requires MembersAreSorted(members) && AreZonesOf(zones, members) && AreSlotsOf(zoneSlots, zones, members)
             && |counts| == |members|
    ensures arcs == AllMemberOut(members, zoneSlots, itemCount, itemSlots, counts, |members|)
    ensures forall m :: 0 <= m < |members| ==>
              HasSinkArc(arcs, members, zoneSlots, itemCount, itemSlots, counts, m)
  {
    hide LeftJoin.IsOrdered, LeftJoin.RightIsOrdered, LeftJoin.IsEqualRange, MembersAreSorted, MemberOut, LimitSum;
    hide ZoneScaling.Scaled, ZoneScaling.Times, ZoneScaling.Numerator, ZoneScaling.Denominator, HasSinkArc;
    var num, denom := ZoneScaling.ZoneScalingFactors(itemCount, itemSlots, zoneSlots);
    MemberZonesAreOrdered(members, zones);
    var compare := CompareMemberZones(members, zones);
    LeftJoin.BothAreOrdered(compare, |members|, |zones|);
    var it := new LeftJoin.Join(|members|, |zones|, compare, |members|);
    arcs := [];
    while it.left < |members|
      invariant it.Valid() && fresh(it) && it.lenL == it.prefix == |members| && it.lenR == |zones|
                && it.compare == compare
      invariant arcs == AllMemberOut(members, zoneSlots, itemCount, itemSlots, counts, it.left)
      decreases |members| - it.left
    {
      var cur, ok := it.Next();
      var member, zone := cur.left, cur.rightBegin;
      ZoneIsFound(members, zones, member, cur.rightBegin, cur.rightEnd);
      var limit := members[member].limit;
      LimitIsWithinSum(members, member);
      ShareIsWithin(itemCount, itemSlots, zoneSlots, zoneSlots[zone], limit);
      var scaled := ZoneScaling.Scaled(limit, num[zone], denom[zone]);
      arcs := arcs + MemberOut(member, limit, scaled, counts[member]);
    }
    forall m | 0 <= m < |members| ensures HasSinkArc(arcs, members, zoneSlots, itemCount, itemSlots, counts, m) {
      HasSinkArcs(members, zoneSlots, itemCount, itemSlots, counts, |members|, m);
    }
  }

  // ---------------------------------------------------------------------------
  // Building the network

  /** A zone is effective if it can hold all Items, plus one. */
  function EffectiveZones(zoneSlots: seq<nat>, itemCount: nat): nat {
    if zoneSlots == [] then 0 else
      EffectiveZones(zoneSlots[..|zoneSlots| - 1], itemCount) + if zoneSlots[|zoneSlots| - 1] > itemCount then 1 else 0
  }

  function LayoutOf(items: seq<Item>, zones: seq<int>, zoneSlots: seq<nat>, members: seq<Member>): (l: Layout)
    ensures |l.slots| == |l.zoneSlots| == |items| && l.zones == zones && l.members == members
  {
    var slots := SlotsOf(items, ZoneScaling.Sum(zoneSlots));
    Layout(zones, members, slots, ZoneSlotsOfAll(slots, EffectiveZones(zoneSlots, |items|)))
  }

  lemma NetworkIsComplete(items: seq<Item>, l: Layout, out: seq<Arc>)
    requires |items| == |l.slots| == |l.zoneSlots| && MembersAreSorted(l.members) && AreZonesOf(l.zones, l.members)
    requires AreMemberArcs(out, l.members, |l.members|)
    ensures IsNetwork(AllItemArcs(items, l, |items|) + out, l)
  {
    hide AllItemArcs, MembersAreSorted, AreZonesOf, HasItemArcs, CapacityFrom;
    AllItemArcsAre(items, l, |items|);
    var base := AllItemArcs(items, l, |items|);
    forall j, k | 0 <= j < |base| && 0 <= k < |out|
      ensures base[j].from != out[k].from
    {
      assert base[j] in base && out[k] in out;
      assert IsOf(base[j], |items|);
    }
    UniqueConcat(base, out);
    forall m | 0 <= m < |l.members|
      ensures CapacityFrom(base + out, MemberNode(m)) == l.members[m].limit
    {
      CapacityOfConcat(base, out, MemberNode(m));
      forall a | a in base
        ensures a.from != MemberNode(m)
      {
        assert IsOf(a, |items|);
      }
      NoCapacity(base, MemberNode(m));
    }
    forall i | 0 <= i < |items|
      ensures HasItemArcs(base + out, l, i)
    {
      AllItemArcsReach(items, l, |items|, i);
      ArcsGrow(base, out, l, i);
    }
    forall a | a in base + out
      ensures IsNetworkArc(a, l)
    {
      if a in out {
        assert a.from.MemberNode?;
      }
    }
  }

  method CountSlots(zoneSlots: seq<nat>, itemCount: nat) returns (effectiveSlots: nat, effectiveZones: nat)
    ensures effectiveSlots == ZoneScaling.Sum(zoneSlots) && effectiveZones == EffectiveZones(zoneSlots, itemCount)
  {
    effectiveSlots, effectiveZones := 0, 0;
    for z := 0 to |zoneSlots|
      invariant effectiveSlots == ZoneScaling.Sum(zoneSlots[..z])
                && effectiveZones == EffectiveZones(zoneSlots[..z], itemCount)
    {
      assert zoneSlots[..z + 1][..z] == zoneSlots[..z];
      effectiveSlots := effectiveSlots + zoneSlots[z];
      if zoneSlots[z] > itemCount {
        effectiveZones := effectiveZones + 1;
      }
    }
    assert zoneSlots[..|zoneSlots|] == zoneSlots;
  }

  lemma NoItemArcs(items: seq<Item>, l: Layout, total: nat)
    requires |items| == |l.slots| == |l.zoneSlots|
    ensures AllItemArcs(items, l, 0) == [Arc(Overflow, Sink, MaxInt32, 0)] && Remaining(items, total, 0) == total
  {
  }

  lemma NextItemArcs(items: seq<Item>, l: Layout, total: nat, effectiveZones: nat, i: nat)
    requires i < |items| && l.slots == SlotsOf(items, total) && l.zoneSlots == ZoneSlotsOfAll(l.slots, effectiveZones)
    ensures var slots := Clamp(items[i].r, Remaining(items, total, i));
      && Remaining(items, total, i + 1) == Remaining(items, total, i) - slots
      && AllItemArcs(items, l, i + 1) == AllItemArcs(items, l, i)
        + ItemArcs(i, l.zones, l.members, items[i].held, slots, ZoneSlotsOf(slots, effectiveZones), |l.zones|)
  {
    hide ItemArcs;
    assert l.slots[i] == Clamp(items[i].r, Remaining(items, total, i));
  }

  lemma SlotsLength(items: seq<Item>, l: Layout, total: nat, effectiveZones: nat)
    requires l.slots == SlotsOf(items, total) && l.zoneSlots == ZoneSlotsOfAll(l.slots, effectiveZones)
    ensures |items| == |l.slots| == |l.zoneSlots|
  {
  }

  method BuildAllItemArcs(items: seq<Item>, l: Layout, total: nat, effectiveZones: nat) returns (arcs: seq<Arc>)
    requires MembersAreSorted(l.members) && AreZonesOf(l.zones, l.members)
    requires forall i :: 0 <= i < |items| ==> HeldIsSorted(items[i].held)
    requires l.slots == SlotsOf(items, total) && l.zoneSlots == ZoneSlotsOfAll(l.slots, effectiveZones)
    ensures arcs == AllItemArcs(items, l, |items|)
  {
    hide MembersAreSorted, AreZonesOf, HeldIsSorted, ItemArcs, AllItemArcs, Remaining, SlotsOf, ZoneSlotsOfAll;
    var effectiveSlots := total;
    SlotsLength(items, l, total, effectiveZones);
    NoItemArcs(items, l, total);
    arcs := [Arc(Overflow, Sink, MaxInt32, 0)];
    for i := 0 to |items|
      invariant effectiveSlots == Remaining(items, total, i)
      invariant arcs == AllItemArcs(items, l, i)
    {
      var slots := items[i].r;
      if slots < 0 {
        slots := 0;
      } else if slots > effectiveSlots {
        slots := effectiveSlots;
      }
      effectiveSlots := effectiveSlots - slots;
      NextItemArcs(items, l, total, effectiveZones, i);
      var more := BuildItemArcs(i, l.zones, l.members, items[i].held, slots, effectiveZones);
      arcs := arcs + more;
    }
  }

  /** Build the network of all Items and Members. Items are joined with their Assignments already. */
  method Init(items: seq<Item>, itemSlots: int,
              zones: seq<int>, zoneSlots: seq<nat>, members: seq<Member>, counts: seq<nat>)
    returns (arcs: seq<Arc>)
    requires MembersAreSorted(members) && AreZonesOf(zones, members) && AreSlotsOf(zoneSlots, zones, members)
             && |counts| == |members|
    requires forall i :: 0 <= i < |items| ==> HeldIsSorted(items[i].held)
    ensures arcs == AllItemArcs(items, LayoutOf(items, zones, zoneSlots, members), |items|)
                 + AllMemberOut(members, zoneSlots, |items|, itemSlots, counts, |members|)
    ensures IsNetwork(arcs, LayoutOf(items, zones, zoneSlots, members))
    ensures forall m :: 0 <= m < |members| ==> HasSinkArc(arcs, members, zoneSlots, |items|, itemSlots, counts, m)
  {
    hide MembersAreSorted, AreZonesOf, AreSlotsOf, HeldIsSorted, IsNetwork, AllItemArcs, AreMemberArcs, AllMemberOut;
    hide IsMemberShare, Priority;
    var effectiveSlots, effectiveZones := CountSlots(zoneSlots, |items|);
    var l := LayoutOf(items, zones, zoneSlots, members);
    arcs := BuildAllItemArcs(items, l, effectiveSlots, effectiveZones);
    var out := BuildMemberArcs(members, zones, zoneSlots, |items|, itemSlots, counts);
    AllMemberOutAre(members, zoneSlots, |items|, itemSlots, counts, |members|);
    NetworkIsComplete(items, l, out);
    arcs := arcs + out;
    forall m | 0 <= m < |members| ensures HasSinkArc(arcs, members, zoneSlots, |items|, itemSlots, counts, m) {
      assert HasSinkArc(out, members, zoneSlots, |items|, itemSlots, counts, m);
    }
  }
}

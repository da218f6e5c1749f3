/**
 * Scaled capacities of the flow network (v2/pkg/allocator/flow_network.go) suffice: Arcs from Members of a zone to Sink
 * still place every Item once, if the zone could, and all of them every slot of an Item, if Members could.
 */
module SinkCapacity {
  import opened Common
  import opened FlowNetwork
  import opened Network
  import ZoneScaling

  /** The capacity of Arcs which `p` selects. */
  function Capacity(arcs: seq<Arc>, p: Arc -> bool): nat {
    if arcs == [] then 0 else
      Capacity(arcs[..|arcs| - 1], p) + if p(arcs[|arcs| - 1]) then arcs[|arcs| - 1].capacity else 0
  }

  predicate IsToSink(members: seq<Member>, a: Arc) {
    a.from.MemberNode? && a.from.member < |members| && a.to == Sink
  }

  function FromZone(members: seq<Member>, zone: int): Arc -> bool {
    (a: Arc) => IsToSink(members, a) && members[a.from.member].zone == zone
  }

  /** Arcs to Sink from Members of the first `n` zones. */
  function FromZonesBelow(members: seq<Member>, zones: seq<int>, n: nat): Arc -> bool
    requires n <= |zones|
  {
    (a: Arc) => IsToSink(members, a) && members[a.from.member].zone in zones[..n]
  }

  function FromMembers(members: seq<Member>): Arc -> bool {
    (a: Arc) => IsToSink(members, a)
  }

  // ---------------------------------------------------------------------------
  // Sums of capacity

  lemma {:induction false} CapacityConcat(a: seq<Arc>, b: seq<Arc>, p: Arc -> bool)
    ensures Capacity(a + b, p) == Capacity(a, p) + Capacity(b, p)
  {
    if b == [] {
      assert a + b == a;
    } else {
      assert (a + b)[..|a + b| - 1] == a + b[..|b| - 1];
      CapacityConcat(a, b[..|b| - 1], p);
    }
  }

  lemma {:induction false} CapacityOfNone(arcs: seq<Arc>, p: Arc -> bool)
    requires forall a :: a in arcs ==> !p(a)
    ensures Capacity(arcs, p) == 0
  {
    if arcs != [] {
      CapacityOfNone(arcs[..|arcs| - 1], p);
    }
  }

  lemma {:induction false} CapacityAlike(arcs: seq<Arc>, p: Arc -> bool, q: Arc -> bool)
    requires forall a :: a in arcs ==> p(a) == q(a)
    ensures Capacity(arcs, p) == Capacity(arcs, q)
  {
    if arcs != [] {
      CapacityAlike(arcs[..|arcs| - 1], p, q);
    }
  }

  lemma {:induction false} CapacitySplits(arcs: seq<Arc>, p: Arc -> bool, q: Arc -> bool, r: Arc -> bool)
    requires forall a :: a in arcs ==> !(p(a) && q(a)) && r(a) == (p(a) || q(a))
    ensures Capacity(arcs, r) == Capacity(arcs, p) + Capacity(arcs, q)
  {
    if arcs != [] {
      CapacitySplits(arcs[..|arcs| - 1], p, q, r);
    }
  }

  // ---------------------------------------------------------------------------
  // Limits of Members, grouped on zone

  function LimitsOf(members: seq<Member>, zone: int): seq<nat> {
    if members == [] then [] else
      var last := members[|members| - 1];
      LimitsOf(members[..|members| - 1], zone) + if last.zone == zone then [last.limit] else []
  }

  lemma {:induction false} SumOfLimits(members: seq<Member>, zone: int)
    ensures ZoneScaling.Sum(LimitsOf(members, zone)) == LimitSum(members, zone)
  {
    if members != [] {
      var init, last := members[..|members| - 1], members[|members| - 1];
      SumOfLimits(init, zone);
      if last.zone == zone {
        assert LimitsOf(members, zone)[..|LimitsOf(init, zone)|] == LimitsOf(init, zone);
      } else {
        assert LimitsOf(members, zone) == LimitsOf(init, zone);
      }
    }
  }

  lemma {:induction false} LimitSumGrows(members: seq<Member>, zone: int, k: nat)
    requires k <= |members|
    ensures LimitSum(members[..k], zone) <= LimitSum(members, zone)
  {
    if k == |members| {
      assert members[..k] == members;
    } else {
      assert members[..|members| - 1][..k] == members[..k];
      LimitSumGrows(members[..|members| - 1], zone, k);
    }
  }

  function Grouped(zones: seq<int>, members: seq<Member>): (g: seq<seq<nat>>)
    ensures |g| == |zones| && forall z :: 0 <= z < |zones| ==> g[z] == LimitsOf(members, zones[z])
  {
    seq(|zones|, z requires 0 <= z < |zones| => LimitsOf(members, zones[z]))
  }

  lemma GroupedSlots(zones: seq<int>, zoneSlots: seq<nat>, members: seq<Member>)
    requires AreSlotsOf(zoneSlots, zones, members)
    ensures ZoneScaling.ZoneSlots(Grouped(zones, members)) == zoneSlots
  {
    hide LimitSum, LimitsOf;
    forall z | 0 <= z < |zones|
      ensures ZoneScaling.Sum(Grouped(zones, members)[z]) == zoneSlots[z]
    {
      SumOfLimits(members, zones[z]);
    }
  }

  // ---------------------------------------------------------------------------
  // Arcs of a zone

  lemma OutToSink(members: seq<Member>, m: nat, scaled: nat, count: nat, zone: int)
    requires m < |members| && scaled <= members[m].limit
    ensures Capacity(MemberOut(m, members[m].limit, scaled, count), FromZone(members, zone))
         == if members[m].zone == zone then scaled else 0
  {
    var out, p := MemberOut(m, members[m].limit, scaled, count), FromZone(members, zone);
    assert out[..1] == [out[0]];
    assert out[..1][..0] == [];
    assert Capacity(out[..1], p) == if members[m].zone == zone then scaled else 0;
    if |out| == 1 {
      assert out == out[..1];
    }
  }

  lemma ShareIsUsable(members: seq<Member>, zoneSlots: seq<nat>, itemCount: nat, itemSlots: int, zone: int, k: nat)
    requires k <= |members|
    ensures var slots := LimitSum(members, zone);
      var num, denom :=
        ZoneScaling.Numerator(itemCount, itemSlots, zoneSlots, slots),
        ZoneScaling.Denominator(itemCount, zoneSlots, slots);
      num >= 0 && (ZoneScaling.Times(ZoneScaling.Sum(LimitsOf(members[..k], zone)), num) != 0 ==> denom != 0)
  {
    hide ZoneScaling.Times, ZoneScaling.Scaled, ZoneScaling.Numerator, ZoneScaling.Denominator, LimitSum, LimitsOf;
    var slots := LimitSum(members, zone);
    SumOfLimits(members[..k], zone);
    LimitSumGrows(members, zone, k);
    ShareIsWithin(itemCount, itemSlots, zoneSlots, slots, ZoneScaling.Sum(LimitsOf(members[..k], zone)));
  }

  /** The scaled capacity of those of the first `k` Members which are of a zone. */
  function ZoneShare(members: seq<Member>, zoneSlots: seq<nat>, itemCount: nat, itemSlots: int, zone: int, k: nat): nat
    requires k <= |members|
  {
    var slots := LimitSum(members, zone);
    ShareIsUsable(members, zoneSlots, itemCount, itemSlots, zone, k);
    ZoneScaling.ScaledSum(LimitsOf(members[..k], zone),
                          ZoneScaling.Numerator(itemCount, itemSlots, zoneSlots, slots),
                            ZoneScaling.Denominator(itemCount, zoneSlots, slots))
  }

  lemma ZoneShareGrows(members: seq<Member>, zoneSlots: seq<nat>, itemCount: nat, itemSlots: int, zone: int, k: nat)
    requires k < |members|
    ensures ZoneShare(members, zoneSlots, itemCount, itemSlots, zone, k + 1)
         == ZoneShare(members, zoneSlots, itemCount, itemSlots, zone, k)
            + if members[k].zone == zone then Network.SinkCapacity(members, zoneSlots, itemCount, itemSlots, k) else 0
  {
    hide ZoneScaling.Times, ZoneScaling.Scaled, ZoneScaling.Numerator, ZoneScaling.Denominator, LimitSum;
    assert members[..k + 1][..k] == members[..k];
    var init, all := LimitsOf(members[..k], zone), LimitsOf(members[..k + 1], zone);
    if members[k].zone == zone {
      assert all[..|init|] == init;
    } else {
      assert all == init;
    }
  }

  lemma ZoneOutStep(members: seq<Member>, zoneSlots: seq<nat>, itemCount: nat, itemSlots: int, counts: seq<nat>,
                    zone: int, k: nat)
    requires k < |members| == |counts|
    ensures Capacity(AllMemberOut(members, zoneSlots, itemCount, itemSlots, counts, k + 1), FromZone(members, zone))
         == Capacity(AllMemberOut(members, zoneSlots, itemCount, itemSlots, counts, k), FromZone(members, zone))
            + if members[k].zone == zone then Network.SinkCapacity(members, zoneSlots, itemCount, itemSlots, k) else 0
  {
    hide Network.SinkCapacity, MemberOut, Capacity, FromZone;
    var scaled := Network.SinkCapacity(members, zoneSlots, itemCount, itemSlots, k);
    var init := AllMemberOut(members, zoneSlots, itemCount, itemSlots, counts, k);
    var out := MemberOut(k, members[k].limit, scaled, counts[k]);
    CapacityConcat(init, out, FromZone(members, zone));
    OutToSink(members, k, scaled, counts[k], zone);
  }

  lemma NoneOut(members: seq<Member>, zoneSlots: seq<nat>, itemCount: nat, itemSlots: int, counts: seq<nat>, zone: int)
    requires |members| == |counts|
    ensures Capacity(AllMemberOut(members, zoneSlots, itemCount, itemSlots, counts, 0), FromZone(members, zone)) == 0
    ensures ZoneShare(members, zoneSlots, itemCount, itemSlots, zone, 0) == 0
  {
  }

  lemma {:induction false} ZoneOutCapacity(members: seq<Member>, zoneSlots: seq<nat>, itemCount: nat, itemSlots: int,
                                           counts: seq<nat>, zone: int, k: nat)
    requires k <= |members| == |counts|
    ensures Capacity(AllMemberOut(members, zoneSlots, itemCount, itemSlots, counts, k), FromZone(members, zone))
         == ZoneShare(members, zoneSlots, itemCount, itemSlots, zone, k)
  {
    hide ZoneShare, Network.SinkCapacity, AllMemberOut, Capacity, FromZone;
    if k == 0 {
      NoneOut(members, zoneSlots, itemCount, itemSlots, counts, zone);
    } else {
      ZoneOutCapacity(members, zoneSlots, itemCount, itemSlots, counts, zone, k - 1);
      ZoneOutStep(members, zoneSlots, itemCount, itemSlots, counts, zone, k - 1);
      ZoneShareGrows(members, zoneSlots, itemCount, itemSlots, zone, k - 1);
    }
  }

  // ---------------------------------------------------------------------------
  // The network's capacity

  ghost predicate IsBuilt(arcs: seq<Arc>, items: seq<Item>, itemSlots: int,
                          zones: seq<int>, zoneSlots: seq<nat>, members: seq<Member>, counts: seq<nat>)
    requires |counts| == |members|
  {
    && MembersAreSorted(members) && AreZonesOf(zones, members) && AreSlotsOf(zoneSlots, zones, members)
    && arcs == AllItemArcs(items, LayoutOf(items, zones, zoneSlots, members), |items|)
      + AllMemberOut(members, zoneSlots, |items|, itemSlots, counts, |members|)
  }

  lemma NetworkZoneCapacity(
    arcs: seq<Arc>, items: seq<Item>, itemSlots: int,
    zones: seq<int>, zoneSlots: seq<nat>, members: seq<Member>, counts: seq<nat>, zone: int)
    requires |counts| == |members| && IsBuilt(arcs, items, itemSlots, zones, zoneSlots, members, counts)
    ensures Capacity(arcs, FromZone(members, zone)) ==
            ZoneShare(members, zoneSlots, |items|, itemSlots, zone, |members|)
  {
    hide ZoneShare, Capacity, AllItemArcs, AllMemberOut, MembersAreSorted, AreZonesOf, AreSlotsOf;
    var l := LayoutOf(items, zones, zoneSlots, members);
    var base, out :=
      AllItemArcs(items, l, |items|), AllMemberOut(members, zoneSlots, |items|, itemSlots, counts, |members|);
    AllItemArcsAre(items, l, |items|);
    forall a | a in base
      ensures !FromZone(members, zone)(a)
    {
      assert IsOf(a, |items|);
    }
    CapacityOfNone(base, FromZone(members, zone));
    CapacityConcat(base, out, FromZone(members, zone));
    ZoneOutCapacity(members, zoneSlots, |items|, itemSlots, counts, zone, |members|);
  }

  lemma ZoneShareIs(items: seq<Item>, itemSlots: int,
                    zones: seq<int>, zoneSlots: seq<nat>, members: seq<Member>, z: nat)
    requires AreSlotsOf(zoneSlots, zones, members) && z < |zones|
    ensures ZoneShare(members, zoneSlots, |items|, itemSlots, zones[z], |members|)
         == ZoneScaling.ZoneCapacity(|items|, itemSlots, Grouped(zones, members), z)
  {
    hide ZoneScaling.Times, ZoneScaling.Scaled, ZoneScaling.Numerator, ZoneScaling.Denominator;
    hide ZoneScaling.ScaledSum, LimitSum, LimitsOf;
    assert members[..|members|] == members;
    GroupedSlots(zones, zoneSlots, members);
    SumOfLimits(members, zones[z]);
  }

  /** A zone can place every Item once, or as many as it has slots for, in spite of scaling. */
  lemma ZonePlacesItems(
    arcs: seq<Arc>, items: seq<Item>, itemSlots: int,
    zones: seq<int>, zoneSlots: seq<nat>, members: seq<Member>, counts: seq<nat>, z: nat)
    requires |counts| == |members| && IsBuilt(arcs, items, itemSlots, zones, zoneSlots, members, counts) && z < |zones|
    ensures z < |zoneSlots| && Capacity(arcs, FromZone(members, zones[z])) >= Min(|items|, zoneSlots[z])
  {
    hide ZoneShare, Capacity, AllItemArcs, AllMemberOut, MembersAreSorted, AreZonesOf, ZoneScaling.ZoneCapacity;
    hide LimitSum, LimitsOf;
    NetworkZoneCapacity(arcs, items, itemSlots, zones, zoneSlots, members, counts, zones[z]);
    ZoneShareIs(items, itemSlots, zones, zoneSlots, members, z);
    ZoneScaling.ZoneKeepsFixed(|items|, itemSlots, Grouped(zones, members), z);
    SumOfLimits(members, zones[z]);
  }

  /** Scaling leaves a zone no more than its share, but for rounding, of less than one per Member. */
  lemma ZoneIsTight(
    arcs: seq<Arc>, items: seq<Item>, itemSlots: int,
    zones: seq<int>, zoneSlots: seq<nat>, members: seq<Member>, counts: seq<nat>, z: nat)
    requires |counts| == |members| && IsBuilt(arcs, items, itemSlots, zones, zoneSlots, members, counts) && z < |zones|
    ensures var n, cap := |LimitsOf(members, zones[z])|, Capacity(arcs, FromZone(members, zones[z]));
            var mr := ZoneScaling.MemberRemainder(|items|, zoneSlots);
            && z < |zoneSlots|
            && (n == 0 ==> cap == 0)
            && (n > 0 ==>
                  ZoneScaling.Times(cap, mr) <
                    ZoneScaling.Numerator(|items|, itemSlots, zoneSlots, zoneSlots[z]) + ZoneScaling.Times(n, mr))
  {
    hide ZoneShare, Capacity, AllItemArcs, AllMemberOut, MembersAreSorted, AreZonesOf, ZoneScaling.ZoneCapacity;
    hide LimitSum, LimitsOf, ZoneScaling.Times, ZoneScaling.Numerator, ZoneScaling.MemberRemainder;
    NetworkZoneCapacity(arcs, items, itemSlots, zones, zoneSlots, members, counts, zones[z]);
    ZoneShareIs(items, itemSlots, zones, zoneSlots, members, z);
    GroupedSlots(zones, zoneSlots, members);
    ZoneScaling.ZoneShareIsTight(|items|, itemSlots, Grouped(zones, members), z);
    SumOfLimits(members, zones[z]);
  }

  lemma {:induction false} ZonesBelowCapacity(
    arcs: seq<Arc>, items: seq<Item>, itemSlots: int,
    zones: seq<int>, zoneSlots: seq<nat>, members: seq<Member>, counts: seq<nat>, n: nat)
    requires |counts| == |members| && IsBuilt(arcs, items, itemSlots, zones, zoneSlots, members, counts) && n <= |zones|
    ensures Capacity(arcs, FromZonesBelow(members, zones, n)) ==
            ZoneScaling.TotalCapacity(|items|, itemSlots, Grouped(zones, members), n)
  {
    hide ZoneShare, Capacity, AllItemArcs, AllMemberOut, MembersAreSorted, ZoneScaling.ZoneCapacity, LimitSum;
    hide LimitsOf, HasMember;
    if n == 0 {
      CapacityOfNone(arcs, FromZonesBelow(members, zones, n));
    } else {
      ZonesBelowCapacity(arcs, items, itemSlots, zones, zoneSlots, members, counts, n - 1);
      NetworkZoneCapacity(arcs, items, itemSlots, zones, zoneSlots, members, counts, zones[n - 1]);
      ZoneShareIs(items, itemSlots, zones, zoneSlots, members, n - 1);
      assert zones[..n] == zones[..n - 1] + [zones[n - 1]];
      CapacitySplits(arcs, FromZonesBelow(members, zones, n - 1), FromZone(members, zones[n - 1]),
        FromZonesBelow(members, zones, n));
    }
  }

  /** All Members together can place every slot of an Item, or as many as they have, in spite of scaling. */
  lemma MembersPlaceSlots(
    arcs: seq<Arc>, items: seq<Item>, itemSlots: int,
    zones: seq<int>, zoneSlots: seq<nat>, members: seq<Member>, counts: seq<nat>)
    requires |counts| == |members| && IsBuilt(arcs, items, itemSlots, zones, zoneSlots, members, counts)
    ensures Capacity(arcs, FromMembers(members)) >= Min(itemSlots, ZoneScaling.Sum(zoneSlots))
  {
    hide Capacity, AllItemArcs, AllMemberOut, MembersAreSorted, LimitSum, LimitsOf, HasMember;
    hide ZoneScaling.TotalCapacity, ZoneScaling.Sum;
    ZonesBelowCapacity(arcs, items, itemSlots, zones, zoneSlots, members, counts, |zones|);
    assert zones[..|zones|] == zones;
    CapacityAlike(arcs, FromMembers(members), FromZonesBelow(members, zones, |zones|));
    GroupedSlots(zones, zoneSlots, members);
    ZoneScaling.TotalKeepsSlots(|items|, itemSlots, Grouped(zones, members));
  }

  // ---------------------------------------------------------------------------
  // Each Member is of one zone

  lemma {:induction false} NextMemberCount(zones: seq<int>, members: seq<Member>, n: nat)
    requires members != [] && n <= |zones| && forall i, j :: 0 <= i < j < |zones| ==> zones[i] != zones[j]
    ensures var init, last := members[..|members| - 1], members[|members| - 1];
            ZoneScaling.MemberCount(Grouped(zones, members), n) ==
              ZoneScaling.MemberCount(Grouped(zones, init), n) + if last.zone in zones[..n] then 1 else 0
  {
    if n > 0 {
      NextMemberCount(zones, members, n - 1);
      assert zones[..n] == zones[..n - 1] + [zones[n - 1]];
    }
  }

  lemma {:induction false} NoMemberCount(zones: seq<int>, n: nat)
    requires n <= |zones|
    ensures ZoneScaling.MemberCount(Grouped(zones, []), n) == 0
  {
    if n > 0 {
      NoMemberCount(zones, n - 1);
    }
  }

  lemma {:induction false} GroupedCount(zones: seq<int>, members: seq<Member>)
    requires forall i, j :: 0 <= i < j < |zones| ==> zones[i] != zones[j]
    requires forall m :: 0 <= m < |members| ==> members[m].zone in zones
    ensures ZoneScaling.MemberCount(Grouped(zones, members), |zones|) == |members|
  {
    hide Grouped;
    if members == [] {
      NoMemberCount(zones, |zones|);
    } else {
      assert zones[..|zones|] == zones;
      GroupedCount(zones, members[..|members| - 1]);
      NextMemberCount(zones, members, |zones|);
    }
  }

  /**
   * All Members together can place no more than the slots of Items, or than each Item once in each zone if that's more;
   * but for rounding, of at most one per Member.
   */
  lemma MembersAreTight(
    arcs: seq<Arc>, items: seq<Item>, itemSlots: int,
    zones: seq<int>, zoneSlots: seq<nat>, members: seq<Member>, counts: seq<nat>)
    requires |counts| == |members| && IsBuilt(arcs, items, itemSlots, zones, zoneSlots, members, counts)
    ensures Capacity(arcs, FromMembers(members)) <=
            Max(ZoneScaling.FixedSum(|items|, zoneSlots), Min(itemSlots, ZoneScaling.Sum(zoneSlots))) + |members|
  {
    hide Capacity, AllItemArcs, AllMemberOut, MembersAreSorted, LimitSum, LimitsOf;
    hide ZoneScaling.TotalCapacity, ZoneScaling.Sum, ZoneScaling.FixedSum, ZoneScaling.MemberCount;
    ZonesBelowCapacity(arcs, items, itemSlots, zones, zoneSlots, members, counts, |zones|);
    assert zones[..|zones|] == zones;
    CapacityAlike(arcs, FromMembers(members), FromZonesBelow(members, zones, |zones|));
    GroupedSlots(zones, zoneSlots, members);
    GroupedCount(zones, members);
    ZoneScaling.TotalIsTight(|items|, itemSlots, Grouped(zones, members));
  }
}

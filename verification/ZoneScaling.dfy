/**
 * Scaling of member capacities by zone (v2/pkg/allocator/flow_network.go): where there are more member slots
 * than item slots, items are balanced over zones and members, without losing the capacity to place them.
 */
module ZoneScaling {
  import opened Common

  /** A product, named so that proofs can treat it as a whole. */
  function Times(a: int, b: int): int {
    a * b
  }

  lemma TimesNat(a: nat, b: nat)
    ensures Times(a, b) >= 0
    ensures a == 0 || b == 0 <==> Times(a, b) == 0
    ensures a > 0 && b > 0 ==> Times(a, b) >= a && Times(a, b) >= b
  {
  }

  lemma TimesSum(a: int, b: int, c: int)
    ensures Times(a + b, c) == Times(a, c) + Times(b, c)
    ensures Times(c, a + b) == Times(c, a) + Times(c, b)
  {
  }

  lemma TimesCommutes(a: int, b: int)
    ensures Times(a, b) == Times(b, a)
  {
  }

  lemma TimesAssociates(a: int, b: int, c: int)
    ensures Times(a, Times(b, c)) == Times(Times(a, b), c)
  {
    assert a * (b * c) == (a * b) * c;
  }

  lemma TimesMono(a: int, b: int, c: nat)
    requires a <= b
    ensures Times(a, c) <= Times(b, c) && Times(c, a) <= Times(c, b)
  {
    TimesSum(a, b - a, c);
    TimesNat(b - a, c);
    TimesNat(c, b - a);
  }

  lemma TimesCancels(k: nat, a: int, b: int)
    requires k > 0 && Times(k, a) <= Times(k, b)
    ensures a <= b
  {
    if a > b {
      hide Times;
      TimesMono(b + 1, a, k);
      TimesSum(b, 1, k);
      TimesOne(k);
    }
  }

  lemma TimesOne(k: int)
    ensures Times(k, 1) == Times(1, k) == k
    ensures Times(k, 0) == Times(0, k) == 0
  {
  }

  function Sum(s: seq<nat>): nat {
    if s == [] then 0 else Sum(s[..|s| - 1]) + s[|s| - 1]
  }

  /** The slots of a zone which are never scaled away: enough to place each item once, if the zone can. */
  function Fixed(itemCount: nat, slots: nat): nat {
    if itemCount < slots then itemCount else slots
  }

  function FixedSum(itemCount: nat, zoneSlots: seq<nat>): nat {
    if zoneSlots == [] then 0
    else FixedSum(itemCount, zoneSlots[..|zoneSlots| - 1]) + Fixed(itemCount, zoneSlots[|zoneSlots| - 1])
  }

  function ItemRemainder(itemCount: nat, itemSlots: int, zoneSlots: seq<nat>): nat {
    Max(0, Min(itemSlots, Sum(zoneSlots)) - FixedSum(itemCount, zoneSlots))
  }

  function MemberRemainder(itemCount: nat, zoneSlots: seq<nat>): nat {
    Max(1, Sum(zoneSlots) - FixedSum(itemCount, zoneSlots))
  }

  function Numerator(itemCount: nat, itemSlots: int, zoneSlots: seq<nat>, slots: nat): int {
    var ir, mr := ItemRemainder(itemCount, itemSlots, zoneSlots), MemberRemainder(itemCount, zoneSlots);
    Times(mr - ir, Fixed(itemCount, slots)) + Times(ir, slots)
  }

  function Denominator(itemCount: nat, zoneSlots: seq<nat>, slots: nat): nat {
    TimesNat(slots, MemberRemainder(itemCount, zoneSlots));
    Times(slots, MemberRemainder(itemCount, zoneSlots))
  }

  method ZoneScalingFactors(itemCount: nat, itemSlots: int, zoneSlots: seq<nat>)
    returns (num: seq<int>, denom: seq<nat>)
    ensures |num| == |denom| == |zoneSlots|
    ensures forall z :: 0 <= z < |zoneSlots| ==>
              && num[z] == Numerator(itemCount, itemSlots, zoneSlots, zoneSlots[z])
              && denom[z] == Denominator(itemCount, zoneSlots, zoneSlots[z])
  {
    hide Times;
    var memberSlots, fixedSlots := 0, 0;
    for z := 0 to |zoneSlots|
      invariant memberSlots == Sum(zoneSlots[..z]) && fixedSlots == FixedSum(itemCount, zoneSlots[..z])
    {
      assert zoneSlots[..z + 1][..z] == zoneSlots[..z];
      memberSlots := memberSlots + zoneSlots[z];
      fixedSlots := fixedSlots + Min(itemCount, zoneSlots[z]);
    }
    assert zoneSlots[..|zoneSlots|] == zoneSlots;
    var itemRemainder := Max(0, Min(itemSlots, memberSlots) - fixedSlots);
    var memberRemainder := Max(1, memberSlots - fixedSlots);
    num, denom := [], [];
    for z := 0 to |zoneSlots|
      invariant |num| == |denom| == z
      invariant forall k :: 0 <= k < z ==>
                  && num[k] == Numerator(itemCount, itemSlots, zoneSlots, zoneSlots[k])
                  && denom[k] == Denominator(itemCount, zoneSlots, zoneSlots[k])
    {
      var zs := zoneSlots[z];
      num := num + [Times(memberRemainder - itemRemainder, Min(itemCount, zs)) + Times(itemRemainder, zs)];
      TimesNat(zs, memberRemainder);
      denom := denom + [Times(zs, memberRemainder)];
    }
  }

  /** The scaled capacity of a member: integer division, rounded up. Nothing is divided if it is zero. */
  function Scaled(limit: nat, num: nat, denom: nat): nat
    requires Times(limit, num) != 0 ==> denom != 0
  {
    TimesNat(limit, num);
    var scaled := Times(limit, num);
    if scaled == 0 then 0
    else if scaled % denom == 0 then scaled / denom
    else scaled / denom + 1
  }

  // ---------------------------------------------------------------------------
  // The ratio is at most one, and at least that of the fixed slots.

  lemma {:induction false} FixedBelowSum(itemCount: nat, zoneSlots: seq<nat>)
    ensures FixedSum(itemCount, zoneSlots) <= Sum(zoneSlots)
  {
    if zoneSlots != [] {
      FixedBelowSum(itemCount, zoneSlots[..|zoneSlots| - 1]);
    }
  }

  lemma RatioBounds(itemCount: nat, itemSlots: int, zoneSlots: seq<nat>, slots: nat)
    ensures var num := Numerator(itemCount, itemSlots, zoneSlots, slots);
            var mr := MemberRemainder(itemCount, zoneSlots);
            Times(mr, Fixed(itemCount, slots)) <= num <= Times(mr, slots)
  {
    hide Times, Sum, FixedSum;
    FixedBelowSum(itemCount, zoneSlots);
    var ir, mr := ItemRemainder(itemCount, itemSlots, zoneSlots), MemberRemainder(itemCount, zoneSlots);
    var f := Fixed(itemCount, slots);
    assert ir <= mr;
    TimesSum(mr - ir, ir, f);
    TimesSum(mr - ir, ir, slots);
    TimesMono(f, slots, ir);
    TimesMono(f, slots, mr - ir);
  }

  // ---------------------------------------------------------------------------
  // Rounded-up shares

  /** A share which is rounded up is enough, and it is at most the limit. */
  lemma ScaledBounds(limit: nat, num: nat, denom: nat)
    requires num <= denom && (Times(limit, num) != 0 ==> denom != 0)
    ensures Times(limit, num) <= Times(Scaled(limit, num, denom), denom)
    ensures Scaled(limit, num, denom) <= limit
  {
    TimesNat(limit, num);
    TimesMono(num, denom, limit);
    var x := Times(limit, num);
    TimesOne(denom);
    if x != 0 {
      RoundUp(x, limit, denom);
    }
  }

  /** `c` is the least capacity which is at least the share `num / denom` of `limit`. */
  ghost predicate IsLeastShare(c: nat, limit: nat, num: int, denom: nat) {
    Times(limit, num) <= Times(c, denom) && (c > 0 ==> Times(c - 1, denom) < Times(limit, num))
  }

  lemma ScaledIsLeast(limit: nat, num: nat, denom: nat)
    requires Times(limit, num) != 0 ==> denom != 0
    ensures IsLeastShare(Scaled(limit, num, denom), limit, num, denom)
  {
    TimesNat(limit, num);
    var x := Times(limit, num);
    if x == 0 {
      TimesOne(denom);
    } else {
      var q, r := x / denom, x % denom;
      assert x == Times(q, denom) + r;
      hide Times;
      TimesSum(q, 1, denom);
      TimesSum(q, -1, denom);
      TimesSum(-1, 1, denom);
      TimesOne(denom);
    }
  }

  /** There's only one such capacity. */
  lemma LeastShareIsUnique(c: nat, c': nat, limit: nat, num: int, denom: nat)
    requires IsLeastShare(c, limit, num, denom) && IsLeastShare(c', limit, num, denom)
    ensures c == c'
  {
    hide Times;
    if c < c' {
      TimesMono(c, c' - 1, denom);
    } else if c' < c {
      TimesMono(c', c - 1, denom);
    }
  }

  lemma RoundUp(x: nat, limit: nat, denom: nat)
    requires denom > 0 && x <= Times(limit, denom)
    ensures var up := if x % denom == 0 then x / denom else x / denom + 1;
            x <= Times(up, denom) && up <= limit
  {
    var q, r := x / denom, x % denom;
    assert x == Times(q, denom) + r;
    hide Times;
    TimesSum(q, 1, denom);
    TimesOne(denom);
    TimesCommutes(q, denom);
    TimesCommutes(limit, denom);
    if r == 0 {
      TimesCancels(denom, q, limit);
    } else if q >= limit {
      TimesMono(limit, q, denom);
    }
  }

  /** The scaled capacity of all members of a zone, whose limits are `limits`. */
  function ScaledSum(limits: seq<nat>, num: nat, denom: nat): nat
    requires Times(Sum(limits), num) != 0 ==> denom != 0
  {
    if limits == [] then 0
    else
      LastIsCovered(limits, num, denom);
      ScaledSum(limits[..|limits| - 1], num, denom) + Scaled(limits[|limits| - 1], num, denom)
  }

  lemma LastIsCovered(limits: seq<nat>, num: nat, denom: nat)
    requires limits != [] && (Times(Sum(limits), num) != 0 ==> denom != 0)
    ensures Times(limits[|limits| - 1], num) != 0 ==> denom != 0
    ensures Times(Sum(limits[..|limits| - 1]), num) != 0 ==> denom != 0
  {
    hide Times;
    var init, last := Sum(limits[..|limits| - 1]), limits[|limits| - 1];
    TimesSum(init, last, num);
    TimesNat(init, num);
    TimesNat(last, num);
  }

  lemma {:induction false} ScaledSumBounds(limits: seq<nat>, num: nat, denom: nat)
    requires num <= denom && (Times(Sum(limits), num) != 0 ==> denom != 0)
    ensures Times(Sum(limits), num) <= Times(ScaledSum(limits, num, denom), denom)
  {
    hide Times, Scaled;
    if limits == [] {
      TimesOne(num);
      TimesOne(denom);
    } else {
      var init, last := limits[..|limits| - 1], limits[|limits| - 1];
      LastIsCovered(limits, num, denom);
      ScaledSumBounds(init, num, denom);
      ScaledBounds(last, num, denom);
      TimesSum(Sum(init), last, num);
      TimesSum(ScaledSum(init, num, denom), Scaled(last, num, denom), denom);
    }
  }

  /** Rounding adds less than one per member. */
  lemma {:induction false} ScaledSumIsTight(limits: seq<nat>, num: nat, denom: nat)
    requires denom > 0
    ensures limits == [] ==> ScaledSum(limits, num, denom) == 0
    ensures limits != [] ==>
      Times(ScaledSum(limits, num, denom), denom) < Times(Sum(limits), num) + Times(|limits|, denom)
  {
    hide Times, Scaled;
    if limits != [] {
      var init, last := limits[..|limits| - 1], limits[|limits| - 1];
      var rest: int, share: int := ScaledSum(init, num, denom), Scaled(last, num, denom);
      ScaledSumIsTight(init, num, denom);
      ScaledIsLeast(last, num, denom);
      TimesSum(Sum(init), last, num);
      TimesSum(rest, share, denom);
      TimesSum(share - 1, 1, denom);
      TimesSum(|init|, 1, denom);
      TimesOne(denom);
      TimesNat(last, num);
      if limits == [last] {
        assert init == [];
        TimesOne(num);
      }
    }
  }

  // ---------------------------------------------------------------------------
  // Zones

  /** Slots of each zone are the sum of its members' limits. */
  function ZoneSlots(zones: seq<seq<nat>>): (s: seq<nat>)
    ensures |s| == |zones| && forall z :: 0 <= z < |zones| ==> s[z] == Sum(zones[z])
  {
    seq(|zones|, z requires 0 <= z < |zones| => Sum(zones[z]))
  }

  /** The numerator of a zone of `slots`, which is never negative. */
  function Num(itemCount: nat, itemSlots: int, zones: seq<seq<nat>>, slots: nat): nat {
    RatioBounds(itemCount, itemSlots, ZoneSlots(zones), slots);
    TimesNat(MemberRemainder(itemCount, ZoneSlots(zones)), Fixed(itemCount, slots));
    Numerator(itemCount, itemSlots, ZoneSlots(zones), slots)
  }

  /** No zero denominator is ever used: where a zone has no slots, no member of it has, either. */
  lemma DenominatorIsUsable(itemCount: nat, zoneSlots: seq<nat>, slots: nat, limit: nat, num: nat)
    requires limit <= slots
    ensures Times(limit, num) != 0 ==> Denominator(itemCount, zoneSlots, slots) != 0
  {
    hide Times;
    TimesNat(limit, num);
    TimesNat(slots, MemberRemainder(itemCount, zoneSlots));
  }

  /** The scaled capacity of the `z`-th zone. */
  function ZoneCapacity(itemCount: nat, itemSlots: int, zones: seq<seq<nat>>, z: nat): nat
    requires z < |zones|
  {
    var slots := Sum(zones[z]);
    var num := Num(itemCount, itemSlots, zones, slots);
    DenominatorIsUsable(itemCount, ZoneSlots(zones), slots, slots, num);
    ScaledSum(zones[z], num, Denominator(itemCount, ZoneSlots(zones), slots))
  }

  function TotalCapacity(itemCount: nat, itemSlots: int, zones: seq<seq<nat>>, n: nat): nat
    requires n <= |zones|
  {
    if n == 0 then 0
    else TotalCapacity(itemCount, itemSlots, zones, n - 1) + ZoneCapacity(itemCount, itemSlots, zones, n - 1)
  }

  lemma {:induction false} LimitBelowSum(limits: seq<nat>, i: nat)
    requires i < |limits|
    ensures limits[i] <= Sum(limits)
  {
    if i < |limits| - 1 {
      LimitBelowSum(limits[..|limits| - 1], i);
    }
  }

  /** Each member's scaled capacity is at most its limit, and no zero denominator is used for it. */
  lemma MemberCapacityBound(itemCount: nat, itemSlots: int, zones: seq<seq<nat>>, z: nat, m: nat)
    requires z < |zones| && m < |zones[z]|
    ensures var slots, limit := Sum(zones[z]), zones[z][m];
            var num, denom := Num(itemCount, itemSlots, zones, slots), Denominator(itemCount, ZoneSlots(zones), slots);
            && (Times(limit, num) != 0 ==> denom != 0)
            && Scaled(limit, num, denom) <= limit
  {
    hide Times, Scaled, MemberRemainder, Numerator;
    var slots, limit := Sum(zones[z]), zones[z][m];
    LimitBelowSum(zones[z], m);
    RatioBounds(itemCount, itemSlots, ZoneSlots(zones), slots);
    var num := Num(itemCount, itemSlots, zones, slots);
    DenominatorIsUsable(itemCount, ZoneSlots(zones), slots, limit, num);
    TimesCommutes(slots, MemberRemainder(itemCount, ZoneSlots(zones)));
    ScaledBounds(limit, num, Denominator(itemCount, ZoneSlots(zones), slots));
  }

  /** The capacity of a zone, times the member remainder, is at least the numerator of its ratio. */
  lemma ZoneShare(itemCount: nat, itemSlots: int, zones: seq<seq<nat>>, z: nat)
    requires z < |zones|
    ensures Num(itemCount, itemSlots, zones, Sum(zones[z])) <=
            Times(ZoneCapacity(itemCount, itemSlots, zones, z), MemberRemainder(itemCount, ZoneSlots(zones)))
  {
    hide Times, Scaled, ScaledSum, Numerator;
    var slots := Sum(zones[z]);
    var mr := MemberRemainder(itemCount, ZoneSlots(zones));
    var num := Num(itemCount, itemSlots, zones, slots);
    var cap := ZoneCapacity(itemCount, itemSlots, zones, z);
    RatioBounds(itemCount, itemSlots, ZoneSlots(zones), slots);
    TimesNat(cap, mr);
    if slots > 0 {
      DenominatorIsUsable(itemCount, ZoneSlots(zones), slots, slots, num);
      TimesCommutes(slots, mr);
      ScaledSumBounds(zones[z], num, Times(slots, mr));
      TimesAssociates(slots, cap, mr);
      TimesAssociates(cap, slots, mr);
      TimesCommutes(slots, cap);
      TimesCancels(slots, num, Times(cap, mr));
    } else {
      TimesOne(mr);
    }
  }

  /** The capacity of a zone is above its share by less than one per member. */
  lemma ZoneShareIsTight(itemCount: nat, itemSlots: int, zones: seq<seq<nat>>, z: nat)
    requires z < |zones|
    ensures zones[z] != [] ==>
      var mr := MemberRemainder(itemCount, ZoneSlots(zones));
      Times(ZoneCapacity(itemCount, itemSlots, zones, z), mr) <
        Num(itemCount, itemSlots, zones, Sum(zones[z])) + Times(|zones[z]|, mr)
    ensures zones[z] == [] ==> ZoneCapacity(itemCount, itemSlots, zones, z) == 0
  {
    hide Times, Scaled, ScaledSum, Numerator, MemberRemainder;
    var slots, n := Sum(zones[z]), |zones[z]|;
    var mr := MemberRemainder(itemCount, ZoneSlots(zones));
    assert mr > 0 by { RemainderIsPositive(itemCount, ZoneSlots(zones)); }
    var num := Num(itemCount, itemSlots, zones, slots);
    var cap := ZoneCapacity(itemCount, itemSlots, zones, z);
    if slots > 0 {
      DenominatorIsUsable(itemCount, ZoneSlots(zones), slots, slots, num);
      TimesNat(slots, mr);
      ScaledSumIsTight(zones[z], num, Times(slots, mr));
      Reorder(slots, cap, mr);
      Reorder(slots, n, mr);
      TimesSum(num, Times(n, mr), slots);
      assert Times(slots, Times(cap, mr)) < Times(slots, num + Times(n, mr));
      Strictly(slots, Times(cap, mr), num + Times(n, mr));
    } else {
      TimesOne(num);
      TimesOne(mr);
      NoCapacity(zones[z], num, Times(slots, mr));
      TimesNat(n, mr);
    }
  }

  lemma RemainderIsPositive(itemCount: nat, zoneSlots: seq<nat>)
    ensures MemberRemainder(itemCount, zoneSlots) > 0
  {
  }

  lemma Reorder(a: int, b: int, c: int)
    ensures Times(a, Times(b, c)) == Times(b, Times(a, c))
  {
    TimesAssociates(a, b, c);
    TimesAssociates(b, a, c);
    TimesCommutes(a, b);
  }

  lemma Strictly(k: nat, a: int, b: int)
    requires k > 0 && Times(k, a) < Times(k, b)
    ensures a < b
  {
    if a >= b {
      TimesMono(b, a, k);
    }
  }

  /** Without slots, there's no capacity. */
  lemma {:induction false} NoCapacity(limits: seq<nat>, num: nat, denom: nat)
    requires Sum(limits) == 0 && (Times(Sum(limits), num) != 0 ==> denom != 0)
    ensures ScaledSum(limits, num, denom) == 0
  {
    if limits != [] {
      LastIsCovered(limits, num, denom);
      NoCapacity(limits[..|limits| - 1], num, denom);
    }
  }

  /** A zone can still place every item once, or as many as it could. */
  lemma ZoneKeepsFixed(itemCount: nat, itemSlots: int, zones: seq<seq<nat>>, z: nat)
    requires z < |zones|
    ensures ZoneCapacity(itemCount, itemSlots, zones, z) >= Min(itemCount, Sum(zones[z]))
  {
    hide Times, ZoneCapacity, Numerator;
    var slots := Sum(zones[z]);
    var mr := MemberRemainder(itemCount, ZoneSlots(zones));
    ZoneShare(itemCount, itemSlots, zones, z);
    RatioBounds(itemCount, itemSlots, ZoneSlots(zones), slots);
    var cap := ZoneCapacity(itemCount, itemSlots, zones, z);
    TimesCommutes(cap, mr);
    TimesCancels(mr, Fixed(itemCount, slots), cap);
  }

  function NumSum(itemCount: nat, itemSlots: int, zones: seq<seq<nat>>, n: nat): nat
    requires n <= |zones|
  {
    if n == 0 then 0
    else NumSum(itemCount, itemSlots, zones, n - 1) + Num(itemCount, itemSlots, zones, Sum(zones[n - 1]))
  }

  lemma {:induction false} NumSumIs(itemCount: nat, itemSlots: int, zones: seq<seq<nat>>, n: nat)
    requires n <= |zones|
    ensures var all := ZoneSlots(zones);
            var ir, mr := ItemRemainder(itemCount, itemSlots, all), MemberRemainder(itemCount, all);
            NumSum(itemCount, itemSlots, zones, n) ==
              Times(mr - ir, FixedSum(itemCount, all[..n])) + Times(ir, Sum(all[..n]))
  {
    hide Times, ItemRemainder, MemberRemainder;
    var all := ZoneSlots(zones);
    var ir: int, mr: int := ItemRemainder(itemCount, itemSlots, all), MemberRemainder(itemCount, all);
    if n == 0 {
      TimesOne(mr - ir);
      TimesOne(ir);
    } else {
      NumSumIs(itemCount, itemSlots, zones, n - 1);
      assert all[..n][..n - 1] == all[..n - 1];
      TimesSum(FixedSum(itemCount, all[..n - 1]), Fixed(itemCount, all[n - 1]), mr - ir);
      TimesSum(Sum(all[..n - 1]), all[n - 1], ir);
    }
  }

  lemma {:induction false} TotalShare(itemCount: nat, itemSlots: int, zones: seq<seq<nat>>, n: nat)
    requires n <= |zones|
    ensures NumSum(itemCount, itemSlots, zones, n) <=
            Times(TotalCapacity(itemCount, itemSlots, zones, n), MemberRemainder(itemCount, ZoneSlots(zones)))
  {
    hide Times, Num, ZoneCapacity, MemberRemainder;
    var mr := MemberRemainder(itemCount, ZoneSlots(zones));
    if n == 0 {
      TimesOne(mr);
    } else {
      TotalShare(itemCount, itemSlots, zones, n - 1);
      ZoneShare(itemCount, itemSlots, zones, n - 1);
      TimesSum(TotalCapacity(itemCount, itemSlots, zones, n - 1), ZoneCapacity(itemCount, itemSlots, zones, n - 1), mr);
    }
  }

  /** All scaled capacity together still holds every item slot, or every member slot there is. */
  lemma TotalKeepsSlots(itemCount: nat, itemSlots: int, zones: seq<seq<nat>>)
    ensures TotalCapacity(itemCount, itemSlots, zones, |zones|) >= Min(itemSlots, Sum(ZoneSlots(zones)))
  {
    hide Times, TotalCapacity, NumSum, Sum, FixedSum;
    var all := ZoneSlots(zones);
    var ir, mr := ItemRemainder(itemCount, itemSlots, all), MemberRemainder(itemCount, all);
    var f, m := FixedSum(itemCount, all), Sum(all);
    var total := TotalCapacity(itemCount, itemSlots, zones, |zones|);
    FixedBelowSum(itemCount, all);
    TotalShare(itemCount, itemSlots, zones, |zones|);
    NumSumIs(itemCount, itemSlots, zones, |zones|);
    assert all[..|zones|] == all;
    TimesSum(mr - ir, ir, f);
    TimesSum(f, m - f, ir);
    if m > f {
      TimesCommutes(ir, mr);
      TimesSum(f, ir, mr);
      TimesCommutes(total, mr);
      TimesCancels(mr, f + ir, total);
    } else {
      TimesOne(f);
      TimesOne(total);
      TimesOne(m);
    }
  }

  function MemberCount(zones: seq<seq<nat>>, n: nat): nat
    requires n <= |zones|
  {
    if n == 0 then 0 else MemberCount(zones, n - 1) + |zones[n - 1]|
  }

  lemma {:induction false} TotalShareIsTight(itemCount: nat, itemSlots: int, zones: seq<seq<nat>>, n: nat)
    requires n <= |zones|
    ensures var mr := MemberRemainder(itemCount, ZoneSlots(zones));
            Times(TotalCapacity(itemCount, itemSlots, zones, n), mr) <=
              NumSum(itemCount, itemSlots, zones, n) + Times(MemberCount(zones, n), mr)
  {
    hide Times, Num, ZoneCapacity, MemberRemainder;
    var mr := MemberRemainder(itemCount, ZoneSlots(zones));
    if n == 0 {
      TimesOne(mr);
    } else {
      TotalShareIsTight(itemCount, itemSlots, zones, n - 1);
      ZoneShareIsTight(itemCount, itemSlots, zones, n - 1);
      TimesSum(TotalCapacity(itemCount, itemSlots, zones, n - 1), ZoneCapacity(itemCount, itemSlots, zones, n - 1), mr);
      TimesSum(MemberCount(zones, n - 1), |zones[n - 1]|, mr);
      TimesOne(mr);
    }
  }

  /**
   * All scaled capacity together is that of every item slot, or of the slots which are never scaled away if those are
   * more; but for rounding, of at most one per member.
   */
  lemma TotalIsTight(itemCount: nat, itemSlots: int, zones: seq<seq<nat>>)
    ensures var all := ZoneSlots(zones);
            TotalCapacity(itemCount, itemSlots, zones, |zones|) <=
              Max(FixedSum(itemCount, all), Min(itemSlots, Sum(all))) + MemberCount(zones, |zones|)
  {
    hide Times, TotalCapacity, NumSum, Sum, FixedSum, MemberCount;
    var all := ZoneSlots(zones);
    var ir, mr := ItemRemainder(itemCount, itemSlots, all), MemberRemainder(itemCount, all);
    var f, m, n := FixedSum(itemCount, all), Sum(all), MemberCount(zones, |zones|);
    var total := TotalCapacity(itemCount, itemSlots, zones, |zones|);
    FixedBelowSum(itemCount, all);
    TotalShareIsTight(itemCount, itemSlots, zones, |zones|);
    NumSumIs(itemCount, itemSlots, zones, |zones|);
    assert all[..|zones|] == all;
    TimesSum(mr - ir, ir, f);
    TimesSum(f, m - f, ir);
    if m > f {
      TimesCommutes(ir, mr);
      TimesSum(f, ir, mr);
      TimesSum(f + ir, n, mr);
      TimesCommutes(f, mr);
      TimesCommutes(total, mr);
      TimesCommutes(f + ir + n, mr);
      TimesCancels(mr, total, f + ir + n);
    } else {
      TimesOne(f);
      TimesOne(total);
      TimesOne(n);
      TimesOne(m);
    }
  }
}

/**
 * The flow network of an allocation (v2/pkg/allocator/flow_network.go): Arcs from Source to each Item, to the Item's
 * Zone-Items, to Members, and to Sink. Zones, and suffixes of Members, are named by their rank in order, and a
 * Zone-Item by its Item and zone.
 */
module FlowNetwork {
  import LeftJoin

  datatype Node =
    | Source | ItemNode(item: nat) | ZoneItem(ofItem: nat, zone: nat) | MemberNode(member: nat) | Overflow | Sink

  datatype Arc = Arc(from: Node, to: Node, capacity: nat, priority: nat)

  datatype Member = Member(zone: int, suffix: int, limit: nat)

  /** The Member of a current Assignment of the Item at hand. It may be unknown, as may be its zone. */
  datatype Held = Held(zone: int, suffix: int)

  ghost predicate MembersAreSorted(members: seq<Member>) {
    forall i, j :: 0 <= i < j < |members| ==>
      members[i].zone < members[j].zone || (members[i].zone == members[j].zone && members[i].suffix < members[j].suffix)
  }

  ghost predicate HeldIsSorted(held: seq<Held>) {
    forall i, j :: 0 <= i < j < |held| ==>
      held[i].zone < held[j].zone || (held[i].zone == held[j].zone && held[i].suffix < held[j].suffix)
  }

  /** Zones are ordered, and are exactly those of Members. */
  ghost predicate AreZonesOf(zones: seq<int>, members: seq<Member>) {
    && (forall i, j :: 0 <= i < j < |zones| ==> zones[i] < zones[j])
    && (forall m :: 0 <= m < |members| ==> members[m].zone in zones)
    && (forall z :: 0 <= z < |zones| ==> HasMember(members, zones[z]))
  }

  ghost predicate HasMember(members: seq<Member>, zone: int) {
    exists m :: 0 <= m < |members| && members[m].zone == zone
  }

  /** An Arc which was saturated is preferred over one which had flow, and that one over others. */
  function Priority(capacity: nat, prevFlow: nat): nat {
    if prevFlow >= capacity then 2 else if prevFlow > 0 then 1 else 0
  }

  /** Which of two Arcs is preferred. */
  lemma PreferenceIs(capacity: nat, prevFlow: nat, capacity': nat, prevFlow': nat)
    ensures Priority(capacity, prevFlow) > Priority(capacity', prevFlow') <==>
            || (prevFlow >= capacity && prevFlow' < capacity')
            || (prevFlow > 0 && prevFlow' == 0 && capacity' > 0)
  {
  }

  function CountHeld(held: seq<Held>, zone: int): nat {
    if held == [] then 0 else CountHeld(held[..|held| - 1], zone) + if held[|held| - 1].zone == zone then 1 else 0
  }

  function SourceArc(item: nat, held: seq<Held>, slots: nat): Arc {
    Arc(Source, ItemNode(item), slots, Priority(slots, |held|))
  }

  function ZoneArc(item: nat, zones: seq<int>, z: nat, held: seq<Held>, zoneSlots: nat): Arc
    requires z < |zones|
  {
    Arc(ItemNode(item), ZoneItem(item, z), zoneSlots, Priority(zoneSlots, CountHeld(held, zones[z])))
  }

  function MemberArc(item: nat, z: nat, members: seq<Member>, m: nat, held: seq<Held>): Arc
    requires m < |members|
  {
    Arc(ZoneItem(item, z), MemberNode(m), 1, if Held(members[m].zone, members[m].suffix) in held then 2 else 0)
  }

  function MemberArcs(item: nat, z: nat, members: seq<Member>, lo: nat, hi: nat, held: seq<Held>): (arcs: seq<Arc>)
    requires lo <= hi <= |members|
    ensures |arcs| == hi - lo && forall i :: 0 <= i < hi - lo ==> arcs[i] == MemberArc(item, z, members, lo + i, held)
  {
    seq(hi - lo, i requires 0 <= i < hi - lo => MemberArc(item, z, members, lo + i, held))
  }

  /** The first Member which isn't of a lower zone. */
  function FirstFrom(members: seq<Member>, zone: int): (i: nat)
    ensures i <= |members| && (i > 0 ==> members[i - 1].zone < zone)
    ensures forall k :: i <= k < |members| ==> members[k].zone >= zone
  {
    if members == [] || members[|members| - 1].zone < zone then |members| else FirstFrom(members[..|members| - 1], zone)
  }

  /** The first Member of zone `z` or of a later one. */
  function Begin(zones: seq<int>, members: seq<Member>, z: nat): (i: nat)
    ensures i <= |members|
  {
    if z < |zones| then FirstFrom(members, zones[z]) else |members|
  }

  lemma MemberInRange(zones: seq<int>, members: seq<Member>, z: nat, m: nat)
    requires MembersAreSorted(members) && AreZonesOf(zones, members) && z < |zones| && m < |members|
    ensures members[m].zone == zones[z] <==> Begin(zones, members, z) <= m < Begin(zones, members, z + 1)
    ensures z == 0 ==> members[m].zone >= zones[z]
  {
    hide HasMember, FirstFrom;
    var b, e := Begin(zones, members, z), Begin(zones, members, z + 1);
    var k :| 0 <= k < |zones| && zones[k] == members[m].zone;
    if m < b {
      assert members[m].zone <= members[b - 1].zone;
    } else if m < e && e < |members| {
      assert members[m].zone <= members[e - 1].zone;
    }
  }

  /** Members of a zone are contiguous. */
  lemma ZoneRange(zones: seq<int>, members: seq<Member>, z: nat)
    requires MembersAreSorted(members) && AreZonesOf(zones, members) && z < |zones|
    ensures Begin(zones, members, z) < Begin(zones, members, z + 1)
    ensures forall m :: 0 <= m < |members| ==>
            (members[m].zone == zones[z] <==> Begin(zones, members, z) <= m < Begin(zones, members, z + 1))
    ensures z == 0 ==> Begin(zones, members, z) == 0
  {
    forall m | 0 <= m < |members|
      ensures members[m].zone == zones[z] <==> Begin(zones, members, z) <= m < Begin(zones, members, z + 1)
    {
      MemberInRange(zones, members, z, m);
    }
    assert HasMember(members, zones[z]);
    if z == 0 && Begin(zones, members, z) > 0 {
      MemberInRange(zones, members, z, Begin(zones, members, z) - 1);
    }
  }

  /** Arcs of an Item, through its first `n` zones. */
  function ItemArcs(item: nat, zones: seq<int>, members: seq<Member>, held: seq<Held>, slots: nat, zoneSlots: nat,
                    n: nat): seq<Arc>
    requires n <= |zones|
  {
    if n == 0 then [SourceArc(item, held, slots)] else
      var lo, hi := Begin(zones, members, n - 1), Begin(zones, members, n);
      ItemArcs(item, zones, members, held, slots, zoneSlots, n - 1)
      + [ZoneArc(item, zones, n - 1, held, zoneSlots)]
      + if lo <= hi then MemberArcs(item, n - 1, members, lo, hi, held) else []
  }

  // ---------------------------------------------------------------------------
  // Joins of zones and Members with what's held

  function CompareInt(a: int, b: int): int {
    if a < b then -1 else if a > b then 1 else 0
  }

  function CompareZones(zones: seq<int>, held: seq<Held>): LeftJoin.Compare {
    (l: nat, r: nat) => if l < |zones| && r < |held| then CompareInt(zones[l], held[r].zone) else 0
  }

  function CompareSuffixes(members: seq<Member>, off: nat, held: seq<Held>): LeftJoin.Compare {
    (l: nat, r: nat) =>
      if l + off < |members| && r < |held| then CompareInt(members[l + off].suffix, held[r].suffix) else 0
  }

  lemma ZonesAreOrdered(zones: seq<int>, members: seq<Member>, held: seq<Held>)
    requires AreZonesOf(zones, members) && HeldIsSorted(held)
    ensures LeftJoin.IsOrdered(CompareZones(zones, held), |zones|, |held|)
  {
  }

  /** Members beyond the zone aren't ordered on suffix. */
  lemma SuffixesAreOrdered(zones: seq<int>, members: seq<Member>, z: nat, off: nat, held: seq<Held>)
    requires MembersAreSorted(members) && AreZonesOf(zones, members) && z < |zones|
    requires HeldIsSorted(held) && forall r :: 0 <= r < |held| ==> held[r].zone == zones[z]
    requires off == Begin(zones, members, z)
    ensures LeftJoin.RightIsOrdered(CompareSuffixes(members, off, held), |members| - off, |held|)
    ensures var n := Begin(zones, members, z + 1) - off;
            0 <= n <= |members| - off && LeftJoin.IsOrdered(CompareSuffixes(members, off, held), n, |held|)
  {
    ZoneRange(zones, members, z);
    hide Begin, CompareSuffixes, AreZonesOf, MembersAreSorted, HeldIsSorted;
    var compare, n := CompareSuffixes(members, off, held), Begin(zones, members, z + 1) - off;
    forall l, r | 0 <= l < |members| - off && 0 <= r < |held|
      ensures -1 <= compare(l, r) <= 1
    {
      SuffixesCompare(members, off, held, l, r);
    }
    forall l, r, s | 0 <= l < |members| - off && 0 <= r <= s < |held|
      ensures compare(l, r) >= compare(l, s)
    {
      SuffixesDescend(members, off, held, l, r, s);
    }
    forall l, k, r | 0 <= l <= k < n && 0 <= r < |held|
      ensures compare(l, r) <= compare(k, r)
    {
      SuffixesAscend(members, off, held, l, k, r);
    }
  }

  lemma SuffixesDescend(members: seq<Member>, off: nat, held: seq<Held>, l: nat, r: nat, s: nat)
    requires l + off < |members| && r <= s < |held| && HeldIsSorted(held) && held[r].zone == held[s].zone
    ensures CompareSuffixes(members, off, held)(l, r) >= CompareSuffixes(members, off, held)(l, s)
  {
    SuffixesCompare(members, off, held, l, r);
    SuffixesCompare(members, off, held, l, s);
    hide CompareSuffixes;
  }

  lemma SuffixesAscend(members: seq<Member>, off: nat, held: seq<Held>, l: nat, k: nat, r: nat)
    requires l <= k && k + off < |members| && r < |held| && MembersAreSorted(members)
    requires members[l + off].zone == members[k + off].zone
    ensures CompareSuffixes(members, off, held)(l, r) <= CompareSuffixes(members, off, held)(k, r)
  {
    SuffixesCompare(members, off, held, l, r);
    SuffixesCompare(members, off, held, k, r);
    hide CompareSuffixes;
  }

  lemma SuffixesCompare(members: seq<Member>, off: nat, held: seq<Held>, l: nat, r: nat)
    requires l + off < |members| && r < |held|
    ensures CompareSuffixes(members, off, held)(l, r) == CompareInt(members[l + off].suffix, held[r].suffix)
  {
  }

  lemma {:induction false} CountOfRange(held: seq<Held>, zone: int, b: nat, e: nat)
    requires b <= e <= |held| && forall r :: 0 <= r < |held| ==> (held[r].zone == zone <==> b <= r < e)
    ensures CountHeld(held, zone) == e - b
  {
    if held != [] {
      var init := held[..|held| - 1];
      if e == |held| && b < e {
        CountOfRange(init, zone, b, e - 1);
      } else {
        CountOfRange(init, zone, if b == |held| then |init| else b, if e == |held| then |init| else e);
      }
    }
  }

  /** The range of a zone in the join holds its entries. */
  lemma ZoneIsHeld(zones: seq<int>, held: seq<Held>, z: nat, b: nat, e: nat)
    requires z < |zones| && LeftJoin.IsEqualRange(CompareZones(zones, held), |held|, z, b, e)
    ensures b <= e <= |held| && CountHeld(held, zones[z]) == e - b
    ensures forall h :: h in held[b..e] <==> h in held && h.zone == zones[z]
    ensures forall r :: 0 <= r < |held[b..e]| ==> held[b..e][r].zone == zones[z]
  {
    hide CountHeld;
    var compare := CompareZones(zones, held);
    forall r | 0 <= r < |held|
      ensures held[r].zone == zones[z] <==> b <= r < e
    {
      assert compare(z, r) == CompareInt(zones[z], held[r].zone);
    }
    CountOfRange(held, zones[z], b, e);
    RangeHolds(held, zones[z], b, e);
  }

  lemma RangeHolds(held: seq<Held>, zone: int, b: nat, e: nat)
    requires b <= e <= |held| && forall r :: 0 <= r < |held| ==> (held[r].zone == zone <==> b <= r < e)
    ensures forall h :: h in held[b..e] <==> h in held && h.zone == zone
  {
    var s := held[b..e];
    forall h | h in held && h.zone == zone
      ensures h in s
    {
      var r :| 0 <= r < |held| && held[r] == h;
      assert s[r - b] == h;
    }
  }

  /** A Member's range in the join is its one entry, if there is one. */
  lemma MemberIsHeld(members: seq<Member>, off: nat, held: seq<Held>, zone: int, l: nat, b: nat, e: nat)
    requires l + off < |members| && members[l + off].zone == zone
    requires HeldIsSorted(held) && forall r :: 0 <= r < |held| ==> held[r].zone == zone
    requires LeftJoin.IsEqualRange(CompareSuffixes(members, off, held), |held|, l, b, e)
    ensures b <= e <= b + 1
    ensures b < e <==> Held(zone, members[l + off].suffix) in held
  {
    var compare, h := CompareSuffixes(members, off, held), Held(zone, members[l + off].suffix);
    forall r | 0 <= r < |held|
      ensures held[r] == h <==> b <= r < e
    {
      assert compare(l, r) == CompareInt(members[l + off].suffix, held[r].suffix);
    }
    if b < e {
      var last := e - 1;
      assert held[b] == h && held[last] == h;
    }
  }

  // ---------------------------------------------------------------------------
  // Building Arcs of an Item

  /** The rest of the zone's walk: either the first Member of the next zone was seen, or there are no more. */
  method BuildZoneArcs(item: nat, zones: seq<int>, members: seq<Member>, z: nat, held: seq<Held>, moff: nat,
                       ghost all: seq<Held>)
    returns (arcs: seq<Arc>, moff': nat)
    requires MembersAreSorted(members) && AreZonesOf(zones, members) && z < |zones|
    requires HeldIsSorted(held) && (forall r :: 0 <= r < |held| ==> held[r].zone == zones[z])
    requires forall h :: h in held <==> h in all && h.zone == zones[z]
    requires moff == Begin(zones, members, z)
    ensures var hi := Begin(zones, members, z + 1); moff <= hi && arcs == MemberArcs(item, z, members, moff, hi, all)
    ensures z + 1 < |zones| ==> moff' == Begin(zones, members, z + 1)
  {
    hide Begin, LeftJoin.IsOrdered, LeftJoin.RightIsOrdered, CompareSuffixes, LeftJoin.IsEqualRange;
    ZoneRange(zones, members, z);
    SuffixesAreOrdered(zones, members, z, moff, held);
    ghost var hi := Begin(zones, members, z + 1);
    LastZoneEnds(zones, members, z);
    arcs, moff' := [], moff;
    var compare := CompareSuffixes(members, moff, held);
    var mit := new LeftJoin.Join(|members| - moff, |held|, compare, hi - moff);
    while mit.left < mit.lenL
      invariant mit.Valid() && fresh(mit) && mit.lenL == |members| - moff && mit.lenR == |held|
                && mit.prefix == hi - moff && mit.compare == compare
      invariant moff + mit.left <= hi && moff' == moff
      invariant arcs == MemberArcs(item, z, members, moff, moff + mit.left, all)
      decreases mit.lenL - mit.left
    {
      var mcur, ok := mit.Next();
      var member := mcur.left + moff;
      if zones[z] < members[member].zone {
        moff' := member;
        break;
      }
      assert members[member].zone == zones[z] by {
        assert members[moff].zone == zones[z];
      }
      MemberIsHeld(members, moff, held, zones[z], mcur.left, mcur.rightBegin, mcur.rightEnd);
      arcs := arcs + [Arc(ZoneItem(item, z), MemberNode(member), 1, Priority(1, mcur.rightEnd - mcur.rightBegin))];
    }
  }

  lemma LastZoneEnds(zones: seq<int>, members: seq<Member>, z: nat)
    requires MembersAreSorted(members) && AreZonesOf(zones, members) && z < |zones|
    ensures z + 1 == |zones| ==> Begin(zones, members, z + 1) == |members|
    ensures z + 1 < |zones| ==> Begin(zones, members, z + 1) < |members|
  {
    hide MembersAreSorted;
    if z + 1 < |zones| {
      assert HasMember(members, zones[z + 1]);
      ZoneRange(zones, members, z + 1);
    }
  }

  function ZoneSlotsOf(slots: nat, effectiveZones: nat): nat {
    if slots > 1 && effectiveZones > 1 then slots - 1 else slots
  }

  /** Arcs of an Item join each zone with exactly its Members, and prefer Members which hold the Item. */
  method BuildItemArcs(item: nat, zones: seq<int>, members: seq<Member>, held: seq<Held>, slots: nat,
                       effectiveZones: nat)
    returns (arcs: seq<Arc>)
    requires MembersAreSorted(members) && AreZonesOf(zones, members) && HeldIsSorted(held)
    ensures arcs == ItemArcs(item, zones, members, held, slots, ZoneSlotsOf(slots, effectiveZones), |zones|)
  {
    hide Begin, LeftJoin.IsOrdered, LeftJoin.RightIsOrdered, CompareZones, LeftJoin.IsEqualRange, MemberArcs, CountHeld;
    hide MembersAreSorted, AreZonesOf, HeldIsSorted;
    var zoneSlots := slots;
    if zoneSlots > 1 && effectiveZones > 1 {
      zoneSlots := zoneSlots - 1;
    }
    arcs := [Arc(Source, ItemNode(item), slots, Priority(slots, |held|))];
    var moff := 0;
    FirstZoneBegins(zones, members);
    ZonesAreOrdered(zones, members, held);
    LeftJoin.BothAreOrdered(CompareZones(zones, held), |zones|, |held|);
    var compare := CompareZones(zones, held);
    var zit := new LeftJoin.Join(|zones|, |held|, compare, |zones|);
    while zit.left < |zones|
      invariant zit.Valid() && fresh(zit) && zit.lenL == zit.prefix == |zones| && zit.lenR == |held|
                && zit.compare == compare
      invariant zit.left < |zones| ==> moff == Begin(zones, members, zit.left)
      invariant arcs == ItemArcs(item, zones, members, held, slots, zoneSlots, zit.left)
      decreases |zones| - zit.left
    {
      var zcur, ok := zit.Next();
      var z := zcur.left;
      ZoneIsHeld(zones, held, z, zcur.rightBegin, zcur.rightEnd);
      var zoneHeld := held[zcur.rightBegin..zcur.rightEnd];
      SliceIsSorted(held, zcur.rightBegin, zcur.rightEnd);
      arcs := arcs + [Arc(ItemNode(item), ZoneItem(item, z), zoneSlots, Priority(zoneSlots, |zoneHeld|))];
      var more;
      ghost var lo := moff;
      more, moff := BuildZoneArcs(item, zones, members, z, zoneHeld, moff, held);
      arcs := arcs + more;
    }
  }

  lemma FirstZoneBegins(zones: seq<int>, members: seq<Member>)
    requires MembersAreSorted(members) && AreZonesOf(zones, members)
    ensures zones != [] ==> Begin(zones, members, 0) == 0
  {
    if zones != [] {
      ZoneRange(zones, members, 0);
    }
  }

  lemma SliceIsSorted(held: seq<Held>, b: nat, e: nat)
    requires HeldIsSorted(held) && b <= e <= |held|
    ensures HeldIsSorted(held[b..e])
  {
  }
}

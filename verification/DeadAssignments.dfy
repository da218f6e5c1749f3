/**
 * Removal of Assignments which have no Item (v2/pkg/allocator/allocator.go). An Assignment is named by its index in the
 * key space.
 */
module DeadAssignments {
  datatype Cmp = NoItem(item: int) | AsnUnchanged(index: nat)

  datatype Check = Check(cmps: seq<Cmp>, deletes: seq<nat>)

  function Indices(b: nat, e: nat): (s: seq<nat>)
    requires b <= e
    ensures |s| == e - b && forall i :: 0 <= i < e - b ==> s[i] == b + i
  {
    seq(e - b, i requires 0 <= i < e - b => b + i)
  }

  lemma IndicesJoin(b: nat, g: nat, e: nat)
    requires b <= g <= e
    ensures Indices(b, g) + Indices(g, e) == Indices(b, e)
  {
  }

  /** The end of leading Assignments, from `b` on, which are of one Item. */
  function GroupEnd(ids: seq<int>, b: nat, e: nat): (g: nat)
    requires b < e <= |ids|
    ensures b < g <= e && (forall r :: b <= r < g ==> ids[r] == ids[b]) && (g < e ==> ids[g] != ids[b])
    decreases e - b
  {
    if b + 1 < e && ids[b + 1] == ids[b] then GroupEnd(ids, b + 1, e) else b + 1
  }

  function Guards(b: nat, e: nat): (s: seq<Cmp>)
    requires b <= e
    ensures |s| == e - b && forall i :: 0 <= i < e - b ==> s[i] == AsnUnchanged(b + i)
  {
    seq(e - b, i requires 0 <= i < e - b => AsnUnchanged(b + i))
  }

  /** The checkpoints which remove the Assignments [b, e): one for each Item. */
  function Removals(ids: seq<int>, b: nat, e: nat): seq<Check>
    requires b <= e <= |ids|
    decreases e - b
  {
    if b == e then [] else
      var g := GroupEnd(ids, b, e);
      [Check([NoItem(ids[b])] + Guards(b, g), Indices(b, g))] + Removals(ids, g, e)
  }

  /** The checkpoint which removes the Assignments [b, e) of one Item. */
  method RemoveGroup(item: int, b: nat, e: nat) returns (check: Check)
    requires b <= e
    ensures check == Check([NoItem(item)] + Guards(b, e), Indices(b, e))
  {
    var cmps, deletes := [NoItem(item)], [];
    for i := b to e
      invariant cmps == [NoItem(item)] + Guards(b, i) && deletes == Indices(b, i)
    {
      cmps, deletes := cmps + [AsnUnchanged(i)], deletes + [i];
    }
    check := Check(cmps, deletes);
  }

  method RemoveDead(ids: seq<int>, begin: nat, end: nat) returns (checks: seq<Check>)
    requires begin <= end <= |ids|
    ensures checks == Removals(ids, begin, end)
  {
    hide Guards, Indices, GroupEnd;
    checks := [];
    var b := begin;
    while b != end
      invariant begin <= b <= end
      invariant checks + Removals(ids, b, end) == Removals(ids, begin, end)
      decreases end - b
    {
      var limit := b + 1;
      while limit != end && ids[limit] == ids[b]
        invariant b < limit <= end && forall r :: b <= r < limit ==> ids[r] == ids[b]
      {
        limit := limit + 1;
      }
      GroupEndIs(ids, b, end, limit);
      var check := RemoveGroup(ids[b], b, limit);
      assert checks + ([check] + Removals(ids, limit, end)) == checks + [check] + Removals(ids, limit, end);
      checks := checks + [check];
      b := limit;
    }
  }

  lemma {:induction false} GroupEndIs(ids: seq<int>, b: nat, e: nat, g: nat)
    requires b < g <= e <= |ids| && (forall r :: b <= r < g ==> ids[r] == ids[b]) && (g < e ==> ids[g] != ids[b])
    ensures GroupEnd(ids, b, e) == g
    decreases e - b
  {
    if b + 1 < g {
      GroupEndIs(ids, b + 1, e, g);
    }
  }

  function DeletesOf(checks: seq<Check>): seq<nat> {
    if checks == [] then [] else checks[0].deletes + DeletesOf(checks[1..])
  }

  /** Each of the Assignments is removed once, in order. */
  lemma {:induction false} RemovalsDeleteAll(ids: seq<int>, b: nat, e: nat)
    requires b <= e <= |ids|
    ensures DeletesOf(Removals(ids, b, e)) == Indices(b, e)
    decreases e - b
  {
    if b < e {
      var g := GroupEnd(ids, b, e);
      RemovalsDeleteAll(ids, g, e);
      assert Removals(ids, b, e)[1..] == Removals(ids, g, e);
      IndicesJoin(b, g, e);
      hide Indices, GroupEnd, Guards;
    }
  }

  /** Deletes of a checkpoint are of one Item, guarded by there being none, and by no change of the Assignments. */
  ghost predicate IsGuarded(ids: seq<int>, c: Check) {
    var d := c.deletes;
    && d != [] && (forall i :: 0 <= i < |d| ==> d[i] < |ids|)
    && NoItem(ids[d[0]]) in c.cmps
    && (forall i :: 0 <= i < |d| ==> ids[d[i]] == ids[d[0]] && AsnUnchanged(d[i]) in c.cmps)
  }

  /** Each checkpoint is guarded, and has all Assignments of its Item which follow one another. */
  lemma {:induction false} RemovalsAreGuarded(ids: seq<int>, b: nat, e: nat, i: nat)
    requires b <= e <= |ids| && i < |Removals(ids, b, e)|
    ensures var cs := Removals(ids, b, e);
            && IsGuarded(ids, cs[i]) && cs[0].deletes != [] && cs[0].deletes[0] == b
            && (i + 1 < |cs| ==> IsGuarded(ids, cs[i + 1]) && ids[cs[i].deletes[0]] != ids[cs[i + 1].deletes[0]])
    decreases e - b
  {
    var cs, g := Removals(ids, b, e), GroupEnd(ids, b, e);
    assert cs[1..] == Removals(ids, g, e);
    assert IsGuarded(ids, cs[0]) by {
      assert cs[0].cmps[0] == NoItem(ids[b]);
      forall j | 0 <= j < |cs[0].deletes| ensures AsnUnchanged(cs[0].deletes[j]) in cs[0].cmps {
        assert cs[0].cmps[1 + j] == AsnUnchanged(b + j);
      }
    }
    if i > 0 {
      RemovalsAreGuarded(ids, g, e, i - 1);
    } else if g < e {
      RemovalsAreGuarded(ids, g, e, 0);
    }
  }
}

/**
 * The left join of two ordered collections (v2/pkg/allocator/allocator_key_space.go): each left index is
 * returned once, with the range of right indices which compare as equal.
 */
module LeftJoin {

  /** compare(l, r): -1 if `l` orders before `r`, 0 if they are equal, and 1 if `l` is greater. */
  type Compare = (nat, nat) -> int

  /** Right-hand entries are ordered, relative to any left-hand one. */
  ghost predicate RightIsOrdered(compare: Compare, lenL: nat, lenR: nat) {
    && (forall l, r :: 0 <= l < lenL && 0 <= r < lenR ==> -1 <= compare(l, r) <= 1)
    && (forall l, r, s :: 0 <= l < lenL && 0 <= r <= s < lenR ==> compare(l, r) >= compare(l, s))
  }

  ghost predicate IsOrdered(compare: Compare, lenL: nat, lenR: nat) {
    && RightIsOrdered(compare, lenL, lenR)
    && (forall l, k, r :: 0 <= l <= k < lenL && 0 <= r < lenR ==> compare(l, r) <= compare(k, r))
  }

  lemma BothAreOrdered(compare: Compare, lenL: nat, lenR: nat)
    requires IsOrdered(compare, lenL, lenR)
    ensures RightIsOrdered(compare, lenL, lenR)
  {
  }

  datatype Cursor = Cursor(left: nat, rightBegin: nat, rightEnd: nat)

  /** [begin, end) are exactly the right indices equal to `l`; those before it are less, those after it greater. */
  ghost predicate IsEqualRange(compare: Compare, lenR: nat, l: nat, begin: nat, end: nat) {
    && begin <= end <= lenR
    && (forall r :: 0 <= r < begin ==> compare(l, r) == 1)
    && (forall r :: begin <= r < end ==> compare(l, r) == 0)
    && (forall r :: end <= r < lenR ==> compare(l, r) == -1)
  }

  class Join {
    const lenL: nat
    const lenR: nat
    const compare: Compare
    ghost const prefix: nat // Left-hand entries below `prefix` are ordered. Rows of others are not relied upon.
    var left: nat
    var rightBegin: nat
    var rightEnd: nat

    /** Between rows, the right-hand range is empty, and all before it is behind the next left-hand entry. */
    ghost predicate Valid()
      reads this
    {
      && prefix <= lenL && IsOrdered(compare, prefix, lenR) && RightIsOrdered(compare, lenL, lenR)
      && left <= lenL
      && rightBegin == rightEnd <= lenR
      && (left < prefix ==> forall r :: 0 <= r < rightBegin ==> compare(left, r) == 1)
    }

    constructor (lenL: nat, lenR: nat, compare: Compare, ghost prefix: nat)
      requires prefix <= lenL && IsOrdered(compare, prefix, lenR) && RightIsOrdered(compare, lenL, lenR)
      ensures Valid() && left == 0
      ensures this.lenL == lenL && this.lenR == lenR && this.compare == compare && this.prefix == prefix
    {
      this.lenL, this.lenR, this.compare, this.prefix := lenL, lenR, compare, prefix;
      left, rightBegin, rightEnd := 0, 0, 0;
    }

    /** The next row of the join. On ordered inputs, the panic of the original is never reached. */
    method Next() returns (cur: Cursor, ok: bool)
      requires Valid()
      modifies this
      ensures Valid()
      ensures ok <==> old(left) < lenL
      ensures ok ==> cur.left == old(left) && left == old(left) + 1
      ensures ok ==> cur.rightBegin <= cur.rightEnd <= lenR
      ensures ok && cur.left < prefix ==> IsEqualRange(compare, lenR, cur.left, cur.rightBegin, cur.rightEnd)
      ensures !ok ==> cur == Cursor(0, 0, 0)
    {
      while left < lenL
        invariant prefix <= lenL && IsOrdered(compare, prefix, lenR) && RightIsOrdered(compare, lenL, lenR)
        invariant left == old(left) <= lenL
        invariant rightBegin <= rightEnd <= lenR
        invariant left < prefix ==> forall r :: 0 <= r < rightBegin ==> compare(left, r) == 1
        invariant left < lenL ==> forall r :: rightBegin <= r < rightEnd ==> compare(left, r) == 0
        invariant left == lenL ==> rightBegin == rightEnd
        decreases lenL - left, lenR - rightEnd
      {
        var c := if rightEnd == lenR then -1 else compare(left, rightEnd);
        if c == -1 {
          cur := Cursor(left, rightBegin, rightEnd);
          forall r | rightEnd <= r < lenR ensures compare(left, r) == -1 {
            assert compare(left, rightEnd) >= compare(left, r);
          }
          ghost var next := left + 1;
          forall r | 0 <= r < rightBegin && next < prefix ensures compare(next, r) == 1 {
            assert compare(left, r) <= compare(next, r);
          }
          left, rightEnd := left + 1, rightBegin;
          return cur, true;
        } else if c == 0 {
          rightEnd := rightEnd + 1;
        } else {
          NothingIsSkipped(compare, lenL, lenR, left, rightBegin, rightEnd);
          assert rightBegin == rightEnd;
          rightEnd, rightBegin := rightEnd + 1, rightEnd + 1;
        }
      }
      return Cursor(0, 0, 0), false;
    }
  }

  /** Once right-hand entries were accumulated, the next one is not less than the left-hand entry. */
  lemma NothingIsSkipped(compare: Compare, lenL: nat, lenR: nat, l: nat, begin: nat, end: nat)
    requires RightIsOrdered(compare, lenL, lenR) && l < lenL && begin <= end < lenR
    requires forall r :: begin <= r < end ==> compare(l, r) == 0
    ensures begin < end ==> compare(l, end) <= 0
  {
    if begin < end {
      assert compare(l, end - 1) >= compare(l, end);
    }
  }

  /** Left-hand entries are distinct: no right-hand entry equals two of them. */
  ghost predicate LeftIsUnique(compare: Compare, lenL: nat, lenR: nat) {
    forall l, k, r :: 0 <= l < k < lenL && 0 <= r < lenR && compare(l, r) == 0 ==> compare(k, r) == 1
  }

  /** The ranges of successive left-hand entries follow one another. */
  lemma RangesAreOrdered(compare: Compare, lenL: nat, lenR: nat, l: nat, k: nat, b: nat, e: nat, b': nat, e': nat)
    requires IsOrdered(compare, lenL, lenR) && LeftIsUnique(compare, lenL, lenR) && l < k < lenL
    requires IsEqualRange(compare, lenR, l, b, e) && IsEqualRange(compare, lenR, k, b', e')
    ensures e <= b'
  {
    forall r | 0 <= r < e ensures compare(k, r) == 1 {
      assert compare(l, r) <= compare(k, r);
    }
    assert b' < lenR ==> compare(k, b') != 1;
  }

  ghost predicate IsRow(compare: Compare, lenR: nat, row: Cursor, l: nat) {
    row.left == l && IsEqualRange(compare, lenR, l, row.rightBegin, row.rightEnd)
  }

  /** The `g`-th gap is what lies between the range before it and the range after it. */
  ghost predicate IsGap(lenR: nat, rows: seq<Cursor>, gap: (nat, nat), g: nat)
    requires g <= |rows|
  {
    && gap.0 == (if g == 0 then 0 else rows[g - 1].rightEnd)
    && gap.1 == (if g == |rows| then lenR else rows[g].rightBegin)
    && gap.0 <= gap.1
  }

  /** A right-hand entry which equals no left-hand one. */
  ghost predicate IsDead(compare: Compare, lenL: nat, r: nat) {
    forall l :: 0 <= l < lenL ==> compare(l, r) != 0
  }

  ghost predicate IsInGap(gaps: seq<(nat, nat)>, r: nat) {
    exists g :: 0 <= g < |gaps| && gaps[g].0 <= r < gaps[g].1
  }

  /**
   * The walk of converge over left-hand entries: the gaps before, between and after their ranges are dead. Every
   * right index is in exactly one range, or in exactly one gap, and then it equals no left-hand entry.
   */
  method Partition(lenL: nat, lenR: nat, compare: Compare) returns (rows: seq<Cursor>, gaps: seq<(nat, nat)>)
    requires IsOrdered(compare, lenL, lenR) && LeftIsUnique(compare, lenL, lenR)
    ensures |rows| == lenL && |gaps| == lenL + 1
    ensures forall l :: 0 <= l < lenL ==> IsRow(compare, lenR, rows[l], l)
    ensures forall g :: 0 <= g <= lenL ==> IsGap(lenR, rows, gaps[g], g)
    ensures forall r: nat :: r < lenR ==> (IsDead(compare, lenL, r) <==> IsInGap(gaps, r))
  {
    var it := new Join(lenL, lenR, compare, lenL);
    var lastEnd := 0;
    rows, gaps := [], [];
    while it.left < lenL
      invariant it.Valid() && it.lenL == lenL && it.lenR == lenR && it.compare == compare && it.prefix == lenL
                && fresh(it)
      invariant |rows| == |gaps| == it.left
      invariant lastEnd == if rows == [] then 0 else rows[|rows| - 1].rightEnd
      invariant lastEnd <= lenR
      invariant forall l :: 0 <= l < |rows| ==> IsRow(compare, lenR, rows[l], l)
      invariant forall g :: 0 <= g < |rows| ==> IsGap(lenR, rows, gaps[g], g)
      decreases lenL - it.left
    {
      var cur, ok := it.Next();
      if rows != [] {
        var last := rows[|rows| - 1];
        assert IsRow(compare, lenR, last, |rows| - 1);
        RangesAreOrdered(compare, lenL, lenR, last.left, cur.left, last.rightBegin, last.rightEnd, cur.rightBegin,
          cur.rightEnd);
      }
      gaps := gaps + [(lastEnd, cur.rightBegin)];
      rows := rows + [cur];
      lastEnd := cur.rightEnd;
    }
    gaps := gaps + [(lastEnd, lenR)];
    forall r: nat | r < lenR ensures IsDead(compare, lenL, r) <==> IsInGap(gaps, r) {
      DeadIffInGap(compare, lenL, lenR, rows, gaps, r);
    }
  }

  lemma DeadIffInGap(compare: Compare, lenL: nat, lenR: nat, rows: seq<Cursor>, gaps: seq<(nat, nat)>, r: nat)
    requires IsOrdered(compare, lenL, lenR) && |rows| == lenL && |gaps| == lenL + 1 && r < lenR
    requires forall l :: 0 <= l < lenL ==> IsRow(compare, lenR, rows[l], l)
    requires forall g :: 0 <= g <= lenL ==> IsGap(lenR, rows, gaps[g], g)
    ensures IsDead(compare, lenL, r) <==> IsInGap(gaps, r)
  {
    hide IsRow, IsOrdered;
    if g :| 0 <= g < |gaps| && gaps[g].0 <= r < gaps[g].1 {
      assert IsGap(lenR, rows, gaps[g], g);
      forall l | 0 <= l < lenL ensures compare(l, r) != 0 {
        GapIsDead(compare, lenL, lenR, rows, g, r, l);
      }
    }
    if IsDead(compare, lenL, r) {
      var g := GapOfDead(compare, lenL, lenR, rows, r, lenL);
      assert IsGap(lenR, rows, gaps[g], g);
    }
  }

  /** The gap of a right index which is in none of the ranges, and before the range of `n`. */
  lemma {:induction false} GapOfDead(compare: Compare, lenL: nat, lenR: nat, rows: seq<Cursor>, r: nat, n: nat)
    returns (g: nat)
    requires |rows| == lenL && r < lenR && n <= lenL && IsDead(compare, lenL, r)
    requires forall l :: 0 <= l < lenL ==> IsRow(compare, lenR, rows[l], l)
    requires n < lenL ==> r < rows[n].rightBegin
    ensures g <= lenL && (g > 0 ==> rows[g - 1].rightEnd <= r) && (g < lenL ==> r < rows[g].rightBegin)
  {
    if n > 0 && r < rows[n - 1].rightBegin {
      g := GapOfDead(compare, lenL, lenR, rows, r, n - 1);
    } else {
      g := n;
      if n > 0 {
        assert IsRow(compare, lenR, rows[n - 1], n - 1);
        assert compare(n - 1, r) != 0;
      }
    }
  }

  lemma GapIsDead(compare: Compare, lenL: nat, lenR: nat, rows: seq<Cursor>, g: nat, r: nat, l: nat)
    requires IsOrdered(compare, lenL, lenR) && |rows| == lenL && g <= lenL && l < lenL && r < lenR
    requires forall k :: 0 <= k < lenL ==> IsRow(compare, lenR, rows[k], k)
    requires g > 0 ==> rows[g - 1].rightEnd <= r
    requires g < lenL ==> r < rows[g].rightBegin
    ensures compare(l, r) != 0
  {
    if l < g {
      assert IsRow(compare, lenR, rows[g - 1], g - 1);
      assert compare(g - 1, r) == -1;
      assert compare(l, r) <= compare(g - 1, r);
    } else {
      assert IsRow(compare, lenR, rows[g], g);
      assert compare(g, r) == 1;
      assert compare(g, r) <= compare(l, r);
    }
  }
}

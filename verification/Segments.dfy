/**
 * Segments of a recovery log, and the ordered, reduced sets of them
 * (pkg/recoverylog/segment.go).
 */
module Segments {
  import opened Common

  datatype Segment = Segment(
    author: nat,
    firstSeqNo: int,
    firstOffset: int,
    firstChecksum: Checksum,
    lastSeqNo: int,
    lastOffset: int)

  /** Segment.Validate. */
  predicate Validate(s: Segment) {
    && s.author != 0
    && s.firstSeqNo > 0
    && s.firstOffset >= 0
    && s.firstSeqNo <= s.lastSeqNo
    && (s.lastOffset != 0 ==> s.firstOffset < s.lastOffset)
  }

  datatype Reduction = Reduced(segment: Segment) | NotReducible | Inconsistent

  predicate NonZeroAndLess(a: int, b: int) {
    a != 0 && a < b
  }

  /** reduceSegment orders its operands before it looks at them. */
  predicate Swaps(a: Segment, b: Segment) {
    || a.firstSeqNo > b.firstSeqNo
    || (a.firstSeqNo == b.firstSeqNo && a.lastSeqNo < b.lastSeqNo)
  }

  function ReduceSegment(a: Segment, b: Segment): Reduction {
    if Swaps(a, b) then ReduceOrdered(b, a) else ReduceOrdered(a, b)
  }

  function ReduceOrdered(a: Segment, b: Segment): Reduction {
    if a.firstSeqNo < b.firstSeqNo && a.firstOffset > b.firstOffset then Inconsistent
    else if a.firstSeqNo < b.firstSeqNo && a.lastOffset == 0 && b.lastOffset != 0 then Inconsistent
    else if a.lastSeqNo <= b.lastSeqNo && NonZeroAndLess(b.lastOffset, a.lastOffset) then Inconsistent
    else if a.lastSeqNo >= b.lastSeqNo && NonZeroAndLess(a.lastOffset, b.lastOffset) then Inconsistent
    else if a.firstSeqNo == b.firstSeqNo && a.firstChecksum != b.firstChecksum then Inconsistent
    else if a.lastSeqNo + 1 < b.firstSeqNo then NotReducible
    else if a.lastSeqNo + 1 == b.firstSeqNo && a.author != b.author then NotReducible
    else if a.author != b.author then Inconsistent
    else Reduced(MergeOrdered(a, b))
  }

  function MergeOrdered(a: Segment, b: Segment): Segment {
    var tightened := if a.firstSeqNo == b.firstSeqNo && a.firstOffset < b.firstOffset
                     then a.(firstOffset := b.firstOffset) else a;
    var closed := if a.lastSeqNo == b.lastSeqNo && a.lastOffset == 0
                  then tightened.(lastOffset := b.lastOffset) else tightened;
    if a.lastSeqNo < b.lastSeqNo
    then closed.(lastSeqNo := b.lastSeqNo, lastOffset := b.lastOffset)
    else closed
  }

  predicate Spans(s: Segment, seqNo: int) {
    s.firstSeqNo <= seqNo <= s.lastSeqNo
  }

  /** The segment claims that `author` wrote the operation numbered `seqNo`. */
  predicate Claims(s: Segment, seqNo: int, author: nat) {
    Spans(s, seqNo) && s.author == author
  }

  ghost predicate Covers(segs: seq<Segment>, seqNo: int, author: nat) {
    exists i :: 0 <= i < |segs| && Claims(segs[i], seqNo, author)
  }

  /** What one entry of a SegmentSet promises on its own. */
  predicate WellFormed(s: Segment) {
    s.author != 0 && 0 < s.firstSeqNo <= s.lastSeqNo && s.firstOffset >= 0
  }

  /** What an entry promises about any later entry of the same SegmentSet. */
  predicate Precedes(a: Segment, b: Segment) {
    && a.lastSeqNo < b.firstSeqNo
    && (a.lastSeqNo + 1 == b.firstSeqNo ==> a.author != b.author)
    && a.firstOffset <= b.firstOffset
    && (a.lastOffset == 0 ==> b.lastOffset == 0)
    && (b.lastOffset != 0 ==> a.lastOffset <= b.lastOffset)
  }

  /**
   * The invariants of a SegmentSet: non-overlapping and increasing SeqNos, monotone
   * FirstOffset, monotone LastOffset where only a suffix may be zero. Entries are also
   * maximal: neighbours which touch have different authors.
   */
  ghost predicate IsSegmentSet(segs: seq<Segment>) {
    && (forall i :: 0 <= i < |segs| ==> WellFormed(segs[i]))
    && (forall i, j :: 0 <= i < j < |segs| ==> Precedes(segs[i], segs[j]))
  }

  lemma PrecedesTransitive(a: Segment, b: Segment, c: Segment)
    requires Precedes(a, b) && Precedes(b, c) && WellFormed(b)
    ensures Precedes(a, c)
  {
  }

  /** sort.Search for the first entry with FirstSeqNo at or above `seqNo`. */
  function LowerBound(segs: seq<Segment>, seqNo: int): (n: nat)
    ensures n <= |segs|
    ensures forall i :: 0 <= i < n ==> segs[i].firstSeqNo < seqNo
    ensures n < |segs| ==> segs[n].firstSeqNo >= seqNo
  {
    if segs == [] || segs[0].firstSeqNo >= seqNo then 0 else 1 + LowerBound(segs[1..], seqNo)
  }

  /** The reducing loop of Add: where it stops, and what it has accumulated. */
  function Absorb(segs: seq<Segment>, end: nat, cur: Segment): Option<(nat, Segment)>
    requires end <= |segs|
    decreases |segs| - end
  {
    if end == |segs| then Some((end, cur))
    else match ReduceSegment(segs[end], cur)
      case Reduced(s) => Absorb(segs, end + 1, s)
      case NotReducible => Some((end, cur))
      case Inconsistent => None
  }

  function Splice(segs: seq<Segment>, begin: nat, cur: Segment): Option<seq<Segment>>
    requires begin <= |segs|
  {
    match Absorb(segs, begin, cur)
    case None => None
    case Some(r) => AbsorbAdvances(segs, begin, cur); Some(segs[..begin] + [r.1] + segs[r.0..])
  }

  lemma AbsorbAdvances(segs: seq<Segment>, end: nat, cur: Segment)
    requires end <= |segs|
    ensures Absorb(segs, end, cur).Some? ==> end <= Absorb(segs, end, cur).value.0 <= |segs|
    decreases |segs| - end
  {
  }

  /** SegmentSet.Add on values: the new set, or None where Add returns an error. */
  function AddTo(segs: seq<Segment>, segment: Segment): Option<seq<Segment>> {
    if !Validate(segment) then None
    else
      var begin := LowerBound(segs, segment.firstSeqNo);
      if begin == 0 then Splice(segs, begin, segment)
      else match ReduceSegment(segs[begin - 1], segment)
        case Reduced(s) => Splice(segs, begin - 1, s)
        case NotReducible => Splice(segs, begin, segment)
        case Inconsistent => None
  }

  /** The byte range of the segment, open-ended where LastOffset is zero, meets [first, last). */
  predicate Overlaps(s: Segment, first: int, last: int) {
    s.firstOffset < last && (s.lastOffset == 0 || s.lastOffset > first)
  }

  /** The overlapping entries, picked one by one. */
  function Overlapping(segs: seq<Segment>, first: int, last: int): seq<Segment> {
    if segs == [] then []
    else Overlapping(segs[..|segs| - 1], first, last) +
         if Overlaps(segs[|segs| - 1], first, last) then [segs[|segs| - 1]] else []
  }

  lemma {:induction false} OverlappingIsSlice(segs: seq<Segment>, i: nat, j: nat, first: int, last: int)
    requires i <= j <= |segs|
    requires forall k :: 0 <= k < |segs| ==> (Overlaps(segs[k], first, last) <==> i <= k < j)
    ensures Overlapping(segs, first, last) == segs[i..j]
  {
    if segs != [] {
      var init := segs[..|segs| - 1];
      if j == |segs| && i < j {
        OverlappingIsSlice(init, i, j - 1, first, last);
        assert segs[i..j] == init[i..j - 1] + [segs[|segs| - 1]];
      } else if j == |segs| {
        OverlappingIsSlice(init, 0, 0, first, last);
      } else {
        OverlappingIsSlice(init, i, j, first, last);
        assert forall k :: i <= k < j ==> init[k] == segs[k];
        assert init[i..j] == segs[i..j];
      }
    }
  }

  /** sort.Search for the first entry with FirstOffset at or above `offset`. */
  function OffsetBound(segs: seq<Segment>, offset: int): (n: nat)
    ensures n <= |segs|
    ensures forall i :: 0 <= i < n ==> segs[i].firstOffset < offset
    ensures n < |segs| ==> segs[n].firstOffset >= offset
  {
    if segs == [] || segs[0].firstOffset >= offset then 0 else 1 + OffsetBound(segs[1..], offset)
  }

  class SegmentSet {
    var segments: seq<Segment>

    constructor ()
      ensures segments == [] && IsSegmentSet(segments)
    {
      segments := [];
    }

    /** An error leaves the set as it was; otherwise it is the set with `segment` added. */
    method Add(segment: Segment) returns (ok: bool)
      requires IsSegmentSet(segments)
      modifies this
      ensures IsSegmentSet(segments)
      ensures ok <==> AddTo(old(segments), segment).Some?
      ensures segments == if ok then AddTo(old(segments), segment).value else old(segments)
      ensures ok ==> forall n, a :: Covers(segments, n, a) <==> Covers(old(segments), n, a) || Claims(segment, n, a)
      ensures ok <==> Validate(segment) && !IsRefused(old(segments), segment)
      ensures ok ==> forall e :: e in old(segments) ==> !Contradicts(e, segment)
      ensures !ok && Validate(segment) ==> exists e :: e in old(segments) && Conflicts(e, segment)
    {
      AddFailsIff(segments, segment);
      if Validate(segment) {
        AddRefusesConflicts(segments, segment);
      }
      if !Validate(segment) {
        return false;
      }
      var cur := segment;
      var begin := LowerBound(segments, cur.firstSeqNo);
      if begin > 0 {
        match ReduceSegment(segments[begin - 1], cur) {
          case Reduced(s) => cur, begin := s, begin - 1;
          case NotReducible =>
          case Inconsistent => return false;
        }
      }
      var end, merged;
      ok, end, merged := AbsorbFollowing(begin, cur);
      if ok {
        AddPreservesInvariants(segments, segment);
        segments := segments[..begin] + [merged] + segments[end..];
      }
    }

    /** The iterative reductions of Add with the entries from `begin` on. */
    method AbsorbFollowing(begin: nat, start: Segment) returns (ok: bool, end: nat, cur: Segment)
      requires begin <= |segments|
      ensures ok <==> Absorb(segments, begin, start).Some?
      ensures ok ==> begin <= end <= |segments| && Absorb(segments, begin, start) == Some((end, cur))
    {
      end, cur := begin, start;
      while end != |segments|
        invariant begin <= end <= |segments|
        invariant Absorb(segments, end, cur) == Absorb(segments, begin, start)
        decreases |segments| - end
      {
        match ReduceSegment(segments[end], cur) {
          case Reduced(s) => cur := s;
          case NotReducible => break;
          case Inconsistent => return false, end, cur;
        }
        end := end + 1;
      }
      return true, end, cur;
    }

    /** The entries whose byte range overlaps [firstOffset, lastOffset), which are contiguous. */
    method Intersect(firstOffset: int, lastOffset: int) returns (r: seq<Segment>)
      requires IsSegmentSet(segments)
      requires firstOffset <= lastOffset
      ensures r == Overlapping(segments, firstOffset, lastOffset)
    {
      var j := OffsetBound(segments, lastOffset);
      var i := j;
      while i != 0 && (segments[i - 1].lastOffset == 0 || segments[i - 1].lastOffset > firstOffset)
        invariant 0 <= i <= j
        invariant forall k :: i <= k < j ==> Overlaps(segments[k], firstOffset, lastOffset)
      {
        i := i - 1;
      }
      r := segments[i..j];
      forall k | 0 <= k < |segments| && !(i <= k < j)
        ensures !Overlaps(segments[k], firstOffset, lastOffset)
      {
        if k < i - 1 {
          assert Precedes(segments[k], segments[i - 1]);
        } else if j < k {
          assert Precedes(segments[j], segments[k]);
        }
      }
      OverlappingIsSlice(segments, i, j, firstOffset, lastOffset);
    }
  }

  // ---------------------------------------------------------------------------
  // Add preserves the invariants, and adds exactly the new claims.

  lemma ReduceMeaning(a: Segment, b: Segment)
    requires WellFormed(a) && WellFormed(b)
    ensures ReduceSegment(a, b).NotReducible? ==>
              if Swaps(a, b) then Precedes(b, a) else Precedes(a, b)
    ensures ReduceSegment(a, b).Reduced? ==>
              var r := ReduceSegment(a, b).segment;
              && WellFormed(r)
              && a.author == b.author == r.author
              && r.firstSeqNo == (if a.firstSeqNo <= b.firstSeqNo then a.firstSeqNo else b.firstSeqNo)
              && r.lastSeqNo == (if a.lastSeqNo <= b.lastSeqNo then b.lastSeqNo else a.lastSeqNo)
              && a.firstSeqNo <= b.lastSeqNo + 1
              && b.firstSeqNo <= a.lastSeqNo + 1
              && r.firstOffset == (if a.firstSeqNo == b.firstSeqNo then Max(a.firstOffset, b.firstOffset)
                                   else if a.firstSeqNo < b.firstSeqNo then a.firstOffset else b.firstOffset)
              && r.firstChecksum == (if a.firstSeqNo <= b.firstSeqNo then a.firstChecksum else b.firstChecksum)
              && r.lastOffset == (if a.lastSeqNo == b.lastSeqNo then Max(a.lastOffset, b.lastOffset)
                                  else if a.lastSeqNo > b.lastSeqNo then a.lastOffset else b.lastOffset)
  {
  }

  /** An entry before both operands is also before their reduction. */
  lemma ReduceKeepsPredecessor(p: Segment, a: Segment, b: Segment)
    requires WellFormed(p) && WellFormed(a) && WellFormed(b)
    requires Precedes(p, a) && Precedes(p, b)
    requires ReduceSegment(a, b).Reduced?
    ensures Precedes(p, ReduceSegment(a, b).segment)
  {
  }

  /** The set which Splice builds is a SegmentSet. `cur` sorts after everything left of `begin`. */
  lemma AbsorbMeaning(segs: seq<Segment>, begin: nat, end: nat, cur: Segment)
    requires IsSegmentSet(segs) && WellFormed(cur)
    requires begin <= end <= |segs|
    requires forall i :: 0 <= i < begin ==> Precedes(segs[i], cur)
    requires forall i :: end <= i < |segs| ==> cur.firstSeqNo <= segs[i].firstSeqNo
    requires Absorb(segs, end, cur).Some?
    ensures var (stop, merged) := Absorb(segs, end, cur).value;
            && end <= stop <= |segs|
            && WellFormed(merged)
            && (forall i :: 0 <= i < begin ==> Precedes(segs[i], merged))
            && (forall i :: stop <= i < |segs| ==> Precedes(merged, segs[i]))
            && (forall i :: end <= i < stop ==> segs[i].author == merged.author)
            && cur.author == merged.author
            && (forall n :: Spans(merged, n) <==> Spans(cur, n) || InRange(segs, end, stop, n))
    decreases |segs| - end
  {
    if end < |segs| {
      ReduceMeaning(segs[end], cur);
      match ReduceSegment(segs[end], cur) {
        case Reduced(s) =>
          forall i | 0 <= i < begin ensures Precedes(segs[i], s) {
            ReduceKeepsPredecessor(segs[i], segs[end], cur);
          }
          forall i | end + 1 <= i < |segs| ensures s.firstSeqNo <= segs[i].firstSeqNo {
            assert Precedes(segs[end], segs[i]);
          }
          AbsorbMeaning(segs, begin, end + 1, s);
          var (stop, merged) := Absorb(segs, end, cur).value;
          forall n ensures Spans(merged, n) <==> Spans(cur, n) || InRange(segs, end, stop, n) {
            assert InRange(segs, end, stop, n) <==> Spans(segs[end], n) || InRange(segs, end + 1, stop, n);
          }
        case NotReducible =>
          forall i | end <= i < |segs| ensures Precedes(cur, segs[i]) {
            if end < i {
              PrecedesTransitive(cur, segs[end], segs[i]);
            }
          }
        case Inconsistent =>
      }
    }
  }

  ghost predicate InRange(segs: seq<Segment>, i: nat, j: nat, seqNo: int)
    requires i <= j <= |segs|
  {
    exists k :: i <= k < j && Spans(segs[k], seqNo)
  }

  lemma SpliceMeaning(segs: seq<Segment>, begin: nat, cur: Segment)
    requires IsSegmentSet(segs) && WellFormed(cur)
    requires begin <= |segs|
    requires forall i :: 0 <= i < begin ==> Precedes(segs[i], cur)
    requires forall i :: begin <= i < |segs| ==> cur.firstSeqNo <= segs[i].firstSeqNo
    requires Splice(segs, begin, cur).Some?
    ensures var r := Splice(segs, begin, cur).value;
            && IsSegmentSet(r)
            && forall n, a :: Covers(r, n, a) <==> Covers(segs, n, a) || Claims(cur, n, a)
  {
    AbsorbMeaning(segs, begin, begin, cur);
    var (stop, merged) := Absorb(segs, begin, cur).value;
    var r := Splice(segs, begin, cur).value;
    assert r == segs[..begin] + [merged] + segs[stop..];
    forall i, j | 0 <= i < j < |r| ensures Precedes(r[i], r[j]) {
      if j <= begin || begin <= i {
      } else {
        assert r[i] == segs[i] && r[j] == segs[stop + (j - begin - 1)];
      }
    }
    forall n, a ensures Covers(r, n, a) <==> Covers(segs, n, a) || Claims(cur, n, a) {
      SpliceCovers(segs, begin, stop, merged, cur, n, a);
    }
  }

  lemma SpliceCovers(segs: seq<Segment>, begin: nat, stop: nat, merged: Segment, cur: Segment, n: int, a: nat)
    requires begin <= stop <= |segs|
    requires forall i :: begin <= i < stop ==> segs[i].author == merged.author
    requires cur.author == merged.author
    requires Spans(merged, n) <==> Spans(cur, n) || InRange(segs, begin, stop, n)
    ensures Covers(segs[..begin] + [merged] + segs[stop..], n, a) <==> Covers(segs, n, a) || Claims(cur, n, a)
  {
    var r := segs[..begin] + [merged] + segs[stop..];
    if Covers(r, n, a) {
      var i :| 0 <= i < |r| && Claims(r[i], n, a);
      if i < begin {
        assert Claims(segs[i], n, a);
      } else if i > begin {
        assert Claims(segs[stop + (i - begin - 1)], n, a);
      } else if InRange(segs, begin, stop, n) {
        var k :| begin <= k < stop && Spans(segs[k], n);
        assert Claims(segs[k], n, a);
      }
    }
    if Claims(cur, n, a) {
      assert Claims(r[begin], n, a);
    }
    if Covers(segs, n, a) {
      var i :| 0 <= i < |segs| && Claims(segs[i], n, a);
      if i < begin {
        assert Claims(r[i], n, a);
      } else if i < stop {
        assert InRange(segs, begin, stop, n);
        assert Claims(r[begin], n, a);
      } else {
        assert Claims(r[begin + 1 + (i - stop)], n, a);
      }
    }
  }

  lemma AddPreservesInvariants(segs: seq<Segment>, segment: Segment)
    requires IsSegmentSet(segs)
    ensures AddTo(segs, segment).Some? ==>
              var r := AddTo(segs, segment).value;
              && IsSegmentSet(r)
              && forall n, a :: Covers(r, n, a) <==> Covers(segs, n, a) || Claims(segment, n, a)
  {
    if AddTo(segs, segment).Some? {
      var begin := LowerBound(segs, segment.firstSeqNo);
      forall i | begin <= i < |segs| ensures segment.firstSeqNo <= segs[i].firstSeqNo {
        if begin < i {
          assert Precedes(segs[begin], segs[i]);
        }
      }
      if begin == 0 {
        SpliceMeaning(segs, begin, segment);
      } else {
        var p := segs[begin - 1];
        ReduceMeaning(p, segment);
        match ReduceSegment(p, segment) {
          case Reduced(s) =>
            forall i | 0 <= i < begin - 1 ensures Precedes(segs[i], s) {
              assert Precedes(segs[i], p);
            }
            forall i | begin - 1 <= i < |segs| ensures s.firstSeqNo <= segs[i].firstSeqNo {
              if begin - 1 < i {
                assert Precedes(p, segs[i]);
              }
            }
            SpliceMeaning(segs, begin - 1, s);
            forall n, a ensures Covers(segs, n, a) || Claims(s, n, a) <==> Covers(segs, n, a) || Claims(segment, n, a) {
              assert Claims(s, n, a) <==> Claims(p, n, a) || Claims(segment, n, a);
            }
          case NotReducible =>
            forall i | 0 <= i < begin ensures Precedes(segs[i], segment) {
              if i < begin - 1 {
                PrecedesTransitive(segs[i], p, segment);
              }
            }
            SpliceMeaning(segs, begin, segment);
          case Inconsistent =>
        }
      }
    }
  }

  // ---------------------------------------------------------------------------
  // When Add fails

  /** Two Segments disagree on who wrote an operation, or on the checksum in front of one. */
  predicate Contradicts(a: Segment, b: Segment) {
    || (a.firstSeqNo <= b.lastSeqNo && b.firstSeqNo <= a.lastSeqNo && a.author != b.author)
    || (a.firstSeqNo == b.firstSeqNo && a.firstChecksum != b.firstChecksum)
  }

  /** The one which begins first has a greater first offset. */
  predicate FirstDisorder(a: Segment, b: Segment) {
    || (a.firstSeqNo < b.firstSeqNo && a.firstOffset > b.firstOffset)
    || (b.firstSeqNo < a.firstSeqNo && b.firstOffset > a.firstOffset)
  }

  /** The one which ends first has a greater last offset; or, the one which begins first has none. */
  predicate LastDisorder(a: Segment, b: Segment) {
    || (a.lastSeqNo <= b.lastSeqNo && 0 != b.lastOffset < a.lastOffset)
    || (b.lastSeqNo <= a.lastSeqNo && 0 != a.lastOffset < b.lastOffset)
    || (a.firstSeqNo < b.firstSeqNo && a.lastOffset == 0 && b.lastOffset != 0)
    || (b.firstSeqNo < a.firstSeqNo && b.lastOffset == 0 && a.lastOffset != 0)
  }

  predicate Conflicts(a: Segment, b: Segment) {
    Contradicts(a, b) || FirstDisorder(a, b) || LastDisorder(a, b)
  }

  lemma InconsistentIff(a: Segment, b: Segment)
    requires WellFormed(a) && WellFormed(b)
    ensures ReduceSegment(a, b).Inconsistent? <==> Conflicts(a, b)
  {
  }

  /** The operations of `s` are among those of `a`. */
  predicate Contains(a: Segment, s: Segment) {
    a.author == s.author && a.firstSeqNo <= s.firstSeqNo && s.lastSeqNo <= a.lastSeqNo
  }

  /** `s` begins within `a`, or right behind it. */
  predicate Continues(a: Segment, s: Segment) {
    a.author == s.author && a.firstSeqNo < s.firstSeqNo <= a.lastSeqNo + 1
  }

  /**
   * An entry for which Add refuses `s`. That before `s` refuses it on any conflict. Those behind refuse it if they
   * contradict it; or if offsets are out of order, unless these are dropped by merging `s`: its first offset if it
   * continues the entry before, and its last offset if it is contained in another entry.
   */
  predicate IsRefusedBy(segs: seq<Segment>, k: nat, s: Segment)
    requires k < |segs|
  {
    var n := LowerBound(segs, s.firstSeqNo);
    if k < n then k == n - 1 && Conflicts(segs[k], s)
    else
      || Contradicts(segs[k], s)
      || (FirstDisorder(segs[k], s) && !(n > 0 && Continues(segs[n - 1], s)))
      || (LastDisorder(segs[k], s) && !(n > 0 && Contains(segs[n - 1], s)) && !(k != n && Contains(segs[n], s)))
  }

  ghost predicate IsRefused(segs: seq<Segment>, s: Segment) {
    exists k :: 0 <= k < |segs| && IsRefusedBy(segs, k, s)
  }

  /** How the loop of Add fails at `segs[k]`, where it begins at `segs[end]`. */
  predicate Stops(segs: seq<Segment>, end: nat, k: nat, cur: Segment)
    requires end <= k < |segs|
  {
    || Contradicts(segs[k], cur) || FirstDisorder(segs[k], cur)
    || (LastDisorder(segs[k], cur) && !(k != end && Contains(segs[end], cur)))
  }

  lemma PrecedingIsNoConflict(a: Segment, b: Segment)
    requires WellFormed(a) && WellFormed(b) && Precedes(a, b)
    ensures !Conflicts(a, b) && !Conflicts(b, a)
  {
  }

  /** What is merged with an entry conflicts with a later one as it did before, but for a dropped last offset. */
  lemma MergedConflicts(e: Segment, x: Segment, cur: Segment)
    requires WellFormed(e) && WellFormed(x) && WellFormed(cur) && Precedes(e, x) && cur.firstSeqNo <= e.firstSeqNo
    requires ReduceSegment(e, cur).Reduced?
    ensures Conflicts(x, ReduceSegment(e, cur).segment) <==>
            Contradicts(x, cur) || FirstDisorder(x, cur) || (LastDisorder(x, cur) && !Contains(e, cur))
  {
    InconsistentIff(e, cur);
    ReduceMeaning(e, cur);
    hide ReduceSegment;
  }

  lemma {:induction false} AbsorbFailsIff(segs: seq<Segment>, end: nat, cur: Segment)
    requires IsSegmentSet(segs) && WellFormed(cur) && end <= |segs|
    requires forall i :: end <= i < |segs| ==> cur.firstSeqNo <= segs[i].firstSeqNo
    ensures Absorb(segs, end, cur).None? <==> exists k :: end <= k < |segs| && Stops(segs, end, k, cur)
    decreases |segs| - end
  {
    if end < |segs| {
      InconsistentIff(segs[end], cur);
      ReduceMeaning(segs[end], cur);
      hide ReduceSegment, Precedes, WellFormed, Conflicts;
      match ReduceSegment(segs[end], cur) {
        case Reduced(s) =>
          forall i | end + 1 <= i < |segs|
            ensures s.firstSeqNo < segs[i].firstSeqNo
            ensures Stops(segs, end, i, cur) <==> Stops(segs, end + 1, i, s)
          {
            assert Precedes(segs[end], segs[i]);
            StopsAlike(segs, end, i, cur, s);
          }
          AbsorbFailsIff(segs, end + 1, s);
          assert !Stops(segs, end, end, cur) by { NoConflictNoStop(segs, end, cur); }
        case NotReducible =>
          forall i | end <= i < |segs| ensures !Stops(segs, end, i, cur) {
            NeverStops(segs, end, i, cur);
          }
        case Inconsistent =>
          assert Stops(segs, end, end, cur) by { ConflictStops(segs, end, cur); }
      }
    }
  }

  lemma ConflictStops(segs: seq<Segment>, end: nat, cur: Segment)
    requires end < |segs| && Conflicts(segs[end], cur)
    ensures Stops(segs, end, end, cur)
  {
  }

  lemma NoConflictNoStop(segs: seq<Segment>, end: nat, cur: Segment)
    requires end < |segs| && !Conflicts(segs[end], cur)
    ensures !Stops(segs, end, end, cur)
  {
  }

  lemma NeverStops(segs: seq<Segment>, end: nat, i: nat, cur: Segment)
    requires IsSegmentSet(segs) && WellFormed(cur) && end <= i < |segs| && cur.firstSeqNo <= segs[end].firstSeqNo
    requires ReduceSegment(segs[end], cur).NotReducible?
    ensures !Stops(segs, end, i, cur)
  {
    ReduceMeaning(segs[end], cur);
    hide ReduceSegment;
    if end < i {
      PrecedesTransitive(cur, segs[end], segs[i]);
    }
    PrecedingIsNoConflict(cur, segs[i]);
  }

  lemma StopsAlike(segs: seq<Segment>, end: nat, i: nat, cur: Segment, s: Segment)
    requires IsSegmentSet(segs) && WellFormed(cur) && end < i < |segs| && cur.firstSeqNo <= segs[end].firstSeqNo
    requires ReduceSegment(segs[end], cur) == Reduced(s)
    ensures s.firstSeqNo < segs[i].firstSeqNo
    ensures Stops(segs, end, i, cur) <==> Stops(segs, end + 1, i, s)
  {
    ReduceMeaning(segs[end], cur);
    MergedConflicts(segs[end], segs[i], cur);
    hide ReduceSegment;
    if end + 1 < i {
      assert Precedes(segs[end], segs[end + 1]);
    }
  }

  /** Add fails for exactly those Segments which are invalid, or which an entry refuses. */
  lemma AddFailsIff(segs: seq<Segment>, segment: Segment)
    requires IsSegmentSet(segs)
    ensures AddTo(segs, segment).None? <==> !Validate(segment) || IsRefused(segs, segment)
  {
    if Validate(segment) {
      var n := LowerBound(segs, segment.firstSeqNo);
      FollowingBegin(segs, segment, n);
      if n == 0 {
        AbsorbFailsIff(segs, 0, segment);
        assert forall k :: 0 <= k < |segs| ==> (IsRefusedBy(segs, k, segment) <==> Stops(segs, 0, k, segment));
      } else {
        var p := segs[n - 1];
        InconsistentIff(p, segment);
        ReduceMeaning(p, segment);
        match ReduceSegment(p, segment) {
          case Reduced(s) => ContinuedFailsIff(segs, segment, n, s);
          case NotReducible => FollowingFailsIff(segs, segment, n);
          case Inconsistent => assert IsRefusedBy(segs, n - 1, segment);
        }
      }
    }
  }

  lemma FollowingBegin(segs: seq<Segment>, segment: Segment, n: nat)
    requires IsSegmentSet(segs) && n == LowerBound(segs, segment.firstSeqNo)
    ensures forall i :: n <= i < |segs| ==> segment.firstSeqNo <= segs[i].firstSeqNo
    ensures forall i, j :: 0 <= i < j < |segs| ==> segs[i].firstSeqNo < segs[j].firstSeqNo
  {
    forall i, j | 0 <= i < j < |segs| ensures segs[i].firstSeqNo < segs[j].firstSeqNo {
      assert Precedes(segs[i], segs[j]);
    }
  }

  lemma FollowingFailsIff(segs: seq<Segment>, segment: Segment, n: nat)
    requires IsSegmentSet(segs) && WellFormed(segment) && 0 < n == LowerBound(segs, segment.firstSeqNo)
    requires ReduceSegment(segs[n - 1], segment).NotReducible?
    ensures Absorb(segs, n, segment).None? <==> IsRefused(segs, segment)
  {
    FollowingBegin(segs, segment, n);
    AbsorbFailsIff(segs, n, segment);
    var p := segs[n - 1];
    InconsistentIff(p, segment);
    ReduceMeaning(p, segment);
    hide ReduceSegment;
    assert !Continues(p, segment) && !Contains(p, segment);
    forall k | n <= k < |segs| ensures IsRefusedBy(segs, k, segment) <==> Stops(segs, n, k, segment) {
    }
  }

  lemma ContinuedFailsIff(segs: seq<Segment>, segment: Segment, n: nat, s: Segment)
    requires IsSegmentSet(segs) && WellFormed(segment) && 0 < n == LowerBound(segs, segment.firstSeqNo)
    requires ReduceSegment(segs[n - 1], segment) == Reduced(s)
    ensures Absorb(segs, n - 1, s).None? <==> IsRefused(segs, segment)
  {
    FollowingBegin(segs, segment, n);
    var p := segs[n - 1];
    InconsistentIff(p, segment);
    ReduceMeaning(p, segment);
    AbsorbFailsIff(segs, n - 1, s);
    hide ReduceSegment;
    assert !Stops(segs, n - 1, n - 1, s);
    assert !IsRefusedBy(segs, n - 1, segment);
    forall k | n <= k < |segs| ensures IsRefusedBy(segs, k, segment) <==> Stops(segs, n - 1, k, s) {
      assert Precedes(p, segs[k]);
      ContinuedAlike(p, segs[k], segment, s);
      assert Precedes(p, segs[n]) && !Contains(segs[n], segment);
    }
    hide Contradicts, FirstDisorder, LastDisorder, Contains, Precedes, WellFormed, Stops;
    assert forall k :: 0 <= k < n ==> !IsRefusedBy(segs, k, segment);
    hide IsRefusedBy;
    if Absorb(segs, n - 1, s).None? {
      var k :| n - 1 <= k < |segs| && Stops(segs, n - 1, k, s);
      assert IsRefusedBy(segs, k, segment);
    }
  }

  /** A Segment which continues the entry before it, and the entry it's merged into, conflict with a later one alike. */
  lemma ContinuedAlike(p: Segment, x: Segment, segment: Segment, s: Segment)
    requires WellFormed(p) && WellFormed(x) && WellFormed(segment) && Precedes(p, x)
    requires p.firstSeqNo < segment.firstSeqNo <= x.firstSeqNo && ReduceSegment(p, segment) == Reduced(s)
    ensures Continues(p, segment) && !FirstDisorder(x, s)
    ensures Contradicts(x, s) || (LastDisorder(x, s) && !Contains(p, s)) <==>
            Contradicts(x, segment) || (LastDisorder(x, segment) && !Contains(p, segment))
  {
    InconsistentIff(p, segment);
    ReduceMeaning(p, segment);
    hide ReduceSegment;
  }

  /** Add succeeds only if no entry contradicts the Segment, and fails only if one conflicts with it. */
  lemma AddRefusesConflicts(segs: seq<Segment>, segment: Segment)
    requires IsSegmentSet(segs) && Validate(segment)
    ensures AddTo(segs, segment).Some? ==> forall e :: e in segs ==> !Contradicts(e, segment)
    ensures AddTo(segs, segment).None? ==> exists e :: e in segs && Conflicts(e, segment)
  {
    AddFailsIff(segs, segment);
    var n: int := LowerBound(segs, segment.firstSeqNo);
    if AddTo(segs, segment).Some? {
      forall e | e in segs ensures !Contradicts(e, segment) {
        var k :| 0 <= k < |segs| && segs[k] == e;
        assert !IsRefusedBy(segs, k, segment);
        if k < n - 1 {
          assert Precedes(e, segs[n - 1]);
        }
      }
    } else {
      var k :| 0 <= k < |segs| && IsRefusedBy(segs, k, segment);
      assert segs[k] in segs;
    }
  }

  /**
   * Not every conflict is refused: offsets of a Segment which is contained in an entry are compared with that entry
   * only. Here the Segment ends below the end of an earlier one.
   */
  lemma ConflictIsMissed() returns (segs: seq<Segment>, segment: Segment)
    ensures IsSegmentSet(segs) && Validate(segment) && segs != [] && Conflicts(segs[0], segment)
    ensures AddTo(segs, segment).Some?
  {
    segs := [Segment(1, 1, 0, Zero, 1, 100), Segment(2, 2, 10, Zero, 9, 200)];
    segment := Segment(2, 3, 20, Zero, 4, 50);
    assert LowerBound(segs, 3) == 2;
    AddFailsIff(segs, segment);
  }

  // ---------------------------------------------------------------------------
  // The order in which segments are added does not matter.

  /** Adds each segment of `list` in turn; None where any Add fails. */
  function AddAll(segs: seq<Segment>, list: seq<Segment>): Option<seq<Segment>>
    decreases list
  {
    if list == [] then Some(segs)
    else match AddTo(segs, list[0])
      case None => None
      case Some(next) => AddAll(next, list[1..])
  }

  lemma {:induction false} AddAllMeaning(segs: seq<Segment>, list: seq<Segment>)
    requires IsSegmentSet(segs)
    requires AddAll(segs, list).Some?
    ensures var r := AddAll(segs, list).value;
            && IsSegmentSet(r)
            && forall n, a :: Covers(r, n, a) <==> Covers(segs, n, a) || Covers(list, n, a)
    decreases list
  {
    if list != [] {
      var next := AddTo(segs, list[0]).value;
      AddPreservesInvariants(segs, list[0]);
      AddAllMeaning(next, list[1..]);
      forall n, a ensures Covers(list, n, a) <==> Claims(list[0], n, a) || Covers(list[1..], n, a) {
        CoversCons(list, n, a);
      }
    }
  }

  lemma CoversCons(list: seq<Segment>, n: int, a: nat)
    requires list != []
    ensures Covers(list, n, a) <==> Claims(list[0], n, a) || Covers(list[1..], n, a)
  {
    if Covers(list[1..], n, a) {
      var i :| 0 <= i < |list[1..]| && Claims(list[1..][i], n, a);
      assert Claims(list[i + 1], n, a);
    }
    if Covers(list, n, a) && !Claims(list[0], n, a) {
      var i :| 0 <= i < |list| && Claims(list[i], n, a);
      assert Claims(list[1..][i - 1], n, a);
    }
  }

  /** An entry without its offsets and checksum. */
  function Key(s: Segment): (nat, int, int) {
    (s.author, s.firstSeqNo, s.lastSeqNo)
  }

  function Keys(segs: seq<Segment>): (k: seq<(nat, int, int)>)
    ensures |k| == |segs| && forall i :: 0 <= i < |segs| ==> k[i] == Key(segs[i])
  {
    if segs == [] then [] else [Key(segs[0])] + Keys(segs[1..])
  }

  lemma LeastIsFirst(x: seq<Segment>, n: int, a: nat)
    requires IsSegmentSet(x) && Covers(x, n, a)
    ensures x != [] && x[0].firstSeqNo <= n
    ensures n <= x[0].lastSeqNo ==> x[0].author == a
    ensures n == x[0].lastSeqNo + 1 ==> x[0].author != a
  {
    var i :| 0 <= i < |x| && Claims(x[i], n, a);
    if i > 0 {
      assert Precedes(x[0], x[i]);
    }
  }

  lemma FirstClaims(x: seq<Segment>, n: int)
    requires x != [] && Spans(x[0], n)
    ensures Covers(x, n, x[0].author)
  {
    assert Claims(x[0], n, x[0].author);
  }

  lemma FirstKeysAgree(x: seq<Segment>, y: seq<Segment>)
    requires IsSegmentSet(x) && IsSegmentSet(y) && x != []
    requires forall n, a :: Covers(x, n, a) <==> Covers(y, n, a)
    ensures y != [] && Key(x[0]) == Key(y[0])
  {
    FirstClaims(x, x[0].firstSeqNo);
    LeastIsFirst(y, x[0].firstSeqNo, x[0].author);
    FirstClaims(y, y[0].firstSeqNo);
    LeastIsFirst(x, y[0].firstSeqNo, y[0].author);
    if x[0].lastSeqNo < y[0].lastSeqNo {
      FirstClaims(y, x[0].lastSeqNo + 1);
      LeastIsFirst(x, x[0].lastSeqNo + 1, y[0].author);
    } else if y[0].lastSeqNo < x[0].lastSeqNo {
      FirstClaims(x, y[0].lastSeqNo + 1);
      LeastIsFirst(y, y[0].lastSeqNo + 1, x[0].author);
    }
  }

  lemma TailCovers(x: seq<Segment>, n: int, a: nat)
    requires IsSegmentSet(x) && x != []
    ensures Covers(x[1..], n, a) <==> Covers(x, n, a) && n > x[0].lastSeqNo
  {
    CoversCons(x, n, a);
    if Covers(x[1..], n, a) {
      var i :| 0 <= i < |x[1..]| && Claims(x[1..][i], n, a);
      assert Precedes(x[0], x[i + 1]);
    }
  }

  /** A SegmentSet is its coverage: the maximal same-author runs of covered SeqNos. */
  lemma {:induction false} CoverageDeterminesKeys(x: seq<Segment>, y: seq<Segment>)
    requires IsSegmentSet(x) && IsSegmentSet(y)
    requires forall n, a :: Covers(x, n, a) <==> Covers(y, n, a)
    ensures Keys(x) == Keys(y)
  {
    if x == [] {
      if y != [] {
        FirstKeysAgree(y, x);
      }
    } else {
      FirstKeysAgree(x, y);
      forall n, a ensures Covers(x[1..], n, a) <==> Covers(y[1..], n, a) {
        TailCovers(x, n, a);
        TailCovers(y, n, a);
      }
      CoverageDeterminesKeys(x[1..], y[1..]);
    }
  }

  /**
   * Order independence. Two orders (and, more generally, two lists of the same segments) which
   * both succeed give the same authors and SeqNo ranges.
   */
  lemma AddOrderIrrelevant(xs: seq<Segment>, ys: seq<Segment>)
    requires forall s :: s in xs <==> s in ys
    requires AddAll([], xs).Some? && AddAll([], ys).Some?
    ensures Keys(AddAll([], xs).value) == Keys(AddAll([], ys).value)
  {
    AddAllMeaning([], xs);
    AddAllMeaning([], ys);
    forall n, a ensures Covers(xs, n, a) <==> Covers(ys, n, a) {
      SameSegmentsCover(xs, ys, n, a);
      SameSegmentsCover(ys, xs, n, a);
    }
    CoverageDeterminesKeys(AddAll([], xs).value, AddAll([], ys).value);
  }

  lemma SameSegmentsCover(xs: seq<Segment>, ys: seq<Segment>, n: int, a: nat)
    requires forall s :: s in xs ==> s in ys
    ensures Covers(xs, n, a) ==> Covers(ys, n, a)
  {
    if Covers(xs, n, a) {
      var i :| 0 <= i < |xs| && Claims(xs[i], n, a);
      assert xs[i] in ys;
      var j :| 0 <= j < |ys| && ys[j] == xs[i];
      assert Claims(ys[j], n, a);
    }
  }
}

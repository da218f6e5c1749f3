/**
 * Pruning a recovery log of the fragments which its hints do not need (cmd/gazctl/cmd/shard_prune_log.go):
 * a log without them plays back as before.
 */
module Pruning {
  import opened Segments
  import opened Fsm
  import opened Hints
  import opened History
  import opened Playback
  import opened RoundTrip
  import opened Player

  /** A fragment of the log holds the bytes [begin, end). */
  datatype Fragment = Fragment(begin: int, end: int)

  /** The hinted segments, with the LastOffset of the final one zeroed. */
  function OpenEnded(segs: seq<Segment>): seq<Segment>
    requires segs != []
  {
    segs[|segs| - 1 := segs[|segs| - 1].(lastOffset := 0)]
  }

  lemma OpenEndedIsSegmentSet(segs: seq<Segment>)
    requires IsSegmentSet(segs) && segs != []
    ensures IsSegmentSet(OpenEnded(segs))
  {
    var r := OpenEnded(segs);
    forall i, j | 0 <= i < j < |r| ensures Precedes(r[i], r[j]) {
      assert Precedes(segs[i], segs[j]);
    }
  }

  /** The decision to prune a fragment. */
  predicate IsPruned(segs: seq<Segment>, f: Fragment)
    requires segs != []
  {
    Overlapping(OpenEnded(segs), f.begin, f.end) == []
  }

  /** The walk over all fragments of the log, which returns those to delete. */
  method Prune(segments: SegmentSet, fragments: seq<Fragment>) returns (pruned: seq<Fragment>)
    requires IsSegmentSet(segments.segments) && segments.segments != []
    requires forall i :: 0 <= i < |fragments| ==> fragments[i].begin <= fragments[i].end
    modifies segments
    ensures segments.segments == OpenEnded(old(segments.segments))
    ensures forall f :: f in pruned <==> f in fragments && IsPruned(old(segments.segments), f)
  {
    OpenEndedIsSegmentSet(segments.segments);
    ghost var segs := segments.segments;
    var last := |segments.segments| - 1;
    segments.segments := segments.segments[last := segments.segments[last].(lastOffset := 0)];
    pruned := [];
    for i := 0 to |fragments|
      invariant segments.segments == OpenEnded(segs)
      invariant forall f :: f in pruned <==> f in fragments[..i] && IsPruned(segs, f)
    {
      var found := segments.Intersect(fragments[i].begin, fragments[i].end);
      if |found| == 0 {
        pruned := pruned + [fragments[i]];
      }
      assert fragments[..i + 1] == fragments[..i] + [fragments[i]];
    }
    assert fragments[..|fragments|] == fragments;
  }

  // ---------------------------------------------------------------------------
  // What a pruned fragment cannot hold

  lemma {:induction false} NoneOverlap(segs: seq<Segment>, first: int, last: int)
    requires Overlapping(segs, first, last) == []
    ensures forall i :: 0 <= i < |segs| ==> !Overlaps(segs[i], first, last)
  {
    if segs != [] {
      NoneOverlap(segs[..|segs| - 1], first, last);
    }
  }

  predicate Meets(f: Fragment, begin: int, end: int) {
    f.begin < end && begin < f.end
  }

  /** Bytes [begin, end) lie in the segment, or in what is open-ended behind the final one. */
  predicate LiesIn(segs: seq<Segment>, i: nat, begin: int, end: int)
    requires i < |segs|
  {
    && segs[i].firstOffset <= begin
    && (i == |segs| - 1 || segs[i].lastOffset == 0 || end <= segs[i].lastOffset)
  }

  /** A fragment is pruned just if no hinted segment has bytes in it, and if it lies before the final one. */
  lemma PrunedIff(segs: seq<Segment>, f: Fragment)
    requires segs != []
    ensures IsPruned(segs, f) <==>
            && f.end <= segs[|segs| - 1].firstOffset
            && forall i :: 0 <= i < |segs| - 1 ==>
                 f.end <= segs[i].firstOffset || 0 != segs[i].lastOffset <= f.begin
  {
    var open := OpenEnded(segs);
    assert Overlaps(open[|segs| - 1], f.begin, f.end) <==> f.end > segs[|segs| - 1].firstOffset;
    if IsPruned(segs, f) {
      NoneOverlap(open, f.begin, f.end);
      forall i | 0 <= i < |segs| - 1 ensures f.end <= segs[i].firstOffset || 0 != segs[i].lastOffset <= f.begin {
        assert !Overlaps(open[i], f.begin, f.end);
      }
    } else {
      var i := SomeOverlaps(open, f.begin, f.end);
    }
  }

  lemma {:induction false} SomeOverlaps(segs: seq<Segment>, first: int, last: int) returns (i: nat)
    requires Overlapping(segs, first, last) != []
    ensures i < |segs| && Overlaps(segs[i], first, last)
  {
    var n := |segs| - 1;
    if Overlaps(segs[n], first, last) {
      i := n;
    } else {
      i := SomeOverlaps(segs[..n], first, last);
    }
  }

  /** A pruned fragment meets no hinted segment, and nothing from the FirstOffset of the final one on. */
  lemma PrunedMeetsNoSegment(segs: seq<Segment>, f: Fragment)
    requires segs != [] && IsPruned(segs, f)
    ensures f.begin < f.end ==> f.end <= segs[|segs| - 1].firstOffset
    ensures forall i, begin, end :: 0 <= i < |segs| && LiesIn(segs, i, begin, end) ==> !Meets(f, begin, end)
  {
    var open := OpenEnded(segs);
    NoneOverlap(open, f.begin, f.end);
    assert !Overlaps(open[|segs| - 1], f.begin, f.end);
    forall i, begin, end | 0 <= i < |segs| && LiesIn(segs, i, begin, end) ensures !Meets(f, begin, end) {
      assert !Overlaps(open[i], f.begin, f.end);
    }
  }

  // ---------------------------------------------------------------------------
  // A pruned log

  function EndOf(e: LogEntry): int {
    e.begin + 8 + |e.frame| + |e.data|
  }

  /** The entry lies in a fragment which is pruned. */
  ghost predicate IsLost(segs: seq<Segment>, fragments: seq<Fragment>, e: LogEntry)
    requires segs != []
  {
    exists f :: f in fragments && IsPruned(segs, f) && Meets(f, e.begin, EndOf(e))
  }

  ghost function Kept(segs: seq<Segment>, fragments: seq<Fragment>, log: seq<LogEntry>): seq<LogEntry>
    requires segs != []
  {
    if log == [] then []
    else if IsLost(segs, fragments, log[0]) then Kept(segs, fragments, log[1..])
    else [log[0]] + Kept(segs, fragments, log[1..])
  }

  /** A known LastOffset of an op lies behind the bytes of that op, and of all earlier ones. */
  ghost predicate OffsetsBound(h: seq<Entry>, log: seq<LogEntry>) {
    forall i, k, j :: 0 <= i < |log| && 0 <= k <= j < |h| && Records(log[i], h[k]) && h[j].op.lastOffset != 0 ==>
      EndOf(log[i]) <= h[j].op.lastOffset
  }

  /** A pruned fragment holds no byte of an op which playback needs. */
  lemma NeededIsKept(c: Course, f: Fragment, k: nat, e: LogEntry)
    requires AllFaithful(c.h, c.segs) && OffsetsAreOrdered(c.h) && c.segs != []
    requires k < |c.h| && Records(e, c.h[k]) && IsPruned(c.segs, f) && !IsDead(c, k)
    requires forall j :: k <= j < |c.h| && c.h[j].op.lastOffset != 0 ==> EndOf(e) <= c.h[j].op.lastOffset
    ensures !Meets(f, e.begin, EndOf(e))
  {
    PrunedMeetsNoSegment(c.segs, f);
    hide IsPruned;
    var i := |c.segs| - 1;
    if HoldsSeqNo(c.segs, k + 1) {
      i :| 0 <= i < |c.segs| && Spans(c.segs[i], k + 1);
    }
    assert Faithful(c.h, c.segs[i]);
    assert OffsetsOrdered(c.h[c.segs[i].firstSeqNo - 1].op, c.h[k].op);
    assert LiesIn(c.segs, i, e.begin, EndOf(e));
  }

  /** Only dead ops of the history are lost to pruning. */
  lemma LostIsDead(c: Course, fragments: seq<Fragment>, k: nat, e: LogEntry)
    requires AllFaithful(c.h, c.segs) && OffsetsAreOrdered(c.h) && c.segs != []
    requires k < |c.h| && Records(e, c.h[k]) && IsLost(c.segs, fragments, e)
    requires forall j :: k <= j < |c.h| && c.h[j].op.lastOffset != 0 ==> EndOf(e) <= c.h[j].op.lastOffset
    ensures IsDead(c, k)
  {
    hide AllFaithful, OffsetsAreOrdered, IsPruned, IsDead, Meets;
    var f :| f in fragments && IsPruned(c.segs, f) && Meets(f, e.begin, EndOf(e));
    if !IsDead(c, k) {
      NeededIsKept(c, f, k, e);
    }
  }

  /** Ops which are lost, of a log pruned under `segs`, are dead to the course. */
  ghost predicate LostAreDead(c: Course, segs: seq<Segment>, fragments: seq<Fragment>, log: seq<LogEntry>)
    requires segs != []
  {
    forall i, k :: 0 <= i < |log| && 0 <= k < |c.h| && Records(log[i], c.h[k]) && IsLost(segs, fragments, log[i]) ==>
      IsDead(c, k)
  }

  /** If only dead ops are lost, the pruned log still carries the history. */
  lemma {:induction false} KeptCarries(c: Course, segs: seq<Segment>, fragments: seq<Fragment>, k: nat,
                                       log: seq<LogEntry>)
    requires segs != [] && k <= |c.h| && Carries(c, k, log) && LostAreDead(c, segs, fragments, log)
    ensures Carries(c, k, Kept(segs, fragments, log))
    decreases |log| + |c.h| - k
  {
    hide Records, Noise, IsDead, IsLost, Course.Last;
    if log == [] && k == |c.h| {
    } else if k < |c.h| && IsDead(c, k) && Carries(c, k + 1, log) {
      KeptCarries(c, segs, fragments, k + 1, log);
    } else {
      var lost := IsLost(segs, fragments, log[0]);
      assert !lost ==> Kept(segs, fragments, log)[1..] == Kept(segs, fragments, log[1..]);
      assert LostAreDead(c, segs, fragments, log[1..]) by {
        assert forall i :: 0 <= i < |log| - 1 ==> log[1..][i] == log[i + 1];
      }
      if k < |c.h| && Records(log[0], c.h[k]) && Carries(c, k + 1, log[1..]) {
        KeptCarries(c, segs, fragments, k + 1, log[1..]);
      } else {
        KeptCarries(c, segs, fragments, k, log[1..]);
      }
    }
  }

  /** Under the hints which a log is pruned with, only dead ops are lost. */
  lemma OwnLossIsDead(c: Course, fragments: seq<Fragment>, log: seq<LogEntry>)
    requires AllFaithful(c.h, c.segs) && OffsetsAreOrdered(c.h) && c.segs != [] && OffsetsBound(c.h, log)
    ensures LostAreDead(c, c.segs, fragments, log)
  {
    hide AllFaithful, OffsetsAreOrdered, Records, IsDead, IsLost;
    forall i, k | 0 <= i < |log| && 0 <= k < |c.h| && Records(log[i], c.h[k]) && IsLost(c.segs, fragments, log[i])
      ensures IsDead(c, k)
    {
      LostIsDead(c, fragments, k, log[i]);
    }
  }

  /** What playback of a log is to recover: state and directory of the history, with no hints left. */
  ghost predicate Recovers(h: seq<Entry>, hints: FSMHints, log: seq<LogEntry>)
    requires IsHistory(h) && (forall i :: 0 <= i < |h| ==> WritesAreValid(h[i].op)) && InitialState(hints).Some?
  {
    var r := PlayLog(Playing(InitialState(hints).value, map[]), log);
    && r.Some?
    && !HasRemainingHints(r.value.fsm)
    && SameState(r.value.fsm, StateAt(h, |h|))
    && (forall p :: p in r.value.fsm.links ==> r.value.fsm.links[p] in r.value.files)
    && Directory(r.value) == DirectoryAt(h, |h|)
  }

  /**
   * Pruning is safe: playback of the log without the pruned fragments recovers the same state, and the same
   * directory.
   */
  lemma PrunedLogRecovers(h: seq<Entry>, cut: nat, hints: FSMHints, log: seq<LogEntry>, fragments: seq<Fragment>)
    requires Hintable(h, cut) && hints.log != "" && AreHintsOf(hints, StateAt(h, cut))
    requires forall i :: 0 <= i < |h| ==> WritesAreValid(h[i].op)
    requires OffsetsBound(h, log)
    requires Flatten(hints.liveNodes).Some? ==>
               var c := CourseOf(h, cut, hints);
               GapsAreHarmless(c) && Carries(c, 0, log) && c.segs != []
    ensures InitialState(hints).Some? && Flatten(hints.liveNodes).Some?
    ensures Recovers(h, hints, Kept(CourseOf(h, cut, hints).segs, fragments, log))
  {
    hide StateAt, IsHistory, AuthorsAreRuns, OffsetsAreOrdered, GapsAreHarmless, Carries, Flatten, PropertiesAreSinks;
    hide OffsetsBound, Kept, PlayLog, SameState, Directory, DirectoryAt, WritesAreValid, LostAreDead;
    HintsHoldCourse(h, cut, hints);
    var c := CourseOf(h, cut, hints);
    OwnLossIsDead(c, fragments, log);
    KeptCarries(c, c.segs, fragments, 0, log);
    FilesRoundTrip(h, cut, hints, Kept(c.segs, fragments, log));
  }
}

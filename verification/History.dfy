/**
 * Histories: op sequences which an FSM without hints accepts in full, as a Recorder's FSM does. The
 * Segments which such an FSM tracks are faithful to its history, and always form a SegmentSet.
 */
module History {
  import opened Common
  import opened Segments
  import opened Fsm

  /** A recorded op, the payload of its frame, and the content which follows it if it is a write. */
  datatype Entry = Entry(op: RecordedOp, frame: Bytes, data: Bytes)

  const EmptyState := State(1, Zero, map[], map[], map[], [], [])

  /** The state after the first `k` ops of `h`. */
  function StateAt(h: seq<Entry>, k: nat): State
    requires k <= |h|
  {
    if k == 0 then EmptyState else Apply(StateAt(h, k - 1), h[k - 1].op, h[k - 1].frame).0
  }

  ghost predicate IsHistory(h: seq<Entry>) {
    forall k :: 0 <= k < |h| ==> Transitions(Apply(StateAt(h, k), h[k].op, h[k].frame).1)
  }

  lemma {:induction false} StateAtIsValid(h: seq<Entry>, k: nat)
    requires IsHistory(h) && k <= |h|
    ensures Invariant(StateAt(h, k))
    ensures StateAt(h, k).nextSeqNo == k + 1
    ensures !HasRemainingHints(StateAt(h, k))
    ensures k == 0 ==> StateAt(h, k) == EmptyState
    ensures forall f :: f in StateAt(h, k).liveNodes ==> f <= k
    ensures k < |h| ==> h[k].op.seqNo == k + 1 && h[k].op.checksum == StateAt(h, k).nextChecksum
  {
    hide Apply, Invariant;
    assert Invariant(StateAt(h, k)) ==> forall f :: f in StateAt(h, k).liveNodes ==> f < StateAt(h, k).nextSeqNo by {
      LiveBelowNext(StateAt(h, k));
    }
    if k > 0 {
      StateAtIsValid(h, k - 1);
      ApplyKeepsInvariant(StateAt(h, k - 1), h[k - 1].op, h[k - 1].frame);
      ApplyWithoutHints(StateAt(h, k - 1), h[k - 1].op, h[k - 1].frame);
    } else {
      EmptyStateIsValid();
    }
    if k < |h| {
      ApplyWithoutHints(StateAt(h, k), h[k].op, h[k].frame);
    }
  }

  lemma LiveBelowNext(m: State)
    ensures Invariant(m) ==> forall f :: f in m.liveNodes ==> f < m.nextSeqNo
  {
  }

  lemma EmptyStateIsValid()
    ensures Invariant(EmptyState) && !HasRemainingHints(EmptyState)
  {
  }

  /** One op of a history, without the bookkeeping of its sequencing. */
  lemma HistoryStep(h: seq<Entry>, k: nat)
    requires IsHistory(h) && k < |h|
    ensures var (n, err) := ApplyBody(StateAt(h, k), h[k].op);
            && Transitions(err)
            && StateAt(h, k + 1) == n.(nextSeqNo := k + 2, nextChecksum := Update(h[k].op.checksum, h[k].frame))
    ensures h[k].op.seqNo == k + 1 && StateAt(h, k).nextSeqNo == k + 1
  {
    hide Apply, ApplyBody, Invariant;
    StateAtIsValid(h, k);
    ApplyWithoutHints(StateAt(h, k), h[k].op, h[k].frame);
  }

  /** A Fnode which is live at `k` was live ever since it was created; it is never revived. */
  lemma {:induction false} LiveBefore(h: seq<Entry>, j: nat, k: nat, f: Fnode)
    requires IsHistory(h) && j <= k <= |h|
    requires f in StateAt(h, k).liveNodes && f <= j
    ensures 0 < f && f in StateAt(h, j).liveNodes
    decreases k
  {
    hide Apply, ApplyBody, StateAt, Invariant, IsHistory;
    StateAtIsValid(h, k);
    if k > 0 {
      HistoryStep(h, k - 1);
      StateAtIsValid(h, k - 1);
      ApplyBodyNode(StateAt(h, k - 1), h[k - 1].op, f);
      if f in StateAt(h, k - 1).liveNodes {
        LiveBefore(h, if j < k then j else k - 1, k - 1, f);
      }
    }
  }

  // ---------------------------------------------------------------------------
  // Assumptions on histories.

  /** Authors are unique: once another Author takes over, the former does not return. */
  ghost predicate AuthorsAreRuns(h: seq<Entry>) {
    && (forall i :: 0 <= i < |h| ==> h[i].op.author != 0)
    && (forall i, j, l :: 0 <= i <= j <= l < |h| && h[i].op.author == h[l].op.author ==>
          h[j].op.author == h[i].op.author)
  }

  predicate ValidOffsets(op: RecordedOp) {
    op.firstOffset >= 0 && (op.lastOffset != 0 ==> op.firstOffset < op.lastOffset)
  }

  predicate OffsetsOrdered(a: RecordedOp, b: RecordedOp) {
    && a.firstOffset <= b.firstOffset
    && (!a.body.NoOp? && !b.body.NoOp? ==>
          && (a.lastOffset == 0 ==> b.lastOffset == 0)
          && (b.lastOffset != 0 ==> a.lastOffset <= b.lastOffset)
          && (a.author == b.author ==> (a.lastOffset == 0 <==> b.lastOffset == 0)))
  }

  /**
   * Offsets do not decrease with SeqNo. LastOffset is known for ops which were read by a Player, and
   * is zero for ops of a Recorder, which come later. Only a hand-off no-op is read by the Player of the
   * same Author which then records.
   */
  ghost predicate OffsetsAreOrdered(h: seq<Entry>) {
    && (forall i :: 0 <= i < |h| ==> ValidOffsets(h[i].op))
    && (forall i, j :: 0 <= i <= j < |h| ==> OffsetsOrdered(h[i].op, h[j].op))
  }

  // ---------------------------------------------------------------------------
  // Faithful segments.

  /** The segment describes ops of the history: their author, its first checksum, and its offsets. */
  ghost predicate Faithful(h: seq<Entry>, s: Segment) {
    && 1 <= s.firstSeqNo <= s.lastSeqNo <= |h|
    && (forall i :: s.firstSeqNo <= i + 1 <= s.lastSeqNo ==> h[i].op.author == s.author)
    && s.firstChecksum == h[s.firstSeqNo - 1].op.checksum
    && s.firstOffset == h[s.firstSeqNo - 1].op.firstOffset
    && s.lastOffset == h[s.lastSeqNo - 1].op.lastOffset
    && !h[s.firstSeqNo - 1].op.body.NoOp?
    && !h[s.lastSeqNo - 1].op.body.NoOp?
  }

  ghost predicate AllFaithful(h: seq<Entry>, segs: seq<Segment>) {
    forall i :: 0 <= i < |segs| ==> Faithful(h, segs[i])
  }

  lemma FaithfulIsValid(h: seq<Entry>, s: Segment)
    requires AuthorsAreRuns(h) && OffsetsAreOrdered(h) && Faithful(h, s)
    ensures Validate(s) && WellFormed(s)
  {
    assert OffsetsOrdered(h[s.firstSeqNo - 1].op, h[s.lastSeqNo - 1].op);
    assert ValidOffsets(h[s.firstSeqNo - 1].op) && ValidOffsets(h[s.lastSeqNo - 1].op);
    assert h[s.firstSeqNo - 1].op.author == s.author;
  }

  lemma OrderedFaithfulReduce(h: seq<Entry>, a: Segment, b: Segment)
    requires OffsetsAreOrdered(h) && Faithful(h, a) && Faithful(h, b) && !Swaps(a, b)
    ensures !ReduceOrdered(a, b).Inconsistent?
    ensures ReduceOrdered(a, b).Reduced? ==> Faithful(h, ReduceOrdered(a, b).segment)
  {
    var a0, a1 := h[a.firstSeqNo - 1].op, h[a.lastSeqNo - 1].op;
    var b0, b1 := h[b.firstSeqNo - 1].op, h[b.lastSeqNo - 1].op;
    assert OffsetsOrdered(a0, b0);
    if a.lastSeqNo <= b.lastSeqNo {
      assert OffsetsOrdered(a1, b1);
    } else {
      assert OffsetsOrdered(b1, a1);
      assert b1.author == b.author && a1.author == a.author;
      assert h[b.firstSeqNo - 1].op.author == a.author;
    }
    if b.firstSeqNo <= a.lastSeqNo {
      assert h[b.firstSeqNo - 1].op.author == a.author == b.author;
    }
    if ReduceOrdered(a, b).Reduced? {
      var r := ReduceOrdered(a, b).segment;
      forall i | r.firstSeqNo <= i + 1 <= r.lastSeqNo ensures h[i].op.author == r.author {
        assert Spans(a, i + 1) || Spans(b, i + 1);
      }
    }
  }

  lemma FaithfulReduce(h: seq<Entry>, a: Segment, b: Segment)
    requires OffsetsAreOrdered(h) && Faithful(h, a) && Faithful(h, b)
    ensures !ReduceSegment(a, b).Inconsistent?
    ensures ReduceSegment(a, b).Reduced? ==> Faithful(h, ReduceSegment(a, b).segment)
  {
    if Swaps(a, b) {
      OrderedFaithfulReduce(h, b, a);
    } else {
      OrderedFaithfulReduce(h, a, b);
    }
  }

  lemma {:induction false} FaithfulAbsorb(h: seq<Entry>, segs: seq<Segment>, end: nat, cur: Segment)
    requires OffsetsAreOrdered(h) && AllFaithful(h, segs) && Faithful(h, cur) && end <= |segs|
    ensures Absorb(segs, end, cur).Some? && Faithful(h, Absorb(segs, end, cur).value.1)
    decreases |segs| - end
  {
    if end < |segs| {
      FaithfulReduce(h, segs[end], cur);
      if ReduceSegment(segs[end], cur).Reduced? {
        FaithfulAbsorb(h, segs, end + 1, ReduceSegment(segs[end], cur).segment);
      }
    }
  }

  lemma FaithfulAdd(h: seq<Entry>, segs: seq<Segment>, s: Segment)
    requires AuthorsAreRuns(h) && OffsetsAreOrdered(h) && AllFaithful(h, segs) && Faithful(h, s)
    ensures AddTo(segs, s).Some? && AllFaithful(h, AddTo(segs, s).value)
  {
    hide Faithful, Absorb, ReduceSegment, AuthorsAreRuns, OffsetsAreOrdered;
    FaithfulIsValid(h, s);
    var begin := LowerBound(segs, s.firstSeqNo);
    if begin > 0 {
      FaithfulReduce(h, segs[begin - 1], s);
      if ReduceSegment(segs[begin - 1], s).Reduced? {
        FaithfulSplice(h, segs, begin - 1, ReduceSegment(segs[begin - 1], s).segment);
      } else {
        FaithfulSplice(h, segs, begin, s);
      }
    } else {
      FaithfulSplice(h, segs, begin, s);
    }
  }

  lemma FaithfulSplice(h: seq<Entry>, segs: seq<Segment>, begin: nat, cur: Segment)
    requires OffsetsAreOrdered(h) && AllFaithful(h, segs) && Faithful(h, cur) && begin <= |segs|
    ensures Splice(segs, begin, cur).Some? && AllFaithful(h, Splice(segs, begin, cur).value)
  {
    hide Faithful, Absorb, OffsetsAreOrdered;
    FaithfulAbsorb(h, segs, begin, cur);
    AbsorbAdvances(segs, begin, cur);
  }

  /** Segments of one history can be added in any order: Add never finds them inconsistent. */
  lemma {:induction false} FaithfulAddAll(h: seq<Entry>, segs: seq<Segment>, list: seq<Segment>)
    requires AuthorsAreRuns(h) && OffsetsAreOrdered(h) && AllFaithful(h, segs) && AllFaithful(h, list)
    ensures AddAll(segs, list).Some? && AllFaithful(h, AddAll(segs, list).value)
    decreases list
  {
    if list != [] {
      FaithfulAdd(h, segs, list[0]);
      FaithfulAddAll(h, AddTo(segs, list[0]).value, list[1..]);
    }
  }

  // ---------------------------------------------------------------------------
  // The segments an FSM tracks for a live Fnode.

  ghost predicate HoldsSeqNo(segs: seq<Segment>, n: int) {
    exists i :: 0 <= i < |segs| && Spans(segs[i], n)
  }

  /** The segments of `f` start with its creation, are faithful, and hold every op which touches it. */
  ghost predicate TracksNode(h: seq<Entry>, k: nat, f: Fnode, segs: seq<Segment>)
    requires k <= |h|
  {
    && segs != []
    && segs[0].firstSeqNo == f
    && AllFaithful(h, segs)
    && (forall i :: 0 <= i < |segs| ==> segs[i].lastSeqNo <= k)
    && (forall n :: 0 < f <= n <= k && Touches(h[n - 1].op, f) ==> HoldsSeqNo(segs, n))
  }

  lemma ExtendIsFaithful(h: seq<Entry>, k: nat, segs: seq<Segment>)
    requires AuthorsAreRuns(h) && k < |h| && h[k].op.seqNo == k + 1 && !h[k].op.body.NoOp?
    requires AllFaithful(h, segs) && forall i :: 0 <= i < |segs| ==> segs[i].lastSeqNo <= k
    ensures AllFaithful(h, ExtendSegments(segs, h[k].op))
  {
    var op, l := h[k].op, |segs| - 1;
    var next := ExtendSegments(segs, op);
    if segs != [] && segs[l].author == op.author {
      assert Faithful(h, segs[l]);
      assert h[segs[l].firstSeqNo - 1].op.author == h[k].op.author;
      assert Faithful(h, next[l]);
    } else {
      assert Faithful(h, next[|segs|]);
    }
  }

  /** Extension keeps every SeqNo which was held, and holds the new one. */
  lemma ExtendHolds(segs: seq<Segment>, op: RecordedOp, n: int)
    requires forall i :: 0 <= i < |segs| ==> segs[i].firstSeqNo <= segs[i].lastSeqNo < op.seqNo
    ensures HoldsSeqNo(segs, n) || n == op.seqNo ==> HoldsSeqNo(ExtendSegments(segs, op), n)
  {
    var next := ExtendSegments(segs, op);
    if n == op.seqNo {
      assert Spans(next[|next| - 1], n);
    } else if HoldsSeqNo(segs, n) {
      var i :| 0 <= i < |segs| && Spans(segs[i], n);
      assert Spans(next[i], n);
    }
  }

  lemma ExtendTracks(h: seq<Entry>, k: nat, f: Fnode, segs: seq<Segment>)
    requires AuthorsAreRuns(h) && k < |h| && h[k].op.seqNo == k + 1 && Touches(h[k].op, f)
    requires if segs == [] then f == k + 1 else TracksNode(h, k, f, segs)
    ensures TracksNode(h, k + 1, f, ExtendSegments(segs, h[k].op))
  {
    ExtendIsFaithful(h, k, segs);
    assert forall i :: 0 <= i < |segs| ==> Faithful(h, segs[i]);
    hide AuthorsAreRuns, Faithful, HoldsSeqNo;
    var next := ExtendSegments(segs, h[k].op);
    forall n | 0 < f <= n <= k + 1 && Touches(h[n - 1].op, f) ensures HoldsSeqNo(next, n) {
      ExtendHolds(segs, h[k].op, n);
    }
  }

  lemma {:induction false} LiveNodeIsTracked(h: seq<Entry>, k: nat, f: Fnode)
    requires IsHistory(h) && AuthorsAreRuns(h) && k <= |h|
    requires f in StateAt(h, k).liveNodes
    ensures TracksNode(h, k, f, StateAt(h, k).liveNodes[f].segments)
  {
    hide Apply, ApplyBody, StateAt, Invariant, IsHistory, ExtendSegments, Faithful, AuthorsAreRuns;
    StateAtIsValid(h, k);
    if k > 0 {
      var m := StateAt(h, k - 1);
      HistoryStep(h, k - 1);
      StateAtIsValid(h, k - 1);
      ApplyBodyNode(m, h[k - 1].op, f);
      if f in m.liveNodes {
        LiveNodeIsTracked(h, k - 1, f);
        if Touches(h[k - 1].op, f) {
          ExtendTracks(h, k - 1, f, m.liveNodes[f].segments);
        }
      } else {
        ExtendTracks(h, k - 1, f, []);
      }
    }
  }
}

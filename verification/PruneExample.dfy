/**
 * Two ways in which later hints fail to recover a log which was pruned under older ones. An op of the same Author can
 * extend a Segment over ops which were pruned. And if files are deleted, later hints can end before ops which were
 * pruned, even if a new Author took over. In both cases, playback waits for a pruned op forever.
 */
module PruneExample {
  import opened Common
  import opened Segments
  import opened Fsm
  import opened Hints
  import opened History
  import opened Playback
  import opened RoundTrip
  import opened Player
  import opened Pruning
  import opened GapExample
  import opened LaterHints

  /** The op lies at [10 * seqNo, 10 * seqNo + 10) of the log. */
  function OpAt(seqNo: nat, author: nat, body: Body, data: Bytes): Entry
    requires seqNo > 0
  {
    Entry(RecordedOp(seqNo, Chain(seqNo - 1), author, 10 * seqNo, 10 * seqNo + 10, body), [], data)
  }

  /** The hints are built after "last" was created, and again after "first" was written. */
  const Ops: seq<Entry> := [
    OpAt(1, 1, Create("first"), []),
    OpAt(2, 1, Create("deleted"), []),
    OpAt(3, 1, Unlink(2, "deleted"), []),
    OpAt(4, 1, Create("last"), []),
    OpAt(5, 1, Write(1, 0, 1), [0])
  ]

  function LogOf(h: seq<Entry>): seq<LogEntry> {
    seq(|h|, i requires 0 <= i < |h| => LogEntry(10 * i + 10, h[i].op, h[i].frame, h[i].data))
  }

  const SegA := Segment(1, 1, 10, Zero, 1, 20)
  const SegB := Segment(1, 4, 40, Chain(3), 4, 50)
  const SegC := SegA.(lastSeqNo := 5, lastOffset := 60)

  const Older := FSMHints("log", [FnodeSegments(1, [SegA]), FnodeSegments(4, [SegB])], [])
  const Later := FSMHints("log", [FnodeSegments(1, [SegC]), FnodeSegments(4, [SegB])], [])

  const First := FnodeState({"first"}, [SegA])
  const Deleted := FnodeState({"deleted"}, [Segment(1, 2, 20, Chain(1), 2, 30)])
  const Last := FnodeState({"last"}, [SegB])

  const S1 := State(2, Chain(1), map[], map[1 := First], map["first" := 1], [], [])
  const S2 := State(3, Chain(2), map[], map[1 := First, 2 := Deleted], map["first" := 1, "deleted" := 2], [], [])
  const S3 := State(4, Chain(3), map[], map[1 := First], map["first" := 1], [], [])
  const S4 := State(5, Chain(4), map[], map[1 := First, 4 := Last], map["first" := 1, "last" := 4], [], [])
  const S5 := S4.(nextSeqNo := 6, nextChecksum := Chain(5),
                  liveNodes := map[1 := First.(segments := [SegC]), 4 := Last])

  lemma Extended()
    ensures ExtendSegments([], Ops[0].op) == [SegA]
    ensures ExtendSegments([], Ops[1].op) == Deleted.segments
    ensures ExtendSegments([], Ops[3].op) == [SegB]
    ensures ExtendSegments([SegA], Ops[4].op) == [SegC]
  {
  }

  lemma CreateSteps()
    ensures Apply(EmptyState, Ops[0].op, []) == (S1, NoError)
    ensures Apply(S1, Ops[1].op, []) == (S2, NoError)
    ensures Apply(S3, Ops[3].op, []) == (S4, NoError)
  {
    Extended();
    Chains();
    hide ExtendSegments, Chain;
    assert Apply(EmptyState, Ops[0].op, []).0.links == S1.links;
    assert Apply(S1, Ops[1].op, []).0.links == S2.links;
    assert Apply(S1, Ops[1].op, []).0.liveNodes == S2.liveNodes;
    assert Apply(S3, Ops[3].op, []).0.links == S4.links;
    assert Apply(S3, Ops[3].op, []).0.liveNodes == S4.liveNodes;
  }

  lemma OtherSteps()
    ensures Apply(S2, Ops[2].op, []) == (S3, NoError)
    ensures Apply(S4, Ops[4].op, []) == (S5, NoError)
  {
    Extended();
    Chains();
    hide ExtendSegments, Chain;
    assert S2.liveNodes[2].links - {"deleted"} == {};
    assert S2.links - {"deleted"} == S3.links;
    assert S2.liveNodes - {2} == S3.liveNodes;
    assert Apply(S4, Ops[4].op, []).0.liveNodes == S5.liveNodes;
  }

  lemma IsOurHistory()
    ensures IsHistory(Ops) && StateAt(Ops, 4) == S4 && StateAt(Ops, 5) == S5
  {
    CreateSteps();
    OtherSteps();
    hide Apply, Chain;
    assert StateAt(Ops, 0) == EmptyState;
    assert StateAt(Ops, 1) == S1;
    assert StateAt(Ops, 2) == S2;
    assert StateAt(Ops, 3) == S3;
    assert StateAt(Ops, 4) == S4;
  }

  lemma OpsAre()
    ensures forall i {:trigger Ops[i]} :: 0 <= i < 5 ==>
              var op := Ops[i].op;
              && op.seqNo == i + 1 && op.author == 1 && op.firstOffset == 10 * i + 10 && op.lastOffset == 10 * i + 20
              && WritesAreValid(op) && |Ops[i].data| <= 1 && Ops[i].frame == []
  {
    hide Chain;
  }

  lemma OpsAreOrdered()
    ensures AuthorsAreRuns(Ops) && SingleAuthor(Ops) && OffsetsAreOrdered(Ops)
  {
    OpsAre();
    assert |Ops| == 5;
    hide Chain, Ops, WritesAreValid;
  }

  lemma IsOurLog()
    ensures IsLogOf(Ops, LogOf(Ops)) && OffsetsBound(Ops, LogOf(Ops))
    ensures forall i :: 0 <= i < 5 ==> WritesAreValid(Ops[i].op)
  {
    OpsAre();
    assert |Ops| == 5;
    hide Chain, Ops, WritesAreValid;
  }

  lemma IsOurHintable()
    ensures Hintable(Ops, 5)
    ensures AreHintsOf(Older, StateAt(Ops, 4)) && AreHintsOf(Later, StateAt(Ops, 5))
  {
    IsOurHistory();
    OpsAreOrdered();
    hide Apply, Chain, IsHistory, StateAt, AuthorsAreRuns, OffsetsAreOrdered, OffsetsBound, IsLogOf, SingleAuthor;
  }

  lemma OlderSegments()
    ensures Flatten(Older.liveNodes).Some? && Flatten(Older.liveNodes).value.1 == [SegA, SegB]
  {
    hide Chain, AddAll;
    AddApart(SegA, SegB);
    var nodes := Older.liveNodes;
    assert nodes[..1] == [nodes[0]];
    assert AllSegments(nodes[..1]) == [SegA];
    assert AllSegments(nodes) == [SegA, SegB];
  }

  lemma OlderPrunes()
    ensures forall e: LogEntry :: e.begin == 20 ==> IsLost([SegA, SegB], [Fragment(20, 40)], e)
  {
    hide Chain;
    var open := OpenEnded([SegA, SegB]);
    assert open[..1] == [SegA] && open[..1][..0] == [];
    assert Overlapping([SegA], 20, 40) == [];
    assert IsPruned([SegA, SegB], Fragment(20, 40));
    assert forall e: LogEntry :: e.begin == 20 ==> Meets(Fragment(20, 40), e.begin, EndOf(e));
  }

  lemma LaterHoldsLost()
    requires Flatten(Later.liveNodes).Some?
    ensures !IsDead(CourseOf(Ops, 5, Later), 1)
  {
    hide Chain, Flatten;
    assert Spans(Later.liveNodes[0].segments[0], 2);
    assert HoldsSeqNo(Later.liveNodes[0].segments, 2);
    FlattenHolds(Later.liveNodes, 2);
  }

  lemma LaterIsHarmless()
    ensures Flatten(Later.liveNodes).Some? && GapsAreHarmless(CourseOf(Ops, 5, Later))
  {
    IsOurHintable();
    OpsAreOrdered();
    hide Chain, Ops, StateAt, Flatten, AreHintsOf, SingleAuthor, GapsAreHarmless, HintsHold, NoGap;
    hide AuthorsAreRuns, OffsetsAreOrdered, OffsetsBound, IsLogOf, WritesAreValid, IsHistory, PropertiesAreSinks;
    HintsHoldCourse(Ops, 5, Later);
    SingleAuthorLeavesNoGap(Ops, 5, Later);
    NoGapOfHints(Ops, 5, Later);
  }

  /** The log is pruned under hints, whose Author then writes a file they hint. Later hints don't recover it. */
  lemma PruneBreaksLaterHints()
    returns (h: seq<Entry>, cut: nat, older: FSMHints, later: FSMHints, fragments: seq<Fragment>, log: seq<LogEntry>)
    ensures Hintable(h, |h|) && cut < |h| && OffsetsBound(h, log) && IsLogOf(h, log)
    ensures forall i :: 0 <= i < |h| ==> WritesAreValid(h[i].op)
    ensures AreHintsOf(older, StateAt(h, cut)) && AreHintsOf(later, StateAt(h, |h|))
    ensures Flatten(older.liveNodes).Some? && CourseOf(h, cut, older).segs != []
    ensures InitialState(later).Some? && !Recovers(h, later, Kept(CourseOf(h, cut, older).segs, fragments, log))
  {
    h, cut, older, later, fragments, log := Ops, 4, Older, Later, [Fragment(20, 40)], LogOf(Ops);
    IsOurHintable();
    IsOurLog();
    OlderSegments();
    OlderPrunes();
    LaterIsHarmless();
    LaterHoldsLost();
    HistoryIsUnrepeated(CourseOf(h, 5, later), log);
    hide Carries, IsUnrepeated, Records;
    hide Chain, StateAt, Flatten, AreHintsOf, SingleAuthor, Recovers, Kept, IsPruned, GapsAreHarmless, IsDead, IsLost;
    hide AuthorsAreRuns, OffsetsAreOrdered, OffsetsBound, IsLogOf, WritesAreValid, IsHistory, PropertiesAreSinks;
    hide Hintable;
    assert log[1].begin == 20;
    assert Records(log[1], h[1]);
    NeededLossFails(h, 5, later, [SegA, SegB], fragments, log, 1, 1);
  }

  // ---------------------------------------------------------------------------
  // A new Author

  /** A second Author takes over with a no-op, and deletes the last file. */
  const HandoffOps: seq<Entry> := [
    OpAt(1, 1, Create("first"), []),
    OpAt(2, 1, Create("deleted"), []),
    OpAt(3, 1, Unlink(2, "deleted"), []),
    OpAt(4, 1, Create("last"), []),
    OpAt(5, 2, NoOp, []),
    OpAt(6, 2, Unlink(4, "last"), [])
  ]

  const Final := FSMHints("log", [FnodeSegments(1, [SegA])], [])

  const H5 := S4.(nextSeqNo := 6, nextChecksum := Chain(5))
  const H6 := State(7, Chain(6), map[], map[1 := First], map["first" := 1], [], [])

  lemma HandoffSteps()
    ensures Apply(S4, HandoffOps[4].op, []) == (H5, NoError)
    ensures Apply(H5, HandoffOps[5].op, []) == (H6, NoError)
  {
    Chains();
    hide ExtendSegments, Chain;
    assert H5.liveNodes[4].links - {"last"} == {};
    assert H5.links - {"last"} == H6.links;
    assert H5.liveNodes - {4} == H6.liveNodes;
  }

  lemma IsHandoffHistory()
    ensures IsHistory(HandoffOps) && StateAt(HandoffOps, 4) == S4 && StateAt(HandoffOps, 6) == H6
  {
    CreateSteps();
    OtherSteps();
    HandoffSteps();
    hide Apply, Chain;
    assert StateAt(HandoffOps, 0) == EmptyState;
    assert StateAt(HandoffOps, 1) == S1;
    assert StateAt(HandoffOps, 2) == S2;
    assert StateAt(HandoffOps, 3) == S3;
    assert StateAt(HandoffOps, 4) == S4;
    assert StateAt(HandoffOps, 5) == H5;
  }

  lemma HandoffOpsAre()
    ensures forall i {:trigger HandoffOps[i]} :: 0 <= i < 6 ==>
              var op := HandoffOps[i].op;
              && op.seqNo == i + 1 && op.author == (if i < 4 then 1 else 2)
              && op.firstOffset == 10 * i + 10 && op.lastOffset == 10 * i + 20
              && WritesAreValid(op) && HandoffOps[i].data == [] && HandoffOps[i].frame == []
  {
    hide Chain;
  }

  lemma HandoffIsOrdered()
    ensures AuthorsAreRuns(HandoffOps) && OffsetsAreOrdered(HandoffOps) && AuthorsAreFresh(HandoffOps, 4)
  {
    HandoffOpsAre();
    assert |HandoffOps| == 6;
    hide Chain, HandoffOps, WritesAreValid;
  }

  lemma IsHandoffLog()
    ensures IsLogOf(HandoffOps, LogOf(HandoffOps)) && OffsetsBound(HandoffOps, LogOf(HandoffOps))
    ensures forall i :: 0 <= i < 6 ==> WritesAreValid(HandoffOps[i].op)
  {
    HandoffOpsAre();
    assert |HandoffOps| == 6;
    hide Chain, HandoffOps, WritesAreValid;
  }

  lemma IsHandoffHintable()
    ensures Hintable(HandoffOps, 6)
    ensures AreHintsOf(Older, StateAt(HandoffOps, 4)) && AreHintsOf(Final, StateAt(HandoffOps, 6))
  {
    IsHandoffHistory();
    HandoffIsOrdered();
    hide Apply, Chain, IsHistory, StateAt, AuthorsAreRuns, OffsetsAreOrdered, AuthorsAreFresh;
  }

  /** The final hints end before ops which the older ones prune. */
  lemma FinalCourse()
    ensures Flatten(Final.liveNodes).Some?
    ensures var c := CourseOf(HandoffOps, 6, Final); c.Last() == 1 && GapsAreHarmless(c) && !IsDead(c, 1)
  {
    hide Chain, HandoffOps;
    var nodes := Final.liveNodes;
    assert nodes[..0] == [];
    assert AllSegments(nodes) == [SegA];
    assert Splice([], 0, SegA).value == [SegA];
    assert AddTo([], SegA) == Some([SegA]);
    assert [SegA][1..] == [];
    assert AddAll([], [SegA]) == Some([SegA]);
    assert Fnodes(nodes) == [1];
  }

  /**
   * The log is pruned under hints which were written as a new Author took over. Later hints end before the ops which
   * were pruned, and don't recover it.
   */
  lemma PruneBreaksAfterHandoff()
    returns (h: seq<Entry>, cut: nat, older: FSMHints, later: FSMHints, fragments: seq<Fragment>, log: seq<LogEntry>)
    ensures Hintable(h, |h|) && cut < |h| && OffsetsBound(h, log) && IsLogOf(h, log) && AuthorsAreFresh(h, cut)
    ensures forall i :: 0 <= i < |h| ==> WritesAreValid(h[i].op)
    ensures AreHintsOf(older, StateAt(h, cut)) && AreHintsOf(later, StateAt(h, |h|))
    ensures Flatten(older.liveNodes).Some? && CourseOf(h, cut, older).segs != []
    ensures InitialState(later).Some? && !Recovers(h, later, Kept(CourseOf(h, cut, older).segs, fragments, log))
  {
    h, cut, older, later, fragments, log := HandoffOps, 4, Older, Final, [Fragment(20, 40)], LogOf(HandoffOps);
    IsHandoffHintable();
    HandoffIsOrdered();
    IsHandoffLog();
    OlderSegments();
    OlderPrunes();
    FinalCourse();
    HistoryIsUnrepeated(CourseOf(h, 6, later), log);
    hide Carries, IsUnrepeated, Records;
    hide Chain, StateAt, Flatten, AreHintsOf, Recovers, Kept, IsPruned, GapsAreHarmless, IsDead, IsLost;
    hide AuthorsAreRuns, OffsetsAreOrdered, OffsetsBound, IsLogOf, WritesAreValid, IsHistory, PropertiesAreSinks;
    hide Hintable, AuthorsAreFresh;
    assert log[1].begin == 20;
    assert Records(log[1], h[1]);
    NeededLossFails(h, 6, later, [SegA, SegB], fragments, log, 1, 1);
  }
}

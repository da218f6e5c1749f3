/**
 * Why the round trip asks that gaps of the hints are harmless: across a hand-off, an
 * unlink can fall between hinted segments, and playback then keeps a file which was deleted.
 */
module GapExample {
  import opened Common
  import opened Segments
  import opened Fsm
  import opened Hints
  import opened History
  import opened Playback
  import opened RoundTrip

  function Chain(n: nat): Checksum {
    if n == 0 then Zero else Update(Chain(n - 1), [])
  }

  function Op(seqNo: nat, author: nat, body: Body): Entry
    requires seqNo > 0
  {
    Entry(RecordedOp(seqNo, Chain(seqNo - 1), author, 0, 0, body), [], [])
  }

  /** Author 1 creates two files and writes the first. Author 2 deletes the second and writes the first. */
  const Ops: seq<Entry> := [
    Op(1, 1, Create("kept")),
    Op(2, 1, Create("deleted")),
    Op(3, 1, Write(1, 0, 1)),
    Op(4, 2, Unlink(2, "deleted")),
    Op(5, 2, Write(1, 1, 1))
  ]

  function AsLog(h: seq<Entry>): seq<LogEntry> {
    seq(|h|, i requires 0 <= i < |h| => LogEntry(0, h[i].op, h[i].frame, h[i].data))
  }

  const SegA := Segment(1, 1, 0, Zero, 3, 0)
  const SegB := Segment(2, 5, 0, Chain(4), 5, 0)

  const TheHints := FSMHints("log", [FnodeSegments(1, [SegA, SegB])], [])

  const Node2 := FnodeState({"deleted"}, [Segment(1, 2, 0, Chain(1), 2, 0)])

  /** The states which the history goes through. */
  const S1 := State(2, Chain(1), map[], map[1 := FnodeState({"kept"}, [SegA.(lastSeqNo := 1)])],
                    map["kept" := 1], [], [])
  const S2 := State(3, Chain(2), map[], S1.liveNodes[2 := Node2], map["kept" := 1, "deleted" := 2], [], [])
  const S3 := S2.(nextSeqNo := 4, nextChecksum := Chain(3),
                  liveNodes := map[1 := FnodeState({"kept"}, [SegA]), 2 := Node2])
  const S4 := State(5, Chain(4), map[], map[1 := FnodeState({"kept"}, [SegA])], map["kept" := 1], [], [])
  const S5 := S4.(nextSeqNo := 6, nextChecksum := Chain(5),
                  liveNodes := map[1 := FnodeState({"kept"}, [SegA, SegB])])

  lemma Extensions()
    ensures ExtendSegments([], Ops[0].op) == [SegA.(lastSeqNo := 1)]
    ensures ExtendSegments([], Ops[1].op) == Node2.segments
    ensures ExtendSegments([SegA.(lastSeqNo := 1)], Ops[2].op) == [SegA]
    ensures ExtendSegments([SegA], Ops[4].op) == [SegA, SegB]
  {
  }

  lemma Chains()
    ensures Chain(0) == Zero
    ensures forall n :: 0 < n ==> Chain(n) == Update(Chain(n - 1), [])
  {
  }

  lemma Step1()
    ensures Apply(EmptyState, Ops[0].op, []) == (S1, NoError)
    ensures Apply(P0, Ops[0].op, []) == (P1, NoError)
  {
    Extensions();
    Chains();
    hide ExtendSegments, Chain;
    assert [1][1..] == [];
    assert Apply(EmptyState, Ops[0].op, []).0.links == S1.links;
    assert Apply(P0, Ops[0].op, []).0.links == S1.links;
  }

  lemma Step2()
    ensures Apply(S1, Ops[1].op, []) == (S2, NoError)
    ensures Apply(P1, Ops[1].op, []) == (P2, NoError)
  {
    Extensions();
    Chains();
    hide ExtendSegments, Chain;
    assert Apply(S1, Ops[1].op, []).0.links == S2.links;
    assert Apply(P1, Ops[1].op, []).0.links == S2.links;
  }

  lemma Step3()
    ensures Apply(S2, Ops[2].op, []) == (S3, NoError)
    ensures Apply(P2, Ops[2].op, []) == (P3, NoError)
  {
    Extensions();
    Chains();
    hide ExtendSegments, Chain;
    assert [SegA, SegB][1..] == [SegB];
    assert Apply(S2, Ops[2].op, []).0.liveNodes == S3.liveNodes;
    assert Apply(P2, Ops[2].op, []).0.liveNodes == S3.liveNodes;
  }

  lemma Step4()
    ensures Apply(S3, Ops[3].op, []) == (S4, NoError)
    ensures Apply(P3, Ops[3].op, []) == (P3, ErrWrongSeqNo)
  {
    Chains();
    hide ExtendSegments, Chain;
    assert S3.liveNodes[2].links - {"deleted"} == {};
    assert S3.links - {"deleted"} == S4.links;
    assert S3.liveNodes - {2} == S4.liveNodes;
  }

  lemma Step5()
    ensures Apply(S4, Ops[4].op, []) == (S5, NoError)
    ensures Apply(P3, Ops[4].op, []) == (P5, NoError)
  {
    Extensions();
    Chains();
    hide ExtendSegments, Chain;
    assert [SegB][1..] == [];
    assert Apply(S4, Ops[4].op, []).0.liveNodes == S5.liveNodes;
    assert Apply(P3, Ops[4].op, []).0.liveNodes == P5.liveNodes;
  }

  lemma IsTheHistory()
    ensures IsHistory(Ops) && StateAt(Ops, 5) == S5
  {
    Step1(); Step2(); Step3(); Step4(); Step5();
    hide Apply, Chain;
    assert StateAt(Ops, 0) == EmptyState;
    assert StateAt(Ops, 1) == S1;
    assert StateAt(Ops, 2) == S2;
    assert StateAt(Ops, 3) == S3;
    assert StateAt(Ops, 4) == S4;
  }

  lemma OpsAreOrdered()
    ensures AuthorsAreRuns(Ops) && OffsetsAreOrdered(Ops)
  {
    assert forall i {:trigger Ops[i]} :: 0 <= i < 5 ==>
      var op := Ops[i].op; op.author == (if i < 3 then 1 else 2) && op.firstOffset == 0 && op.lastOffset == 0;
    assert |Ops| == 5;
    hide Ops, Chain;
  }

  lemma IsHintable()
    ensures Hintable(Ops, 5)
  {
    IsTheHistory();
    OpsAreOrdered();
    hide Apply, Chain, IsHistory, StateAt, AuthorsAreRuns, OffsetsAreOrdered;
  }

  lemma AddApart(a: Segment, b: Segment)
    requires Validate(a) && Validate(b) && a.firstSeqNo < b.firstSeqNo && ReduceSegment(a, b) == NotReducible
    ensures AddAll([], [a, b]) == Some([a, b])
  {
    hide ReduceSegment, Validate;
    assert Splice([], 0, a).value == [a];
    assert AddTo([], a) == Some([a]);
    assert LowerBound([a], b.firstSeqNo) == 1;
    assert Splice([a], 1, b).value == [a, b];
    assert AddTo([a], b) == Some([a, b]);
    assert [a, b][1..] == [b] && [b][1..] == [];
    assert AddAll([a], [b]) == Some([a, b]);
  }

  lemma FlattenedHints()
    ensures AreHintsOf(TheHints, S5)
    ensures Flatten(TheHints.liveNodes) == Some(([1], [SegA, SegB]))
  {
    hide Chain, AddAll;
    var nodes := TheHints.liveNodes;
    assert nodes[..0] == [];
    assert AllSegments(nodes) == [SegA, SegB];
    AddApart(SegA, SegB);
    assert Fnodes(nodes) == [1];
  }

  /** The states which the player goes through: it skips the unlink, and keeps the deleted file. */
  const P0 := State(1, Zero, map[], map[], map[], [SegA, SegB], [1])
  const P1 := S1.(hintedSegments := [SegA, SegB])
  const P2 := S2.(hintedSegments := [SegA, SegB])
  const P3 := S3.(nextSeqNo := 5, nextChecksum := Chain(4), hintedSegments := [SegB])
  const P5 := S3.(nextSeqNo := 6, nextChecksum := Chain(5),
                  liveNodes := map[1 := FnodeState({"kept"}, [SegA, SegB]), 2 := Node2])

  lemma PlayedLog()
    ensures Play(P0, AsLog(Ops)) == P5
  {
    Step1(); Step2(); Step3(); Step4(); Step5();
    hide Apply, Chain;
    var log := AsLog(Ops);
    assert log[1..][1..] == log[2..] && log[2..][1..] == log[3..] && log[3..][1..] == log[4..] && log[4..][1..] == [];
    assert Play(P5, []) == P5;
    assert Play(P3, log[4..]) == P5;
    assert Play(P3, log[3..]) == P5;
    assert Play(P2, log[2..]) == P5;
    assert Play(P1, log[1..]) == P5;
  }

  lemma {:induction false} CarriesItself(c: Course, k: nat)
    requires k <= |c.h| && forall i :: 0 <= i < |c.h| ==> c.h[i].op.firstOffset == 0
    ensures Carries(c, k, AsLog(c.h)[k..])
    decreases |c.h| - k
  {
    if k < |c.h| {
      assert AsLog(c.h)[k..][1..] == AsLog(c.h)[k + 1..];
      CarriesItself(c, k + 1);
    }
  }

  /**
   * With two Authors the round trip can fail. This log carries nothing but the history, and its hints
   * are accepted and used up, yet playback ends with a file which the history deleted.
   */
  lemma GapHidesUnlink() returns (h: seq<Entry>, hints: FSMHints, log: seq<LogEntry>)
    ensures Hintable(h, |h|) && hints.log != "" && AreHintsOf(hints, StateAt(h, |h|))
    ensures InitialState(hints).Some? && Carries(CourseOf(h, |h|, hints), 0, log)
    ensures var p := Play(InitialState(hints).value, log);
            && !HasRemainingHints(p)
            && "deleted" in p.links && "deleted" !in StateAt(h, |h|).links
  {
    h, hints, log := Ops, TheHints, AsLog(Ops);
    IsHintable();
    IsTheHistory();
    FlattenedHints();
    hide Chain, Hintable, StateAt, Play, Carries, Flatten, AreHintsOf, AsLog;
    assert InitialState(hints) == Some(P0);
    PlayedLog();
    CarriesItself(CourseOf(h, |h|, hints), 0);
    assert AsLog(h)[0..] == AsLog(h);
  }
}

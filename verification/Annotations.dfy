/**
 * Histories which are equal but for the offsets that are known of their ops. A Recorder knows where in the log its ops
 * begin at the earliest; a Player knows where those that it reads begin and end.
 */
module Annotations {
  import opened Common
  import opened Segments
  import opened Fsm
  import opened Hints
  import opened History
  import opened Playback
  import opened RoundTrip
  import opened Player

  predicate SameEntry(x: Entry, y: Entry) {
    SameOp(x.op, y.op) && x.frame == y.frame && x.data == y.data
  }

  ghost predicate SameOps(h: seq<Entry>, h': seq<Entry>) {
    |h| == |h'| && forall i :: 0 <= i < |h| ==> SameEntry(h'[i], h[i])
  }

  // ---------------------------------------------------------------------------
  // Offsets don't matter to a history

  const NoneHinted := FSMHints("log", [], [])

  /** The course of a player without hints. */
  function WholeCourse(h: seq<Entry>): Course {
    Course(h, 0, [], [])
  }

  lemma NoneIsHinted(h: seq<Entry>)
    ensures AreHintsOf(NoneHinted, StateAt(h, 0)) && PropertiesAreSinks(h, StateAt(h, 0).properties)
    ensures Flatten(NoneHinted.liveNodes) == Some(([], []))
  {
    assert AllSegments(NoneHinted.liveNodes) == [];
    assert AddAll([], []) == Some([]);
    assert Fnodes(NoneHinted.liveNodes) == [];
  }

  lemma WholeIsCourse(h: seq<Entry>)
    requires IsHistory(h) && OffsetsAreOrdered(h)
    ensures IsCourse(WholeCourse(h)) && Start(WholeCourse(h)) == EmptyState
  {
    hide IsHistory, OffsetsAreOrdered;
    NoneIsHinted(h);
  }

  /** The ops of `h'`, read at offsets where they record those of `h`. */
  function ReadAs(h: seq<Entry>, h': seq<Entry>): (log: seq<LogEntry>)
    requires |h| == |h'|
    ensures |log| == |h|
  {
    seq(|h|, i requires 0 <= i < |h| => LogEntry(h[i].op.firstOffset, h'[i].op, h'[i].frame, h'[i].data))
  }

  lemma {:induction false} SameFollows(h: seq<Entry>, h': seq<Entry>, k: nat)
    requires IsHistory(h) && OffsetsAreOrdered(h) && SameOps(h, h') && k <= |h|
    ensures Follows(WholeCourse(h), k, StateAt(h', k))
    ensures StateAt(h', k).nextSeqNo == k + 1 && StateAt(h', k).hintedSegments == []
    ensures StateAt(h', k).nextChecksum == StateAt(h, k).nextChecksum
  {
    hide Apply, IsHistory, OffsetsAreOrdered, IsCourse, Invariant, Mirrors;
    var c := WholeCourse(h);
    WholeIsCourse(h);
    if k == 0 {
      StartFollows(c);
    } else {
      SameFollows(h, h', k - 1);
      var e := LogEntry(h[k - 1].op.firstOffset, h'[k - 1].op, h'[k - 1].frame, h'[k - 1].data);
      assert SameEntry(h'[k - 1], h[k - 1]);
      FollowRecord(c, k - 1, StateAt(h', k - 1), e);
    }
    WholeInStep(c, k, StateAt(h', k));
  }

  lemma WholeInStep(c: Course, k: nat, p: State)
    requires c.segs == [] && c.cut <= |c.h| && k <= |c.h| && Follows(c, k, p)
    ensures p.hintedSegments == [] && p.nextSeqNo == k + 1 && p.nextChecksum == c.At(k).nextChecksum
  {
    hide StateAt, Invariant, Mirrors, FnodesRemain;
  }

  /** If the ops are those of a history, it's a history, whatever their offsets. */
  lemma SameIsHistory(h: seq<Entry>, h': seq<Entry>)
    requires IsHistory(h) && OffsetsAreOrdered(h) && SameOps(h, h')
    ensures IsHistory(h')
  {
    LengthsAreSame(h, h');
    hide OffsetsAreOrdered, SameOps, StateAt, Apply;
    forall k | 0 <= k < |h'| ensures Transitions(Apply(StateAt(h', k), h'[k].op, h'[k].frame).1) {
      SameTransitions(h, h', k);
    }
  }

  lemma SameTransitions(h: seq<Entry>, h': seq<Entry>, k: nat)
    requires IsHistory(h) && OffsetsAreOrdered(h) && SameOps(h, h') && k < |h'|
    ensures Transitions(Apply(StateAt(h', k), h'[k].op, h'[k].frame).1)
  {
    LengthsAreSame(h, h');
    hide IsHistory, OffsetsAreOrdered, SameOps, Follows, Apply, Invariant;
    SameFollows(h, h', k);
    SameFollows(h, h', k + 1);
    FollowsInvariant(WholeCourse(h), k, StateAt(h', k));
    ApplyKeepsInvariant(StateAt(h', k), h'[k].op, h'[k].frame);
  }

  lemma LengthsAreSame(h: seq<Entry>, h': seq<Entry>)
    requires SameOps(h, h')
    ensures |h| == |h'|
  {
  }

  /** Playing all ops of a history from one of its states on. */
  lemma {:induction false} PlaysOn(h: seq<Entry>, log: seq<LogEntry>, k: nat)
    requires IsHistory(h) && |log| == |h| && k <= |h| && forall i :: 0 <= i < |h| ==> WritesAreValid(h[i].op)
    requires forall i :: 0 <= i < |h| ==> log[i].op == h[i].op && log[i].frame == h[i].frame && log[i].data == h[i].data
    ensures PlayLog(Playing(StateAt(h, k), FilesAt(h, k)), log[k..]) == Some(Playing(StateAt(h, |h|), FilesAt(h, |h|)))
    decreases |h| - k
  {
    hide Apply, IsHistory, Reenact, WritesAreValid;
    if k < |h| {
      PlaysOn(h, log, k + 1);
      FilesAtMatch(h, k);
      StateAtIsValid(h, k);
      NoHints(StateAt(h, k));
      assert log[k..][0] == log[k] && log[k..][1..] == log[k + 1..];
    }
  }

  /** Histories of the same ops end in the same state, but for offsets, and in the same directory. */
  lemma SameHistory(h: seq<Entry>, h': seq<Entry>)
    requires IsHistory(h) && AuthorsAreRuns(h) && OffsetsAreOrdered(h) && SameOps(h, h')
    requires forall i :: 0 <= i < |h| ==> WritesAreValid(h[i].op)
    ensures IsHistory(h') && SameState(StateAt(h', |h|), StateAt(h, |h|))
    ensures forall i :: 0 <= i < |h'| ==> WritesAreValid(h'[i].op)
    ensures DirectoryAt(h', |h|) == DirectoryAt(h, |h|)
  {
    SameIsHistory(h, h');
    NoneIsHinted(h);
    var log := ReadAs(h, h');
    ReadIsValid(h, h');
    var c := WholeCourse(h);
    ReadCarries(h, h', 0);
    assert log[0..] == log;
    assert PlayLog(Playing(EmptyState, map[]), log) == Some(Playing(StateAt(h', |h|), FilesAt(h', |h|))) by {
      PlaysOn(h', log, 0);
    }
    hide StateAt, IsHistory, OffsetsAreOrdered, AuthorsAreRuns, Carries, PropertiesAreSinks, Directory, PlayLog;
    hide SameState;
    assert GapsAreHarmless(c);
    FilesRoundTrip(h, 0, NoneHinted, log);
  }

  lemma ReadIsValid(h: seq<Entry>, h': seq<Entry>)
    requires SameOps(h, h') && forall i :: 0 <= i < |h| ==> WritesAreValid(h[i].op)
    ensures forall i :: 0 <= i < |h'| ==> WritesAreValid(h'[i].op)
  {
    forall i | 0 <= i < |h'| ensures WritesAreValid(h'[i].op) {
      assert SameEntry(h'[i], h[i]) && WritesAreValid(h[i].op);
    }
  }

  lemma {:induction false} ReadCarries(h: seq<Entry>, h': seq<Entry>, k: nat)
    requires SameOps(h, h') && k <= |h|
    ensures Carries(WholeCourse(h), k, ReadAs(h, h')[k..])
    decreases |h| - k
  {
    hide IsDead, Noise;
    if k < |h| {
      var log := ReadAs(h, h');
      ReadCarries(h, h', k + 1);
      assert log[k..][0] == log[k] && log[k..][1..] == log[k + 1..];
      assert SameEntry(h'[k], h[k]);
    }
  }

  // ---------------------------------------------------------------------------
  // Offsets which a player tracks are those of the log

  ghost predicate SegmentAgrees(h: seq<Entry>, s: Segment) {
    && 1 <= s.firstSeqNo <= |h| && 1 <= s.lastSeqNo <= |h|
    && s.firstOffset == h[s.firstSeqNo - 1].op.firstOffset && s.lastOffset == h[s.lastSeqNo - 1].op.lastOffset
  }

  ghost predicate SegmentsAgree(h: seq<Entry>, segs: seq<Segment>) {
    forall i :: 0 <= i < |segs| ==> SegmentAgrees(h, segs[i])
  }

  /** All Segments which the state tracks have the offsets of `h`. */
  ghost predicate Agrees(h: seq<Entry>, p: State) {
    forall f :: f in p.liveNodes ==> SegmentsAgree(h, p.liveNodes[f].segments)
  }

  lemma ExtendAgrees(h: seq<Entry>, segs: seq<Segment>, op: RecordedOp)
    requires SegmentsAgree(h, segs) && 1 <= op.seqNo <= |h| && op == h[op.seqNo - 1].op
    ensures SegmentsAgree(h, ExtendSegments(segs, op))
  {
  }

  lemma BodyAgrees(h: seq<Entry>, p: State, op: RecordedOp)
    requires Agrees(h, p) && 1 <= op.seqNo <= |h| && op == h[op.seqNo - 1].op && op.seqNo !in p.liveNodes
    requires Transitions(ApplyBody(p, op).1)
    ensures Agrees(h, ApplyBody(p, op).0)
  {
    hide ApplyBody, ExtendSegments, SegmentsAgree;
    var n := ApplyBody(p, op).0;
    forall f | f in n.liveNodes ensures SegmentsAgree(h, n.liveNodes[f].segments) {
      ApplyBodyNode(p, op, f);
      NoneAgree(h);
      ExtendAgrees(h, [], op);
      if f in p.liveNodes {
        ExtendAgrees(h, p.liveNodes[f].segments, op);
      }
    }
  }

  lemma NoneAgree(h: seq<Entry>)
    ensures SegmentsAgree(h, [])
  {
  }

  /** If what the player applies is as it is in `h`, then so is what it tracks. */
  lemma PlayedAgrees(h: seq<Entry>, p: State, e: LogEntry)
    requires Invariant(p) && Agrees(h, p)
    requires e.op.seqNo == p.nextSeqNo ==> 1 <= e.op.seqNo <= |h| && e.op == h[e.op.seqNo - 1].op
    ensures Agrees(h, PlayOne(p, e))
  {
    hide ApplyBody, Agrees, Advance;
    if e.op.seqNo == p.nextSeqNo && Transitions(ApplyBody(p, e.op).1) {
      NextIsNotLive(p);
      BodyAgrees(h, p, e.op);
      AdvanceKeeps(ApplyBody(p, e.op).0, e.frame);
      SameNodesAgree(h, ApplyBody(p, e.op).0, Advance(ApplyBody(p, e.op).0, e.frame));
    }
  }

  lemma SameNodesAgree(h: seq<Entry>, p: State, q: State)
    requires p.liveNodes == q.liveNodes
    ensures Agrees(h, p) ==> Agrees(h, q)
  {
  }

  /** A state which is the same but for offsets, and has those of the history, is that of the history. */
  lemma AgreesIsExact(h: seq<Entry>, p: State)
    requires IsHistory(h) && AuthorsAreRuns(h) && SameState(p, StateAt(h, |h|)) && Agrees(h, p)
    ensures p == StateAt(h, |h|)
  {
    hide StateAt, IsHistory, AuthorsAreRuns;
    var m := StateAt(h, |h|);
    forall f | f in p.liveNodes ensures p.liveNodes[f] == m.liveNodes[f] {
      LiveNodeIsTracked(h, |h|, f);
      SameSegments(h, p.liveNodes[f], m.liveNodes[f]);
    }
    assert p.liveNodes == m.liveNodes;
  }

  lemma SameSegments(h: seq<Entry>, a: FnodeState, b: FnodeState)
    requires SameNode(a, b) && SegmentsAgree(h, a.segments) && AllFaithful(h, b.segments)
    ensures a == b
  {
    forall i | 0 <= i < |a.segments| ensures a.segments[i] == b.segments[i] {
      assert SameSegment(a.segments[i], b.segments[i]) && SegmentAgrees(h, a.segments[i]);
      assert Faithful(h, b.segments[i]);
    }
  }

  // ---------------------------------------------------------------------------
  // An earlier state of knowledge, and all that followed

  /** The ops, if it's not known where they end. */
  function Unread(h: seq<Entry>): (u: seq<Entry>)
    ensures |u| == |h| && forall i :: 0 <= i < |h| ==> u[i] == h[i].(op := h[i].op.(lastOffset := 0))
  {
    seq(|h|, i requires 0 <= i < |h| => h[i].(op := h[i].op.(lastOffset := 0)))
  }

  /** The history `h`, the leading ops of which were known as `s` when hints were built. */
  function Resumed(s: seq<Entry>, h: seq<Entry>): (r: seq<Entry>)
    requires |s| <= |h|
    ensures |r| == |h| && r[..|s|] == s
    ensures forall i :: 0 <= i < |h| ==> r[i] == if i < |s| then s[i] else h[i].(op := h[i].op.(lastOffset := 0))
  {
    s + Unread(h[|s|..])
  }

  /** `s` are leading ops of `h`, of which no more was known than is now. */
  ghost predicate IsEarlier(s: seq<Entry>, h: seq<Entry>) {
    |s| <= |h| && forall i :: 0 <= i < |s| ==> SameEntry(s[i], h[i]) && s[i].op.firstOffset <= h[i].op.firstOffset
  }

  lemma ResumedIsSame(s: seq<Entry>, h: seq<Entry>)
    requires IsEarlier(s, h)
    ensures SameOps(h, Resumed(s, h)) && IsEarlier(Resumed(s, h), h)
  {
  }

  /** Who built the hints doesn't know where its own ops end. */
  lemma ResumedIsOrdered(s: seq<Entry>, h: seq<Entry>)
    requires IsEarlier(s, h) && OffsetsAreOrdered(s) && OffsetsAreOrdered(h)
    requires forall i, j :: 0 <= i < |s| <= j < |h| && s[i].op.author == h[j].op.author && !s[i].op.body.NoOp? ==>
               s[i].op.lastOffset == 0
    ensures OffsetsAreOrdered(Resumed(s, h))
  {
    var r := Resumed(s, h);
    hide Resumed;
    forall i | 0 <= i < |r| ensures ValidOffsets(r[i].op) {
      assert ValidOffsets(h[i].op) && (i < |s| ==> ValidOffsets(s[i].op));
    }
    forall i, j | 0 <= i <= j < |r| ensures OffsetsOrdered(r[i].op, r[j].op) {
      assert OffsetsOrdered(h[i].op, h[j].op) && (j < |s| ==> OffsetsOrdered(s[i].op, s[j].op));
    }
  }

  lemma {:induction false} StateAtTake(h: seq<Entry>, n: nat, k: nat)
    requires k <= n <= |h|
    ensures StateAt(h[..n], k) == StateAt(h, k)
  {
    hide Apply;
    if k > 0 {
      StateAtTake(h, n, k - 1);
    }
  }
}

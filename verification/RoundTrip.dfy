/**
 * The hint round trip: a player with the hints of an FSM, reading a log which carries that FSM's
 * history among the writes of others, arrives at the same state (pkg/recoverylog/fsm.go).
 */
module RoundTrip {
  import opened Common
  import opened Segments
  import opened Fsm
  import opened Hints
  import opened History
  import opened Playback

  // ---------------------------------------------------------------------------
  // Logs which carry a history

  /** The log entry is the op of the history, at or after the offset its Recorder knew of. */
  predicate Records(e: LogEntry, x: Entry) {
    SameOp(e.op, x.op) && e.frame == x.frame && e.data == x.data && x.op.firstOffset <= e.begin
  }

  /**
   * An entry which is not of the history, read after `k` ops of it. It may repeat a SeqNo which went by.
   * While hints remain, it may be anything which is not both of the Author and on the checksum chain of
   * the history. After that, it must not extend the chain.
   */
  predicate Noise(c: Course, k: nat, e: LogEntry)
    requires k <= |c.h|
  {
    || e.op.seqNo <= k
    || (if k < c.Last() then
          e.op.seqNo <= |c.h| ==>
            e.op.author != c.h[e.op.seqNo - 1].op.author || e.op.checksum != c.h[e.op.seqNo - 1].op.checksum
        else
          e.op.seqNo != k + 1 || e.op.checksum != c.At(k).nextChecksum)
  }

  /** The hints leave out the op after the first `k`, though hinted ops follow it. */
  ghost predicate IsDead(c: Course, k: nat) {
    k + 1 < c.Last() && !HoldsSeqNo(c.segs, k + 1)
  }

  /**
   * The log holds the ops of the history from the `k`-th on, in order, and noise. Ops which the hints leave
   * out may be missing, as the log may have been pruned.
   */
  ghost predicate Carries(c: Course, k: nat, log: seq<LogEntry>)
    requires k <= |c.h|
    decreases |log| + |c.h| - k
  {
    || (log == [] && k == |c.h|)
    || (k < |c.h| && IsDead(c, k) && Carries(c, k + 1, log))
    || (k < |c.h| && log != [] && Records(log[0], c.h[k]) && Carries(c, k + 1, log[1..]))
    || (log != [] && Noise(c, k, log[0]) && Carries(c, k, log[1..]))
  }

  // ---------------------------------------------------------------------------
  // Following a log

  /** The player is unmoved by noise. */
  lemma FollowNoise(c: Course, k: nat, p: State, e: LogEntry)
    requires IsCourse(c) && k <= |c.h| && Follows(c, k, p) && Noise(c, k, e)
    ensures PlayOne(p, e) == p
  {
    hide ApplyBody, Advance, StateAt, IsHistory, Invariant, OffsetsAreOrdered, GapsAreHarmless, PropertiesAreSinks;
    hide Mirrors, FnodesRemain;
    if p.hintedSegments != [] {
      NextIsHinted(c, k, p);
      assert p.hintedSegments[0] == c.segs[|c.segs| - |p.hintedSegments|];
      assert Faithful(c.h, p.hintedSegments[0]);
    }
  }

  /** A hinted offset never skips the op which the player waits for. */
  lemma SeekIsSafe(c: Course, k: nat, p: State, e: LogEntry)
    requires IsCourse(c) && k < |c.h| && InStep(c, k, p) && k + 1 == p.nextSeqNo && Records(e, c.h[k])
    ensures p.hintedSegments != [] ==> p.hintedSegments[0].firstOffset <= e.begin
  {
    hide Apply, ApplyBody, StateAt, IsHistory, Invariant, GapsAreHarmless, PropertiesAreSinks;
    if p.hintedSegments != [] {
      assert p.hintedSegments[0] == c.segs[|c.segs| - |p.hintedSegments|];
      assert Faithful(c.h, p.hintedSegments[0]);
      assert OffsetsOrdered(c.h[p.hintedSegments[0].firstSeqNo - 1].op, c.h[k].op);
    }
  }

  lemma FollowRecord(c: Course, k: nat, p: State, e: LogEntry)
    requires IsCourse(c) && k < |c.h| && Follows(c, k, p) && Records(e, c.h[k])
    ensures Follows(c, k + 1, PlayOne(p, e))
  {
    hide Apply, ApplyBody, StateAt, IsHistory, Invariant, OffsetsAreOrdered, GapsAreHarmless, PropertiesAreSinks;
    hide HintsHold, Follows;
    StateAtIsValid(c.h, k);
    if k + 1 == p.nextSeqNo {
      assert InStep(c, k, p) by { FollowsInStep(c, k, p); }
      SeekIsSafe(c, k, p, e);
      FollowPlayed(c, k, p, e.op);
    } else {
      FollowGap(c, k, p);
      WrongSeqNo(p, e.op, e.frame);
    }
  }

  lemma FollowsInStep(c: Course, k: nat, p: State)
    requires c.cut <= |c.h| && k <= |c.h| && Follows(c, k, p)
    ensures InStep(c, k, p)
  {
    hide InStep, Invariant, StateAt, Mirrors;
  }

  lemma WrongSeqNo(p: State, op: RecordedOp, frame: Bytes)
    requires op.seqNo != p.nextSeqNo
    ensures Apply(p, op, frame).0 == p
  {
    hide ApplyBody, Advance;
  }

  /** The player does not wait for a dead op, so it does not miss it. */
  lemma FollowDead(c: Course, k: nat, p: State)
    requires IsCourse(c) && k < |c.h| && Follows(c, k, p) && IsDead(c, k)
    ensures k + 1 != p.nextSeqNo && Follows(c, k + 1, p)
  {
    hide Apply, StateAt, Invariant, IsHistory, OffsetsAreOrdered, HoldsSeqNo, GapsAreHarmless, PropertiesAreSinks;
    hide Mirrors, FnodesRemain, IsSegmentSet, AllFaithful;
    if p.hintedSegments != [] {
      NextIsHinted(c, k, p);
    }
    FollowGap(c, k, p);
  }

  lemma {:induction false} FollowLog(c: Course, k: nat, p: State, log: seq<LogEntry>)
    requires IsCourse(c) && k <= |c.h| && Follows(c, k, p) && Carries(c, k, log)
    ensures Follows(c, |c.h|, Play(p, log))
    decreases |log| + |c.h| - k
  {
    hide Apply, ApplyBody, StateAt, Invariant, IsCourse, Follows, Records, Noise, PlayOne, IsDead;
    if log == [] && k == |c.h| {
    } else if k < |c.h| && IsDead(c, k) && Carries(c, k + 1, log) {
      FollowDead(c, k, p);
      FollowLog(c, k + 1, p, log);
    } else if k < |c.h| && log != [] && Records(log[0], c.h[k]) && Carries(c, k + 1, log[1..]) {
      FollowRecord(c, k, p, log[0]);
      FollowLog(c, k + 1, PlayOne(p, log[0]), log[1..]);
    } else {
      FollowNoise(c, k, p, log[0]);
      FollowLog(c, k, p, log[1..]);
    }
  }

  // ---------------------------------------------------------------------------
  // The first and the last state

  /** Where NewFSM starts, for the hinted segments and Fnodes of a course. */
  function Start(c: Course): State
    requires c.cut <= |c.h|
  {
    State(
      if c.segs == [] then 1 else c.segs[0].firstSeqNo,
      if c.segs == [] then Zero else c.segs[0].firstChecksum,
      c.At(c.cut).properties, map[], map[], c.segs, c.fnodes)
  }

  lemma StartFollows(c: Course)
    requires IsCourse(c)
    ensures Follows(c, 0, Start(c))
  {
    hide Apply, ApplyBody, IsHistory, OffsetsAreOrdered, GapsAreHarmless, PropertiesAreSinks;
    var p := Start(c);
    assert c.segs != [] ==> p.hintedSegments == c.segs[|c.segs| - |p.hintedSegments|..];
    assert c.segs != [] ==> Faithful(c.h, c.segs[0]);
    forall n | 0 < n < p.nextSeqNo && c.segs != [] ensures !HoldsSeqNo(c.segs, n) {
      BeforeSegments(c.segs, n);
    }
    assert forall i :: 0 <= i < |c.fnodes| ==> c.fnodes[i] in c.fnodes;
    assert FnodesRemain(c.fnodes, 0, c.fnodes);
    StateAtIsValid(c.h, 0);
  }

  lemma BeforeSegments(segs: seq<Segment>, n: int)
    requires IsSegmentSet(segs) && segs != [] && n < segs[0].firstSeqNo
    ensures !HoldsSeqNo(segs, n)
  {
    forall i | 0 <= i < |segs| ensures !Spans(segs[i], n) {
      if i > 0 {
        assert Precedes(segs[0], segs[i]);
      }
    }
  }

  /** A Fnode which is live at the end of the history is tracked: none is lost to the hints. */
  lemma LiveIsTracked(c: Course, f: Fnode)
    requires IsCourse(c) && f in c.At(|c.h|).liveNodes
    ensures Tracked(c, f) && IsExact(c, f)
  {
    hide Apply, ApplyBody, StateAt, IsHistory, Invariant, OffsetsAreOrdered, GapsAreHarmless, PropertiesAreSinks;
    hide AllFaithful, IsSegmentSet;
    if f <= c.cut {
      LiveBefore(c.h, c.cut, |c.h|, f);
    } else if c.fnodes != [] {
      StateAtIsValid(c.h, c.cut);
      assert c.fnodes[|c.fnodes| - 1] in c.fnodes;
    }
  }

  lemma EndIsExhausted(c: Course, p: State)
    requires IsCourse(c) && Follows(c, |c.h|, p)
    ensures !HasRemainingHints(p)
    ensures p.nextSeqNo == |c.h| + 1 && p.nextChecksum == c.At(|c.h|).nextChecksum
  {
    hide Apply, ApplyBody, StateAt, IsHistory, Invariant, OffsetsAreOrdered, GapsAreHarmless, PropertiesAreSinks;
    hide AllFaithful, IsSegmentSet, Mirrors;
    StateAtIsValid(c.h, c.cut);
    FirstRemaining(c.fnodes, |c.h|, p.hintedFnodes);
  }

  lemma FirstRemaining(fnodes: seq<Fnode>, k: nat, remaining: seq<Fnode>)
    requires FnodesRemain(fnodes, k, remaining)
    ensures remaining != [] ==> remaining[0] in fnodes && remaining[0] > k
  {
    var j := |fnodes| - |remaining|;
    assert remaining != [] ==> remaining[0] == fnodes[j];
  }

  lemma EndIsSame(c: Course, p: State)
    requires IsCourse(c) && Follows(c, |c.h|, p)
    ensures SameState(p, c.At(|c.h|))
  {
    hide Apply, ApplyBody, StateAt, IsHistory, Consistent, OffsetsAreOrdered, GapsAreHarmless, PropertiesAreSinks;
    hide HintsHold, InStep, FnodesRemain, SameNode;
    EndIsExhausted(c, p);
    StateAtIsValid(c.h, |c.h|);
    var m := c.At(|c.h|);
    forall f | f in m.liveNodes ensures Tracked(c, f) && IsExact(c, f) {
      LiveIsTracked(c, f);
    }
    SameLinks(c, m, p);
    assert forall f :: f in p.liveNodes <==> f in m.liveNodes;
    assert p.liveNodes.Keys == m.liveNodes.Keys;
    assert p.properties == m.properties;
  }

  lemma SameLinks(c: Course, m: State, p: State)
    requires Consistent(m) && Consistent(p) && Mirrors(c, m, p)
    requires forall f :: f in m.liveNodes ==> Tracked(c, f)
    ensures p.links == m.links
  {
    forall path ensures path in p.links <==> path in m.links {
      MirroredLink(c, m, p, path);
    }
    forall path | path in p.links ensures p.links[path] == m.links[path] {
      MirroredLink(c, m, p, path);
    }
  }

  // ---------------------------------------------------------------------------
  // Hints of an FSM

  lemma {:induction false} AllSegmentsOf(nodes: seq<FnodeSegments>, s: Segment)
    ensures s in AllSegments(nodes) <==> exists i :: 0 <= i < |nodes| && s in nodes[i].segments
  {
    if nodes != [] {
      var init := nodes[..|nodes| - 1];
      AllSegmentsOf(init, s);
      if exists i :: 0 <= i < |nodes| && s in nodes[i].segments {
        var i :| 0 <= i < |nodes| && s in nodes[i].segments;
        if i < |init| {
          assert s in init[i].segments;
        }
      }
      if s in AllSegments(init) {
        var i :| 0 <= i < |init| && s in init[i].segments;
        assert s in nodes[i].segments;
      }
    }
  }

  lemma HeldIsCovered(segs: seq<Segment>, n: int)
    ensures HoldsSeqNo(segs, n) <==> exists a :: Covers(segs, n, a)
  {
    if HoldsSeqNo(segs, n) {
      var i :| 0 <= i < |segs| && Spans(segs[i], n);
      assert Claims(segs[i], n, segs[i].author);
      assert Covers(segs, n, segs[i].author);
    }
    if a :| Covers(segs, n, a) {
      var i :| 0 <= i < |segs| && Claims(segs[i], n, a);
      assert Spans(segs[i], n);
    }
  }

  lemma NodesAreTracked(h: seq<Entry>, cut: nat, hints: FSMHints, i: nat)
    requires IsHistory(h) && AuthorsAreRuns(h) && cut <= |h|
    requires AreHintsOf(hints, StateAt(h, cut)) && i < |hints.liveNodes|
    ensures TracksNode(h, cut, hints.liveNodes[i].fnode, hints.liveNodes[i].segments)
  {
    hide StateAt, IsHistory, AuthorsAreRuns, TracksNode;
    assert IsNodeOf(hints.liveNodes[i], StateAt(h, cut));
    LiveNodeIsTracked(h, cut, hints.liveNodes[i].fnode);
  }

  /** All hinted segments are faithful, so NewFSM accepts the hints. */
  lemma HintsAreAccepted(h: seq<Entry>, cut: nat, hints: FSMHints)
    requires IsHistory(h) && AuthorsAreRuns(h) && OffsetsAreOrdered(h) && cut <= |h|
    requires AreHintsOf(hints, StateAt(h, cut))
    ensures Flatten(hints.liveNodes).Some?
    ensures AllFaithful(h, Flatten(hints.liveNodes).value.1)
  {
    hide StateAt, IsHistory, AuthorsAreRuns, OffsetsAreOrdered, Faithful;
    var nodes := hints.liveNodes;
    forall i | 0 <= i < |nodes| ensures TracksNode(h, cut, nodes[i].fnode, nodes[i].segments) {
      NodesAreTracked(h, cut, hints, i);
    }
    var all := AllSegments(nodes);
    forall i | 0 <= i < |all| ensures Faithful(h, all[i]) {
      AllSegmentsOf(nodes, all[i]);
    }
    FaithfulAddAll(h, [], all);
  }

  /** The course which `hints`, built after `cut` ops of `h`, set for a player. */
  function CourseOf(h: seq<Entry>, cut: nat, hints: FSMHints): Course
    requires Flatten(hints.liveNodes).Some?
  {
    var (fnodes, segs) := Flatten(hints.liveNodes).value;
    Course(h, cut, segs, fnodes)
  }

  /** The reduced set holds exactly what the segments of the live Fnodes hold. */
  lemma FlattenHolds(nodes: seq<FnodeSegments>, n: int)
    requires Flatten(nodes).Some?
    ensures HoldsSeqNo(Flatten(nodes).value.1, n) <==> exists i :: 0 <= i < |nodes| && HoldsSeqNo(nodes[i].segments, n)
    ensures IsSegmentSet(Flatten(nodes).value.1)
  {
    var all := AllSegments(nodes);
    var segs := Flatten(nodes).value.1;
    AddAllMeaning([], all);
    HeldIsCovered(segs, n);
    HeldIsCovered(all, n);
    assert HoldsSeqNo(segs, n) <==> HoldsSeqNo(all, n);
    if HoldsSeqNo(all, n) {
      var j :| 0 <= j < |all| && Spans(all[j], n);
      AllSegmentsOf(nodes, all[j]);
      var i :| 0 <= i < |nodes| && all[j] in nodes[i].segments;
      assert HoldsSeqNo(nodes[i].segments, n);
    }
    if i :| 0 <= i < |nodes| && HoldsSeqNo(nodes[i].segments, n) {
      var j :| 0 <= j < |nodes[i].segments| && Spans(nodes[i].segments[j], n);
      AllSegmentsOf(nodes, nodes[i].segments[j]);
    }
  }

  lemma HintsHoldCourse(h: seq<Entry>, cut: nat, hints: FSMHints)
    requires IsHistory(h) && AuthorsAreRuns(h) && OffsetsAreOrdered(h) && cut <= |h|
    requires AreHintsOf(hints, StateAt(h, cut))
    ensures Flatten(hints.liveNodes).Some? && HintsHold(CourseOf(h, cut, hints))
  {
    hide StateAt, IsHistory, AuthorsAreRuns, OffsetsAreOrdered, AllFaithful, HoldsSeqNo, IsSegmentSet, AllSegments;
    hide TracksNode, Touches;
    HintsAreAccepted(h, cut, hints);
    var nodes := hints.liveNodes;
    var c := CourseOf(h, cut, hints);
    FlattenHolds(nodes, 0);
    forall i | 0 <= i < |nodes| ensures TracksNode(h, cut, nodes[i].fnode, nodes[i].segments) {
      NodesAreTracked(h, cut, hints, i);
    }
    LastIsBounded(h, cut, nodes, c);
    EmptyFlatten(nodes);
    forall f ensures f in c.fnodes <==> f in StateAt(h, cut).liveNodes {
      FnodesAreLive(hints, StateAt(h, cut), f);
    }
    hide AreHintsOf;
    forall f | f in c.fnodes ensures 0 < f && HoldsSeqNo(c.segs, f) {
      CreateIsHeld(h, cut, hints, f);
    }
    forall f, n | f in c.fnodes && 0 < f <= n <= cut && Touches(h[n - 1].op, f) ensures HoldsSeqNo(c.segs, n) {
      TouchIsHeld(h, cut, hints, f, n);
    }
  }

  lemma CreateIsHeld(h: seq<Entry>, cut: nat, hints: FSMHints, f: Fnode)
    requires cut <= |h| && Flatten(hints.liveNodes).Some? && f in CourseOf(h, cut, hints).fnodes
    requires forall i :: 0 <= i < |hints.liveNodes| ==>
               TracksNode(h, cut, hints.liveNodes[i].fnode, hints.liveNodes[i].segments)
    ensures 0 < f && HoldsSeqNo(CourseOf(h, cut, hints).segs, f)
  {
    hide TracksNode, HoldsSeqNo, IsSegmentSet;
    var nodes := hints.liveNodes;
    var i :| 0 <= i < |nodes| && nodes[i].fnode == f;
    FirstIsHeld(h, cut, f, nodes[i].segments);
    FlattenHolds(nodes, f);
  }

  lemma TouchIsHeld(h: seq<Entry>, cut: nat, hints: FSMHints, f: Fnode, n: int)
    requires cut <= |h| && Flatten(hints.liveNodes).Some? && f in CourseOf(h, cut, hints).fnodes
    requires forall i :: 0 <= i < |hints.liveNodes| ==>
               TracksNode(h, cut, hints.liveNodes[i].fnode, hints.liveNodes[i].segments)
    requires 0 < f <= n <= cut && Touches(h[n - 1].op, f)
    ensures HoldsSeqNo(CourseOf(h, cut, hints).segs, n)
  {
    hide HoldsSeqNo, IsSegmentSet, AllFaithful, Touches;
    var nodes := hints.liveNodes;
    var i :| 0 <= i < |nodes| && nodes[i].fnode == f;
    assert TracksNode(h, cut, nodes[i].fnode, nodes[i].segments);
    FlattenHolds(nodes, n);
  }

  lemma EmptyFlatten(nodes: seq<FnodeSegments>)
    ensures nodes == [] ==> AddAll([], AllSegments(nodes)) == Some([])
  {
  }

  lemma FirstIsHeld(h: seq<Entry>, cut: nat, f: Fnode, segs: seq<Segment>)
    requires cut <= |h| && TracksNode(h, cut, f, segs)
    ensures 0 < f && HoldsSeqNo(segs, f)
  {
    assert Faithful(h, segs[0]);
    assert Spans(segs[0], f);
  }

  lemma FnodesAreLive(hints: FSMHints, m: State, f: Fnode)
    requires AreHintsOf(hints, m)
    ensures f in Fnodes(hints.liveNodes) <==> f in m.liveNodes
  {
    var fnodes := Fnodes(hints.liveNodes);
    if f in fnodes {
      var i :| 0 <= i < |fnodes| && fnodes[i] == f;
      assert IsNodeOf(hints.liveNodes[i], m);
    }
    if f in m.liveNodes {
      var i :| 0 <= i < |hints.liveNodes| && hints.liveNodes[i] == FnodeSegments(f, m.liveNodes[f].segments);
      assert fnodes[i] == f;
    }
  }

  lemma LastIsBounded(h: seq<Entry>, cut: nat, nodes: seq<FnodeSegments>, c: Course)
    requires cut <= |h| && Flatten(nodes).Some? && c.segs == Flatten(nodes).value.1
    requires forall i :: 0 <= i < |nodes| ==> TracksNode(h, cut, nodes[i].fnode, nodes[i].segments)
    ensures c.Last() <= cut
  {
    hide AllFaithful;
    if c.segs != [] {
      FlattenHolds(nodes, c.Last());
      assert WellFormed(c.segs[|c.segs| - 1]);
      assert Spans(c.segs[|c.segs| - 1], c.Last());
      assert HoldsSeqNo(c.segs, c.Last());
      var i :| 0 <= i < |nodes| && HoldsSeqNo(nodes[i].segments, c.Last());
      assert TracksNode(h, cut, nodes[i].fnode, nodes[i].segments);
      var j :| 0 <= j < |nodes[i].segments| && Spans(nodes[i].segments[j], c.Last());
    }
  }

  // ---------------------------------------------------------------------------
  // The round trip

  /** What the theorems below assume of a history and the point at which its hints are built. */
  ghost predicate Hintable(h: seq<Entry>, cut: nat) {
    && IsHistory(h) && AuthorsAreRuns(h) && OffsetsAreOrdered(h)
    && cut <= |h|
    && PropertiesAreSinks(h, StateAt(h, cut).properties)
  }

  /**
   * Hints which were built after any prefix of a history bring a player through any log which carries the whole
   * history to the state at its end, with no hints left, if gaps which they leave after the last hinted Fnode's
   * creation are harmless. Log offsets which the hints skip are never missed.
   */
  lemma HintRoundTrip(h: seq<Entry>, cut: nat, hints: FSMHints, log: seq<LogEntry>)
    requires Hintable(h, cut) && hints.log != "" && AreHintsOf(hints, StateAt(h, cut))
    requires Flatten(hints.liveNodes).Some? ==>
               var c := CourseOf(h, cut, hints);
               GapsAreHarmless(c) && Carries(c, 0, log)
    ensures InitialState(hints).Some?
    ensures var p := Play(InitialState(hints).value, log);
            !HasRemainingHints(p) && Invariant(p) && SameState(p, StateAt(h, |h|))
  {
    hide StateAt, IsHistory, AuthorsAreRuns, OffsetsAreOrdered, GapsAreHarmless, HintsHold, Carries, Invariant;
    hide Flatten, SameState, PropertiesAreSinks;
    HintsHoldCourse(h, cut, hints);
    var c := CourseOf(h, cut, hints);
    assert InitialState(hints) == Some(Start(c));
    StartFollows(c);
    FollowLog(c, 0, Start(c), log);
    var p := Play(Start(c), log);
    EndIsSame(c, p);
    EndIsExhausted(c, p);
    hide Follows;
    FollowsInvariant(c, |h|, p);
  }

  lemma FollowsInvariant(c: Course, k: nat, p: State)
    requires c.cut <= |c.h| && k <= |c.h| && Follows(c, k, p)
    ensures Invariant(p)
  {
    hide Invariant, InStep, Mirrors, FnodesRemain, StateAt;
  }

  // ---------------------------------------------------------------------------
  // One author leaves no gap

  ghost predicate SingleAuthor(h: seq<Entry>) {
    forall i, j :: 0 <= i < |h| && 0 <= j < |h| ==> h[i].op.author == h[j].op.author
  }

  lemma {:induction false} SingleSegment(h: seq<Entry>, k: nat, f: Fnode)
    requires IsHistory(h) && SingleAuthor(h) && k <= |h| && f in StateAt(h, k).liveNodes
    ensures var segs := StateAt(h, k).liveNodes[f].segments; |segs| == 1 && k > 0 && segs[0].author == h[0].op.author
  {
    hide Apply, ApplyBody, StateAt, IsHistory, Invariant;
    StateAtIsValid(h, k);
    if k > 0 {
      HistoryStep(h, k - 1);
      StateAtIsValid(h, k - 1);
      ApplyBodyNode(StateAt(h, k - 1), h[k - 1].op, f);
      if f in StateAt(h, k - 1).liveNodes {
        SingleSegment(h, k - 1, f);
      }
    }
  }

  lemma SingleAuthorLeavesNoGap(h: seq<Entry>, cut: nat, hints: FSMHints)
    requires IsHistory(h) && AuthorsAreRuns(h) && OffsetsAreOrdered(h) && SingleAuthor(h) && cut <= |h|
    requires AreHintsOf(hints, StateAt(h, cut)) && Flatten(hints.liveNodes).Some?
    ensures var c := CourseOf(h, cut, hints); NoGap(c.segs, c.fnodes)
  {
    hide StateAt, IsHistory, AuthorsAreRuns, OffsetsAreOrdered, IsSegmentSet;
    var nodes := hints.liveNodes;
    var c := CourseOf(h, cut, hints);
    forall n | c.fnodes != [] && c.segs != [] && LastFnode(c.fnodes) <= n <= c.Last()
      ensures HoldsSeqNo(c.segs, n)
    {
      FlattenHolds(nodes, c.Last());
      assert HoldsSeqNo(c.segs, c.Last()) by { LastIsHeld(c.segs); }
      var i :| 0 <= i < |nodes| && HoldsSeqNo(nodes[i].segments, c.Last());
      assert IsNodeOf(nodes[i], StateAt(h, cut));
      SingleSegment(h, cut, nodes[i].fnode);
      NodesAreTracked(h, cut, hints, i);
      assert i == |nodes| - 1 || nodes[i].fnode < nodes[|nodes| - 1].fnode;
      assert Spans(nodes[i].segments[0], n);
      FlattenHolds(nodes, n);
    }
  }

  lemma LastIsHeld(segs: seq<Segment>)
    requires IsSegmentSet(segs) && segs != []
    ensures HoldsSeqNo(segs, segs[|segs| - 1].lastSeqNo)
  {
    assert WellFormed(segs[|segs| - 1]);
    assert Spans(segs[|segs| - 1], segs[|segs| - 1].lastSeqNo);
  }

  lemma NoGapOfHints(h: seq<Entry>, cut: nat, hints: FSMHints)
    requires cut <= |h| && Flatten(hints.liveNodes).Some? && HintsHold(CourseOf(h, cut, hints))
    requires var c := CourseOf(h, cut, hints); NoGap(c.segs, c.fnodes)
    ensures GapsAreHarmless(CourseOf(h, cut, hints))
  {
    hide NoGap, GapsAreHarmless, IsSegmentSet, AllFaithful, StateAt;
    NoGapIsHarmless(CourseOf(h, cut, hints));
  }

  /** The round trip of a single Author's history, without a condition on the hints. */
  lemma SingleAuthorRoundTrip(h: seq<Entry>, cut: nat, hints: FSMHints, log: seq<LogEntry>)
    requires Hintable(h, cut) && SingleAuthor(h) && hints.log != "" && AreHintsOf(hints, StateAt(h, cut))
    requires Flatten(hints.liveNodes).Some? ==> Carries(CourseOf(h, cut, hints), 0, log)
    ensures InitialState(hints).Some?
    ensures var p := Play(InitialState(hints).value, log);
            !HasRemainingHints(p) && Invariant(p) && SameState(p, StateAt(h, |h|))
  {
    hide StateAt, IsHistory, AuthorsAreRuns, OffsetsAreOrdered, GapsAreHarmless, HintsHold, Carries, Invariant;
    hide Flatten, SameState, PropertiesAreSinks, SingleAuthor;
    HintsHoldCourse(h, cut, hints);
    SingleAuthorLeavesNoGap(h, cut, hints);
    NoGapOfHints(h, cut, hints);
    HintRoundTrip(h, cut, hints, log);
  }
}

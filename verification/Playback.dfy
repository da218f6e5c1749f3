/**
 * A hinted player follows a history: it skips what the hints leave out, rejects what others wrote, and
 * at each op of the history holds exactly the tracked part of the state which the history built
 * (pkg/recoverylog/fsm.go and the seeking of pkg/recoverylog/playback.go).
 */
module Playback {
  import opened Common
  import opened Segments
  import opened Fsm
  import opened History

  // ---------------------------------------------------------------------------
  // Playing a log

  /** An op as it stands in the log, with the offset at which its frame begins. */
  datatype LogEntry = LogEntry(begin: int, op: RecordedOp, frame: Bytes, data: Bytes)

  /** One iteration of playLog: seek past what lies before the next hinted offset, else apply. */
  function PlayOne(p: State, e: LogEntry): State {
    if p.hintedSegments != [] && e.begin < p.hintedSegments[0].firstOffset then p
    else Apply(p, e.op, e.frame).0
  }

  function Play(p: State, log: seq<LogEntry>): State
    decreases log
  {
    if log == [] then p else Play(PlayOne(p, log[0]), log[1..])
  }

  /** Ops are equal but for the offsets which a Recorder bounds and a Player knows. */
  predicate SameOp(a: RecordedOp, b: RecordedOp) {
    a.(firstOffset := 0, lastOffset := 0) == b.(firstOffset := 0, lastOffset := 0)
  }

  predicate SameSegment(a: Segment, b: Segment) {
    a.(firstOffset := 0, lastOffset := 0) == b.(firstOffset := 0, lastOffset := 0)
  }

  predicate SameNode(a: FnodeState, b: FnodeState) {
    && a.links == b.links
    && |a.segments| == |b.segments|
    && forall i :: 0 <= i < |a.segments| ==> SameSegment(a.segments[i], b.segments[i])
  }

  /** States are equal, but for offsets of the Segments they track. */
  ghost predicate SameState(a: State, b: State) {
    && a.nextSeqNo == b.nextSeqNo
    && a.nextChecksum == b.nextChecksum
    && a.properties == b.properties
    && a.links == b.links
    && a.liveNodes.Keys == b.liveNodes.Keys
    && (forall f :: f in a.liveNodes ==> SameNode(a.liveNodes[f], b.liveNodes[f]))
    && a.hintedSegments == b.hintedSegments
    && a.hintedFnodes == b.hintedFnodes
  }

  // ---------------------------------------------------------------------------
  // Mirrored states

  function LastFnode(fnodes: seq<Fnode>): Fnode {
    if fnodes == [] then 0 else fnodes[|fnodes| - 1]
  }

  /** A Fnode the player tracks: it is hinted, or created by an op which is played after the last hinted one. */
  ghost predicate Tracked(c: Course, f: Fnode) {
    f in c.fnodes || (f > LastFnode(c.fnodes) && (f > c.Last() || HoldsSeqNo(c.segs, f)))
  }

  /** Every op of the Fnode is played. Others which are tracked are gone when the hints are built. */
  predicate IsExact(c: Course, f: Fnode) {
    f in c.fnodes || f > c.Last()
  }

  ghost predicate SameFor(c: Course, f: Fnode, a: FnodeState, b: FnodeState) {
    a.links == b.links && (IsExact(c, f) ==> SameNode(a, b))
  }

  /** The live Fnodes of `p` are the tracked ones of `m`. */
  ghost predicate Mirrors(c: Course, m: State, p: State) {
    && (forall f :: f in p.liveNodes <==> f in m.liveNodes && Tracked(c, f))
    && (forall f :: f in p.liveNodes ==> SameFor(c, f, p.liveNodes[f], m.liveNodes[f]))
  }

  lemma MirroredLink(c: Course, m: State, p: State, path: string)
    requires Consistent(m) && Consistent(p) && Mirrors(c, m, p)
    ensures path in p.links ==> path in m.links && m.links[path] == p.links[path]
    ensures path in m.links && Tracked(c, m.links[path]) ==> path in p.links
  {
    if path in p.links {
      var f := p.links[path];
      assert f in p.liveNodes && SameFor(c, f, p.liveNodes[f], m.liveNodes[f]);
      assert path in m.liveNodes[f].links;
    }
    if path in m.links && Tracked(c, m.links[path]) {
      var f := m.links[path];
      assert f in p.liveNodes && SameFor(c, f, p.liveNodes[f], m.liveNodes[f]);
      assert path in p.liveNodes[f].links;
    }
  }

  /** What the player must know of an op before it applies it. */
  ghost predicate Playable(c: Course, p: State, op: RecordedOp) {
    match op.body
    case Create(path) =>
      && path !in p.properties
      && (Tracked(c, op.seqNo) <==> p.hintedFnodes == [] || p.hintedFnodes[0] == op.seqNo)
    case Link(_, path) => path !in p.properties
    case Property(path, content) => path in p.properties ==> p.properties[path] == content
    case _ => true
  }

  lemma SameExtend(c: Course, f: Fnode, s: FnodeState, t: FnodeState, links: set<string>, op: RecordedOp,
                   op': RecordedOp)
    requires SameFor(c, f, s, t) && SameOp(op, op')
    ensures SameFor(c, f, FnodeState(links, ExtendSegments(s.segments, op)),
                    FnodeState(links, ExtendSegments(t.segments, op')))
  {
    hide IsExact;
    if !IsExact(c, f) {
      return;
    }
    var a, b := ExtendSegments(s.segments, op), ExtendSegments(t.segments, op');
    var l := |s.segments| - 1;
    if l >= 0 {
      assert SameSegment(s.segments[l], t.segments[l]);
    }
  }

  lemma MirrorCreate(c: Course, m: State, p: State, op: RecordedOp, op': RecordedOp)
    requires Consistent(m) && Consistent(p) && Mirrors(c, m, p)
    requires SameOp(op', op) && op.body.Create? && m.hintedFnodes == []
    requires Playable(c, p, op) && ApplyCreate(m, op).1 == NoError
    ensures Transitions(ApplyCreate(p, op').1)
    ensures op.seqNo !in m.liveNodes ==> Mirrors(c, ApplyCreate(m, op).0, ApplyCreate(p, op').0)
  {
    MirroredLink(c, m, p, op.body.path);
    SameExtend(c, op.seqNo, FnodeState({}, []), FnodeState({}, []), {op.body.path}, op', op);
    hide ExtendSegments, SameFor, Tracked, Consistent;
    if op.seqNo !in m.liveNodes {
      var a := FnodeState({op.body.path}, ExtendSegments([], op));
      var b := FnodeState({op.body.path}, ExtendSegments([], op'));
      hide Mirrors;
      MirrorPut(c, m, p, ApplyCreate(m, op).0, ApplyCreate(p, op').0, op.seqNo, a, b);
    }
  }

  /** A Fnode is put in both states, or just in that of the history if it isn't tracked. */
  lemma MirrorPut(c: Course, m: State, p: State, m': State, p': State, f: Fnode, a: FnodeState, b: FnodeState)
    requires Mirrors(c, m, p) && SameFor(c, f, b, a)
    requires m'.liveNodes == m.liveNodes[f := a]
    requires p'.liveNodes == if Tracked(c, f) then p.liveNodes[f := b] else p.liveNodes
    ensures Mirrors(c, m', p')
  {
    hide SameFor, Tracked;
  }

  lemma MirrorLink(c: Course, m: State, p: State, op: RecordedOp, op': RecordedOp)
    requires Consistent(m) && Consistent(p) && Mirrors(c, m, p)
    requires SameOp(op', op) && op.body.Link?
    requires Playable(c, p, op) && Transitions(ApplyLink(m, op).1)
    ensures Transitions(ApplyLink(p, op').1)
    ensures Mirrors(c, ApplyLink(m, op).0, ApplyLink(p, op').0)
  {
    var Link(f, path) := op.body;
    MirroredLink(c, m, p, path);
    if f in p.liveNodes {
      SameExtend(c, f, p.liveNodes[f], m.liveNodes[f], m.liveNodes[f].links + {path}, op', op);
      assert p.liveNodes[f].links == m.liveNodes[f].links;
    }
    hide ExtendSegments, SameFor, Tracked, Consistent;
  }

  lemma MirrorUnlink(c: Course, m: State, p: State, op: RecordedOp, op': RecordedOp)
    requires Consistent(m) && Consistent(p) && Mirrors(c, m, p)
    requires SameOp(op', op) && op.body.Unlink?
    requires Transitions(ApplyUnlink(m, op).1)
    ensures Transitions(ApplyUnlink(p, op').1)
    ensures Mirrors(c, ApplyUnlink(m, op).0, ApplyUnlink(p, op').0)
  {
    var Unlink(f, path) := op.body;
    if f in p.liveNodes {
      SameExtend(c, f, p.liveNodes[f], m.liveNodes[f], m.liveNodes[f].links - {path}, op', op);
      assert p.liveNodes[f].links == m.liveNodes[f].links;
    }
    hide ExtendSegments, SameFor, Tracked, Consistent;
  }

  lemma MirrorWrite(c: Course, m: State, p: State, op: RecordedOp, op': RecordedOp)
    requires Mirrors(c, m, p)
    requires SameOp(op', op) && op.body.Write?
    ensures Transitions(ApplyWrite(p, op').1)
    ensures Mirrors(c, ApplyWrite(m, op).0, ApplyWrite(p, op').0)
  {
    var f := op.body.writeFnode;
    if f in p.liveNodes {
      SameExtend(c, f, p.liveNodes[f], m.liveNodes[f], m.liveNodes[f].links, op', op);
      assert p.liveNodes[f].links == m.liveNodes[f].links;
    }
    hide ExtendSegments, SameFor, Tracked;
  }

  /** Both sides take the same op, and the mirror is kept. */
  lemma MirrorStep(c: Course, m: State, p: State, op: RecordedOp, op': RecordedOp)
    requires Consistent(m) && Consistent(p) && Mirrors(c, m, p)
    requires SameOp(op', op) && op.seqNo !in m.liveNodes && m.hintedFnodes == []
    requires Playable(c, p, op) && Transitions(ApplyBody(m, op).1)
    ensures Transitions(ApplyBody(p, op').1)
    ensures Mirrors(c, ApplyBody(m, op).0, ApplyBody(p, op').0)
  {
    assert op.body.Property? ==> op.body.propertyPath in p.links ==> op.body.propertyPath in m.links by {
      if op.body.Property? {
        MirroredLink(c, m, p, op.body.propertyPath);
      }
    }
    hide Consistent, ApplyCreate, ApplyLink, ApplyUnlink, ApplyWrite;
    match op.body {
      case Create(_) =>
        assert ApplyCreate(m, op).1 == NoError by { CreateSucceeds(m, op); }
        MirrorCreate(c, m, p, op, op');
      case Link(_, _) => MirrorLink(c, m, p, op, op');
      case Unlink(_, _) => MirrorUnlink(c, m, p, op, op');
      case Write(_, _, _) => MirrorWrite(c, m, p, op, op');
      case Property(_, _) =>
      case NoOp =>
    }
  }

  lemma CreateSucceeds(m: State, op: RecordedOp)
    requires op.body.Create? && m.hintedFnodes == [] && Transitions(ApplyCreate(m, op).1)
    ensures ApplyCreate(m, op).1 == NoError
  {
  }

  /** An op which touches no tracked Fnode, or just writes to one which isn't exact, doesn't change what is mirrored. */
  ghost predicate CanSkip(c: Course, m: State, op: RecordedOp) {
    forall f :: Touches(op, f) && Tracked(c, f) ==>
      !op.body.Create? && (f !in m.liveNodes || (op.body.Write? && !IsExact(c, f)))
  }

  lemma MirrorSkip(c: Course, m: State, p: State, op: RecordedOp)
    requires Mirrors(c, m, p) && Transitions(ApplyBody(m, op).1)
    requires CanSkip(c, m, op)
    ensures Mirrors(c, ApplyBody(m, op).0, p)
  {
    var n := ApplyBody(m, op).0;
    forall f | op.body.Write? && f in m.liveNodes
      ensures f in n.liveNodes && n.liveNodes[f].links == m.liveNodes[f].links
    {
    }
    hide ApplyBody, Tracked, SameNode;
    forall f
      ensures f in n.liveNodes && Tracked(c, f) <==> f in m.liveNodes && Tracked(c, f)
    {
      ApplyBodyNode(m, op, f);
    }
    forall f | f in p.liveNodes
      ensures SameFor(c, f, p.liveNodes[f], n.liveNodes[f])
    {
      ApplyBodyNode(m, op, f);
      assert SameFor(c, f, p.liveNodes[f], m.liveNodes[f]);
    }
  }

  // ---------------------------------------------------------------------------
  // Following a history

  /** A history, how much of it the hints were built of, and the hinted segments and Fnodes. */
  datatype Course = Course(h: seq<Entry>, cut: nat, segs: seq<Segment>, fnodes: seq<Fnode>)
  {
    /** The last hinted SeqNo. */
    function Last(): int {
      if segs == [] then 0 else segs[|segs| - 1].lastSeqNo
    }

    function At(k: nat): State
      requires k <= |h|
    {
      StateAt(h, k)
    }
  }

  /** The hinted segments hold every op of the hinted Fnodes. */
  ghost predicate HintsHold(c: Course)
    requires c.cut <= |c.h|
  {
    && IsSegmentSet(c.segs) && AllFaithful(c.h, c.segs) && c.Last() <= c.cut
    && (c.fnodes == [] ==> c.segs == [])
    && (forall i, j :: 0 <= i < j < |c.fnodes| ==> c.fnodes[i] < c.fnodes[j])
    && (forall f :: f in c.fnodes <==> f in c.At(c.cut).liveNodes)
    && (forall f :: f in c.fnodes ==> 0 < f && HoldsSeqNo(c.segs, f))
    && (forall f, n :: f in c.fnodes && 0 < f <= n <= c.cut && Touches(c.h[n - 1].op, f) ==> HoldsSeqNo(c.segs, n))
  }

  /** The hinted segments leave no gap once the last hinted Fnode is created. */
  ghost predicate NoGap(segs: seq<Segment>, fnodes: seq<Fnode>) {
    forall n :: fnodes != [] && segs != [] && LastFnode(fnodes) <= n <= segs[|segs| - 1].lastSeqNo ==>
      HoldsSeqNo(segs, n)
  }

  /** An op links or unlinks a Fnode which the player tracks, though it isn't hinted. */
  ghost predicate RelinksUnhinted(c: Course, op: RecordedOp) {
    match op.body
    case Link(f, _) => f > LastFnode(c.fnodes) && HoldsSeqNo(c.segs, f)
    case Unlink(f, _) => f > LastFnode(c.fnodes) && HoldsSeqNo(c.segs, f)
    case _ => false
  }

  /**
   * Gaps between hinted segments, once the last hinted Fnode is created, skip no link or unlink of a Fnode which an op
   * of the segments has created since.
   */
  ghost predicate GapsAreHarmless(c: Course) {
    forall n :: LastFnode(c.fnodes) < n <= c.Last() && n <= |c.h| && !HoldsSeqNo(c.segs, n) && n > 0 ==>
      !RelinksUnhinted(c, c.h[n - 1].op)
  }

  lemma NoGapIsHarmless(c: Course)
    requires NoGap(c.segs, c.fnodes) && (c.fnodes == [] ==> c.segs == [])
    ensures GapsAreHarmless(c)
  {
  }

  /** Hinted properties are sinks: their paths are never created or linked. */
  ghost predicate PropertiesAreSinks(h: seq<Entry>, properties: map<string, Bytes>) {
    forall k :: 0 <= k < |h| ==>
      match h[k].op.body
      case Create(path) => path !in properties
      case Link(_, path) => path !in properties
      case _ => true
  }

  ghost predicate IsCourse(c: Course) {
    && IsHistory(c.h) && OffsetsAreOrdered(c.h)
    && c.cut <= |c.h|
    && HintsHold(c)
    && GapsAreHarmless(c)
    && PropertiesAreSinks(c.h, c.At(c.cut).properties)
  }

  /** Where the player stands once the first `k` ops of the history went by. */
  ghost predicate InStep(c: Course, k: nat, p: State)
    requires k <= |c.h|
  {
    if p.hintedSegments == [] then
      && c.Last() <= k
      && p.nextSeqNo == k + 1
      && p.nextChecksum == c.At(k).nextChecksum
    else
      && |p.hintedSegments| <= |c.segs|
      && p.hintedSegments == c.segs[|c.segs| - |p.hintedSegments|..]
      && k < p.nextSeqNo <= |c.h|
      && Spans(p.hintedSegments[0], p.nextSeqNo)
      && p.nextChecksum == c.h[p.nextSeqNo - 1].op.checksum
      && forall n :: k < n < p.nextSeqNo ==> !HoldsSeqNo(c.segs, n)
  }

  /** Fnodes which remain hinted are those which are not yet created. */
  ghost predicate FnodesRemain(fnodes: seq<Fnode>, k: nat, remaining: seq<Fnode>) {
    && |remaining| <= |fnodes|
    && var j := |fnodes| - |remaining|;
    && remaining == fnodes[j..]
    && (forall i :: 0 <= i < j ==> fnodes[i] <= k)
    && (forall i :: j <= i < |fnodes| ==> fnodes[i] > k)
  }

  ghost predicate Follows(c: Course, k: nat, p: State)
    requires c.cut <= |c.h| && k <= |c.h|
  {
    && Invariant(p)
    && InStep(c, k, p)
    && FnodesRemain(c.fnodes, k, p.hintedFnodes)
    && Mirrors(c, c.At(k), p)
    && p.properties == c.At(if k <= c.cut then c.cut else k).properties
  }

  lemma {:induction false} PropertiesGrow(h: seq<Entry>, j: nat, k: nat)
    requires IsHistory(h) && j <= k <= |h|
    ensures forall path :: path in StateAt(h, j).properties ==>
              path in StateAt(h, k).properties && StateAt(h, k).properties[path] == StateAt(h, j).properties[path]
    decreases k
  {
    hide Apply, ApplyBody, StateAt, IsHistory;
    if j < k {
      PropertiesGrow(h, j, k - 1);
      HistoryStep(h, k - 1);
      PropertiesStep(StateAt(h, k - 1), h[k - 1].op);
    }
  }

  lemma PropertiesStep(m: State, op: RecordedOp)
    requires Transitions(ApplyBody(m, op).1)
    ensures ApplyBody(m, op).0.properties ==
            if op.body.Property? then m.properties[op.body.propertyPath := op.body.content] else m.properties
    ensures op.body.Property? && op.body.propertyPath in m.properties ==>
              m.properties[op.body.propertyPath] == op.body.content
    ensures op.body.Create? ==> op.body.path !in m.properties
    ensures op.body.Link? ==> op.body.linkPath !in m.properties
  {
  }

  /** The properties of a player after one more op of the history, played or skipped. */
  lemma PropertiesFollow(c: Course, k: nat, p: State)
    requires IsCourse(c) && k < |c.h| && Follows(c, k, p)
    ensures var body := c.h[k].op.body;
            var next := c.At(if k + 1 <= c.cut then c.cut else k + 1).properties;
            && (k + 1 <= c.cut ==> next == p.properties)
            && (body.Property? ==>
                  && (body.propertyPath in p.properties ==> p.properties[body.propertyPath] == body.content)
                  && next == p.properties[body.propertyPath := body.content])
            && (!body.Property? ==> next == p.properties)
            && (body.Create? ==> body.path !in p.properties)
            && (body.Link? ==> body.linkPath !in p.properties)
  {
    hide Apply, ApplyBody, StateAt, IsHistory, HintsHold, GapsAreHarmless, Invariant, InStep, FnodesRemain, Mirrors;
    HistoryStep(c.h, k);
    PropertiesStep(c.At(k), c.h[k].op);
    if k < c.cut {
      PropertiesGrow(c.h, k + 1, c.cut);
    } else {
      PropertiesGrow(c.h, c.cut, k);
    }
  }

  lemma NextIsHinted(c: Course, k: nat, p: State)
    requires IsSegmentSet(c.segs) && k <= |c.h| && InStep(c, k, p) && p.hintedSegments != []
    ensures p.nextSeqNo <= c.Last() && HoldsSeqNo(c.segs, p.nextSeqNo)
  {
    var j := |c.segs| - |p.hintedSegments|;
    assert p.hintedSegments[0] == c.segs[j];
    if j < |c.segs| - 1 {
      assert Precedes(c.segs[j], c.segs[|c.segs| - 1]);
    }
  }

  /** An op which the hints leave out doesn't change what the player tracks. */
  lemma GapIsUntracked(c: Course, k: nat, p: State)
    requires IsCourse(c) && k < |c.h| && Follows(c, k, p) && k + 1 != p.nextSeqNo
    ensures CanSkip(c, c.At(k), c.h[k].op)
    ensures forall f :: f in c.fnodes ==> f != k + 1
    ensures k + 1 <= c.cut
  {
    hide Apply, ApplyBody, StateAt, Invariant, Mirrors, IsHistory, OffsetsAreOrdered, HoldsSeqNo, AllFaithful;
    hide IsSegmentSet;
    StateAtIsValid(c.h, k);
    NextIsHinted(c, k, p);
    assert !HoldsSeqNo(c.segs, k + 1);
    forall f | Touches(c.h[k].op, f) && Tracked(c, f)
      ensures !c.h[k].op.body.Create? && (f !in c.At(k).liveNodes || (c.h[k].op.body.Write? && !IsExact(c, f)))
    {
      assert f in c.fnodes && 0 < f <= k + 1 <= c.cut ==> HoldsSeqNo(c.segs, k + 1);
      assert f in c.At(k).liveNodes ==> f <= k;
    }
  }

  /** The player does not notice an op which its hints leave out. */
  lemma FollowGap(c: Course, k: nat, p: State)
    requires IsCourse(c) && k < |c.h| && Follows(c, k, p) && k + 1 != p.nextSeqNo
    ensures Follows(c, k + 1, p)
  {
    hide Apply, StateAt, Invariant, Mirrors, IsHistory, OffsetsAreOrdered, HoldsSeqNo, HintsHold, GapsAreHarmless;
    hide PropertiesAreSinks;
    GapIsUntracked(c, k, p);
    PropertiesFollow(c, k, p);
    MirrorGap(c, k, p);
    assert forall i :: 0 <= i < |c.fnodes| ==> c.fnodes[i] in c.fnodes;
    assert FnodesRemain(c.fnodes, k + 1, p.hintedFnodes);
    assert InStep(c, k + 1, p);
  }

  lemma MirrorGap(c: Course, k: nat, p: State)
    requires IsHistory(c.h) && k < |c.h| && Mirrors(c, c.At(k), p)
    requires CanSkip(c, c.At(k), c.h[k].op)
    ensures Mirrors(c, c.At(k + 1), p)
  {
    hide Apply, ApplyBody, StateAt, IsHistory, SameFor, CanSkip;
    HistoryStep(c.h, k);
    MirrorSkip(c, c.At(k), p, c.h[k].op);
  }

  /**
   * The condition is exact for each op which is skipped: the player still mirrors the history if and only if the op
   * doesn't link or unlink a Fnode which it tracks without a hint.
   */
  lemma SkipKeepsMirrorIff(c: Course, k: nat, p: State)
    requires IsHistory(c.h) && k < c.cut <= |c.h| && HintsHold(c) && Mirrors(c, c.At(k), p)
    requires k + 1 <= c.Last() && !HoldsSeqNo(c.segs, k + 1)
    requires ApplyBody(c.At(k), c.h[k].op).1 == NoError
    ensures Mirrors(c, c.At(k + 1), p) <==> !RelinksUnhinted(c, c.h[k].op)
  {
    hide Apply, ApplyBody, StateAt, Invariant, Mirrors, IsHistory, HoldsSeqNo, AllFaithful, IsSegmentSet;
    var m, op := c.At(k), c.h[k].op;
    StateAtIsValid(c.h, k);
    HistoryStep(c.h, k);
    if RelinksUnhinted(c, op) {
      RelinkIsSeen(c, m, p, op);
      MirrorsAlike(c, c.At(k + 1), ApplyBody(m, op).0, p);
    } else {
      forall f | Touches(op, f) && Tracked(c, f)
        ensures !op.body.Create? && (f !in m.liveNodes || (op.body.Write? && !IsExact(c, f)))
      {
        assert f in c.fnodes && 0 < f <= k + 1 <= c.cut ==> HoldsSeqNo(c.segs, k + 1);
        assert f in m.liveNodes ==> f <= k;
      }
      MirrorGap(c, k, p);
    }
  }

  lemma MirrorsAlike(c: Course, m: State, n: State, p: State)
    requires m.liveNodes == n.liveNodes
    ensures Mirrors(c, m, p) <==> Mirrors(c, n, p)
  {
    hide Tracked, SameFor;
  }

  /** A link or unlink changes the links of its Fnode. */
  lemma RelinkIsSeen(c: Course, m: State, p: State, op: RecordedOp)
    requires Invariant(m) && Mirrors(c, m, p) && ApplyBody(m, op).1 == NoError && RelinksUnhinted(c, op)
    ensures !Mirrors(c, ApplyBody(m, op).0, p)
  {
    hide ExtendSegments, HintsAreAligned, HoldsSeqNo, SameNode;
    var f := if op.body.Link? then op.body.linkFnode else op.body.unlinkFnode;
    var n := ApplyBody(m, op).0;
    assert f in m.liveNodes && Tracked(c, f) && f in p.liveNodes;
    assert SameFor(c, f, p.liveNodes[f], m.liveNodes[f]);
    assert f in n.liveNodes ==> n.liveNodes[f].links != m.liveNodes[f].links;
  }

  /** A live Fnode was created by the op of its SeqNo. */
  lemma CreatedBy(h: seq<Entry>, k: nat, f: Fnode)
    requires IsHistory(h) && k <= |h| && f in StateAt(h, k).liveNodes
    ensures 0 < f <= k && h[f - 1].op.body.Create?
  {
    hide Apply, ApplyBody, StateAt, IsHistory, Invariant;
    StateAtIsValid(h, k);
    LiveBefore(h, k, k, f);
    LiveBefore(h, f, k, f);
    StateAtIsValid(h, f - 1);
    HistoryStep(h, f - 1);
    ApplyBodyNode(StateAt(h, f - 1), h[f - 1].op, f);
  }

  /** The next op of the history passes the checks of Apply. */
  lemma NextIsSequenced(c: Course, k: nat, p: State)
    requires IsCourse(c) && k < |c.h| && InStep(c, k, p) && k + 1 == p.nextSeqNo
    ensures var op := c.h[k].op;
            && (p.hintedSegments == [] || p.hintedSegments[0].author == op.author)
            && op.seqNo == p.nextSeqNo && op.checksum == p.nextChecksum
  {
    hide Apply, ApplyBody, StateAt, IsHistory, Invariant, OffsetsAreOrdered, GapsAreHarmless, PropertiesAreSinks;
    StateAtIsValid(c.h, k);
    if p.hintedSegments != [] {
      assert p.hintedSegments[0] == c.segs[|c.segs| - |p.hintedSegments|];
      assert Faithful(c.h, p.hintedSegments[0]);
    }
  }

  lemma NextIsPlayable(c: Course, k: nat, p: State)
    requires IsCourse(c) && k < |c.h| && Follows(c, k, p) && k + 1 == p.nextSeqNo
    ensures Playable(c, p, c.h[k].op)
  {
    hide Apply, ApplyBody, StateAt, IsHistory, Invariant, OffsetsAreOrdered, GapsAreHarmless, PropertiesAreSinks;
    hide Mirrors, AllFaithful;
    PropertiesFollow(c, k, p);
    StateAtIsValid(c.h, k);
    var j := |c.fnodes| - |p.hintedFnodes|;
    assert p.hintedFnodes == c.fnodes[j..];
    if p.hintedFnodes != [] {
      assert p.hintedFnodes[0] == c.fnodes[j];
      assert LastFnode(c.fnodes) == c.fnodes[|c.fnodes| - 1] >= c.fnodes[j];
      if k + 1 in c.fnodes {
        var i :| 0 <= i < |c.fnodes| && c.fnodes[i] == k + 1;
        assert i >= j;
      }
    }
  }

  /** Stepping past the op, and to the next hinted Segment where this one is exhausted. */
  lemma AdvanceInStep(c: Course, k: nat, p: State, n: State)
    requires IsCourse(c) && k < |c.h| && InStep(c, k, p) && k + 1 == p.nextSeqNo
    requires n.hintedSegments == p.hintedSegments && n.nextSeqNo == p.nextSeqNo && n.nextChecksum == p.nextChecksum
    ensures InStep(c, k + 1, Advance(n, c.h[k].frame))
  {
    hide Apply, ApplyBody, StateAt, IsHistory, Invariant, OffsetsAreOrdered, GapsAreHarmless, PropertiesAreSinks;
    hide HoldsSeqNo, IsSegmentSet, Faithful;
    NextIsSequenced(c, k, p);
    NextChecksum(c.h, k);
    if p.hintedSegments != [] {
      var j := |c.segs| - |p.hintedSegments|;
      assert p.hintedSegments[0] == c.segs[j];
      FaithfulRange(c.h, c.segs[j]);
      hide AllFaithful, HintsHold;
      if c.segs[j].lastSeqNo == k + 1 {
        assert p.hintedSegments[1..] == c.segs[j + 1..];
        if j + 1 < |c.segs| {
          FaithfulRange(c.h, c.segs[j + 1]);
          SegmentsAreApart(c.segs, j);
        }
      }
    }
  }

  lemma FaithfulRange(h: seq<Entry>, s: Segment)
    requires Faithful(h, s)
    ensures 1 <= s.firstSeqNo <= s.lastSeqNo <= |h| && s.firstChecksum == h[s.firstSeqNo - 1].op.checksum
  {
  }

  lemma SegmentsAreApart(segs: seq<Segment>, j: nat)
    requires IsSegmentSet(segs) && j + 1 < |segs|
    ensures segs[j].lastSeqNo < segs[j + 1].firstSeqNo
    ensures forall n :: segs[j].lastSeqNo < n < segs[j + 1].firstSeqNo ==> !HoldsSeqNo(segs, n)
  {
    assert Precedes(segs[j], segs[j + 1]);
    forall n | segs[j].lastSeqNo < n < segs[j + 1].firstSeqNo ensures !HoldsSeqNo(segs, n) {
      BetweenSegments(segs, j, n);
    }
  }

  lemma NextChecksum(h: seq<Entry>, k: nat)
    requires IsHistory(h) && k < |h|
    ensures StateAt(h, k + 1).nextChecksum == Update(h[k].op.checksum, h[k].frame)
    ensures k + 1 < |h| ==> h[k + 1].op.checksum == Update(h[k].op.checksum, h[k].frame)
  {
    hide Apply, ApplyBody, StateAt, IsHistory, Invariant;
    HistoryStep(h, k);
    StateAtIsValid(h, k + 1);
  }

  lemma BetweenSegments(segs: seq<Segment>, j: nat, n: int)
    requires IsSegmentSet(segs) && j + 1 < |segs|
    requires segs[j].lastSeqNo < n < segs[j + 1].firstSeqNo
    ensures !HoldsSeqNo(segs, n)
  {
    forall i | 0 <= i < |segs| ensures !Spans(segs[i], n) {
      if i < j {
        assert Precedes(segs[i], segs[j]);
      } else if i > j + 1 {
        assert Precedes(segs[j + 1], segs[i]);
      }
    }
  }

  lemma FnodesPop(fnodes: seq<Fnode>, k: nat, r: seq<Fnode>)
    requires forall i, j :: 0 <= i < j < |fnodes| ==> fnodes[i] < fnodes[j]
    requires FnodesRemain(fnodes, k, r)
    ensures FnodesRemain(fnodes, k + 1, if r != [] && r[0] == k + 1 then r[1..] else r)
    ensures r != [] ==> r[0] in fnodes
  {
    var j := |fnodes| - |r|;
    assert r == fnodes[j..];
    if r != [] {
      assert r[0] == fnodes[j];
      assert r[1..] == fnodes[j + 1..];
    }
  }

  lemma FnodesFollow(c: Course, k: nat, p: State, op: RecordedOp)
    requires IsCourse(c) && k < |c.h| && FnodesRemain(c.fnodes, k, p.hintedFnodes)
    requires SameOp(op, c.h[k].op) && op.seqNo == k + 1 && Transitions(ApplyBody(p, op).1)
    ensures FnodesRemain(c.fnodes, k + 1, ApplyBody(p, op).0.hintedFnodes)
  {
    hide Apply, ApplyBody, StateAt, IsHistory, OffsetsAreOrdered, GapsAreHarmless, PropertiesAreSinks, AllFaithful;
    hide IsSegmentSet, FnodesRemain;
    HintedFnodesStep(p, op);
    FnodesPop(c.fnodes, k, p.hintedFnodes);
    if k + 1 in c.fnodes {
      CreatedBy(c.h, c.cut, k + 1);
    }
  }

  lemma HintedFnodesStep(p: State, op: RecordedOp)
    requires Transitions(ApplyBody(p, op).1)
    ensures ApplyBody(p, op).0.hintedFnodes ==
            if op.body.Create? && p.hintedFnodes != [] && p.hintedFnodes[0] == op.seqNo
            then p.hintedFnodes[1..] else p.hintedFnodes
  {
  }

  /** The player applies the op of the history which its hints lead to, and follows it. */
  lemma FollowPlayed(c: Course, k: nat, p: State, op: RecordedOp)
    requires IsCourse(c) && k < |c.h| && Follows(c, k, p) && k + 1 == p.nextSeqNo
    requires SameOp(op, c.h[k].op)
    ensures Transitions(Apply(p, op, c.h[k].frame).1)
    ensures Follows(c, k + 1, Apply(p, op, c.h[k].frame).0)
  {
    hide Apply, ApplyBody, Advance, StateAt, IsHistory, Invariant, OffsetsAreOrdered, GapsAreHarmless;
    hide PropertiesAreSinks, InStep, HintsHold, Playable, FnodesRemain;
    NextIsSequenced(c, k, p);
    NextIsPlayable(c, k, p);
    PlayedBody(c, k, p, op);
    var n := ApplyBody(p, op).0;
    ApplySequenced(p, op, c.h[k].frame);
    ApplyKeepsInvariant(p, op, c.h[k].frame);
    AdvanceInStep(c, k, p, n);
    FnodesFollow(c, k, p, op);
    AdvanceKeeps(n, c.h[k].frame);
  }

  lemma ApplySequenced(p: State, op: RecordedOp, frame: Bytes)
    requires p.hintedSegments == [] || p.hintedSegments[0].author == op.author
    requires op.seqNo == p.nextSeqNo && op.checksum == p.nextChecksum && Transitions(ApplyBody(p, op).1)
    ensures Apply(p, op, frame) == (Advance(ApplyBody(p, op).0, frame), ApplyBody(p, op).1)
  {
    hide ApplyBody, Advance;
  }

  lemma AdvanceKeeps(n: State, frame: Bytes)
    ensures var r := Advance(n, frame);
            r.liveNodes == n.liveNodes && r.properties == n.properties && r.hintedFnodes == n.hintedFnodes
  {
  }

  lemma PlayedBody(c: Course, k: nat, p: State, op: RecordedOp)
    requires IsCourse(c) && k < |c.h| && Follows(c, k, p) && k + 1 == p.nextSeqNo
    requires SameOp(op, c.h[k].op) && Playable(c, p, c.h[k].op)
    ensures var (n, err) := ApplyBody(p, op);
            && Transitions(err)
            && Mirrors(c, c.At(k + 1), n)
            && n.properties == c.At(if k + 1 <= c.cut then c.cut else k + 1).properties
            && n.hintedSegments == p.hintedSegments && n.nextSeqNo == p.nextSeqNo && n.nextChecksum == p.nextChecksum
  {
    hide Apply, ApplyBody, StateAt, IsHistory, Consistent, OffsetsAreOrdered, GapsAreHarmless, PropertiesAreSinks;
    hide InStep, HintsHold, FnodesRemain;
    StateAtIsValid(c.h, k);
    HistoryStep(c.h, k);
    PropertiesFollow(c, k, p);
    MirrorStep(c, c.At(k), p, c.h[k].op, op);
    ApplyBodyKeepsInvariant(p, op);
    PropertiesStep(p, op);
  }
}

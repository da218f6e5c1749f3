/**
 * The recovery-log state machine over RecordedOps (pkg/recoverylog/fsm.go). The FSM class updates
 * its fields as the original does; each method is specified by a function on FSM states, and the
 * properties of every run are proved of those functions.
 */
module Fsm {
  import opened Common
  import opened Segments

  type Fnode = int

  datatype Body =
    | Create(path: string)
    | Link(linkFnode: Fnode, linkPath: string)
    | Unlink(unlinkFnode: Fnode, unlinkPath: string)
    | Write(writeFnode: Fnode, offset: int, length: int)
    | Property(propertyPath: string, content: Bytes)
    | NoOp

  datatype RecordedOp = RecordedOp(
    seqNo: int,
    checksum: Checksum,
    author: nat,
    firstOffset: int,
    lastOffset: int,
    body: Body)

  datatype FnodeState = FnodeState(links: set<string>, segments: seq<Segment>)

  datatype State = State(
    nextSeqNo: int,
    nextChecksum: Checksum,
    properties: map<string, Bytes>,
    liveNodes: map<Fnode, FnodeState>,
    links: map<string, Fnode>,
    hintedSegments: seq<Segment>,
    hintedFnodes: seq<Fnode>)

  datatype Error =
    | NoError
    | ErrChecksumMismatch
    | ErrFnodeNotTracked
    | ErrLinkExists
    | ErrNoSuchLink
    | ErrNotHintedAuthor
    | ErrPropertyExists
    | ErrWrongSeqNo

  /** A state transition occurs on success, and also when the op is of a Fnode which is not tracked. */
  predicate Transitions(err: Error) {
    err == NoError || err == ErrFnodeNotTracked
  }

  function ExtendSegments(s: seq<Segment>, op: RecordedOp): seq<Segment> {
    if |s| > 0 && s[|s| - 1].author == op.author
    then s[|s| - 1 := s[|s| - 1].(lastSeqNo := op.seqNo, lastOffset := op.lastOffset)]
    else s + [Segment(op.author, op.seqNo, op.firstOffset, op.checksum, op.seqNo, op.lastOffset)]
  }

  // ---------------------------------------------------------------------------
  // The effect of each operation on the state, and the error it returns.

  function ApplyCreate(m: State, op: RecordedOp): (State, Error)
    requires op.body.Create?
  {
    var path := op.body.path;
    if path in m.links then (m, ErrLinkExists)
    else if path in m.properties then (m, ErrPropertyExists)
    else if m.hintedFnodes != [] && m.hintedFnodes[0] != op.seqNo then (m, ErrFnodeNotTracked)
    else (m.(
          hintedFnodes := if m.hintedFnodes == [] then [] else m.hintedFnodes[1..],
          liveNodes := m.liveNodes[op.seqNo := FnodeState({path}, ExtendSegments([], op))],
          links := m.links[path := op.seqNo]), NoError)
  }

  function ApplyLink(m: State, op: RecordedOp): (State, Error)
    requires op.body.Link?
  {
    var Link(fnode, path) := op.body;
    if path in m.links then (m, ErrLinkExists)
    else if path in m.properties then (m, ErrPropertyExists)
    else if fnode !in m.liveNodes then (m, ErrFnodeNotTracked)
    else
      var node := m.liveNodes[fnode];
      (m.(
       liveNodes := m.liveNodes[fnode := FnodeState(node.links + {path}, ExtendSegments(node.segments, op))],
       links := m.links[path := fnode]), NoError)
  }

  function ApplyUnlink(m: State, op: RecordedOp): (State, Error)
    requires op.body.Unlink?
  {
    var Unlink(fnode, path) := op.body;
    if fnode !in m.liveNodes then (m, ErrFnodeNotTracked)
    else
      var node := m.liveNodes[fnode];
      if path !in node.links then (m, ErrNoSuchLink)
      else
        var next := FnodeState(node.links - {path}, ExtendSegments(node.segments, op));
        (m.(
         liveNodes := if next.links == {} then m.liveNodes - {fnode} else m.liveNodes[fnode := next],
         links := m.links - {path}), NoError)
  }

  function ApplyWrite(m: State, op: RecordedOp): (State, Error)
    requires op.body.Write?
  {
    var fnode := op.body.writeFnode;
    if fnode !in m.liveNodes then (m, ErrFnodeNotTracked)
    else
      var node := m.liveNodes[fnode];
      (m.(liveNodes := m.liveNodes[fnode := node.(segments := ExtendSegments(node.segments, op))]), NoError)
  }

  function ApplyProperty(m: State, op: RecordedOp): (State, Error)
    requires op.body.Property?
  {
    var Property(path, content) := op.body;
    if path in m.links then (m, ErrLinkExists)
    else if path in m.properties && m.properties[path] != content then (m, ErrPropertyExists)
    else (m.(properties := m.properties[path := content]), NoError)
  }

  function ApplyBody(m: State, op: RecordedOp): (State, Error) {
    match op.body
    case Create(_) => ApplyCreate(m, op)
    case Link(_, _) => ApplyLink(m, op)
    case Unlink(_, _) => ApplyUnlink(m, op)
    case Write(_, _, _) => ApplyWrite(m, op)
    case Property(_, _) => ApplyProperty(m, op)
    case NoOp => (m, NoError)
  }

  /** Step to the next expected op, skipping to the next hinted Segment if this one is exhausted. */
  function Advance(m: State, frame: Bytes): State {
    var n := m.(nextSeqNo := m.nextSeqNo + 1, nextChecksum := Update(m.nextChecksum, frame));
    if n.hintedSegments == [] || n.hintedSegments[0].lastSeqNo >= n.nextSeqNo then n
    else
      var rest := n.hintedSegments[1..];
      if rest == [] then n.(hintedSegments := rest)
      else n.(hintedSegments := rest, nextSeqNo := rest[0].firstSeqNo, nextChecksum := rest[0].firstChecksum)
  }

  /** FSM.Apply on states. */
  function Apply(m: State, op: RecordedOp, frame: Bytes): (State, Error) {
    if m.hintedSegments != [] && m.hintedSegments[0].author != op.author then (m, ErrNotHintedAuthor)
    else if op.seqNo != m.nextSeqNo then (m, ErrWrongSeqNo)
    else if op.checksum != m.nextChecksum then (m, ErrChecksumMismatch)
    else
      var (n, err) := ApplyBody(m, op);
      if Transitions(err) then (Advance(n, frame), err) else (m, err)
  }

  predicate HasRemainingHints(m: State) {
    m.hintedSegments != [] || m.hintedFnodes != []
  }

  class FSM {
    var nextSeqNo: int
    var nextChecksum: Checksum
    var properties: map<string, Bytes>
    var liveNodes: map<Fnode, FnodeState>
    var links: map<string, Fnode>
    var hintedSegments: seq<Segment>
    var hintedFnodes: seq<Fnode>

    function View(): State
      reads this
    {
      State(nextSeqNo, nextChecksum, properties, liveNodes, links, hintedSegments, hintedFnodes)
    }

    constructor (m: State)
      ensures View() == m
    {
      nextSeqNo, nextChecksum := m.nextSeqNo, m.nextChecksum;
      properties, liveNodes, links := m.properties, m.liveNodes, m.links;
      hintedSegments, hintedFnodes := m.hintedSegments, m.hintedFnodes;
    }

    method ApplyOp(op: RecordedOp, frame: Bytes) returns (err: Error)
      requires Invariant(View())
      modifies this
      ensures (View(), err) == Apply(old(View()), op, frame)
      ensures Invariant(View())
      ensures !Transitions(err) ==> View() == old(View())
      ensures Transitions(err) ==> old(nextSeqNo) == op.seqNo < nextSeqNo
    {
      ApplyKeepsInvariant(View(), op, frame);
      if hintedSegments != [] && hintedSegments[0].author != op.author {
        return ErrNotHintedAuthor;
      }
      if op.seqNo != nextSeqNo {
        return ErrWrongSeqNo;
      } else if op.checksum != nextChecksum {
        return ErrChecksumMismatch;
      }
      ApplyBodyKeepsInvariant(View(), op);
      err := DoBody(op);
      if err != NoError && err != ErrFnodeNotTracked {
        return;
      }
      Step(frame);
    }

    method DoBody(op: RecordedOp) returns (err: Error)
      modifies this
      ensures (View(), err) == ApplyBody(old(View()), op)
    {
      match op.body {
        case Create(_) => err := DoCreate(op);
        case Link(_, _) => err := DoLink(op);
        case Unlink(_, _) => err := DoUnlink(op);
        case Write(_, _, _) => err := DoWrite(op);
        case Property(_, _) => err := DoProperty(op);
        case NoOp => err := NoError;
      }
    }

    method Step(frame: Bytes)
      modifies this
      ensures View() == Advance(old(View()), frame)
    {
      nextSeqNo, nextChecksum := nextSeqNo + 1, Update(nextChecksum, frame);
      if hintedSegments != [] && hintedSegments[0].lastSeqNo < nextSeqNo {
        hintedSegments := hintedSegments[1..];
        if hintedSegments != [] {
          nextSeqNo, nextChecksum := hintedSegments[0].firstSeqNo, hintedSegments[0].firstChecksum;
        }
      }
    }

    method DoCreate(op: RecordedOp) returns (err: Error)
      requires op.body.Create?
      modifies this
      ensures (View(), err) == ApplyCreate(old(View()), op)
    {
      var path := op.body.path;
      if path in links {
        return ErrLinkExists;
      } else if path in properties {
        return ErrPropertyExists;
      }
      if hintedFnodes != [] {
        if hintedFnodes[0] != op.seqNo {
          return ErrFnodeNotTracked;
        }
        hintedFnodes := hintedFnodes[1..];
      }
      liveNodes := liveNodes[op.seqNo := FnodeState({path}, ExtendSegments([], op))];
      links := links[path := op.seqNo];
      return NoError;
    }

    method DoLink(op: RecordedOp) returns (err: Error)
      requires op.body.Link?
      modifies this
      ensures (View(), err) == ApplyLink(old(View()), op)
    {
      var Link(fnode, path) := op.body;
      if path in links {
        return ErrLinkExists;
      } else if path in properties {
        return ErrPropertyExists;
      } else if fnode !in liveNodes {
        return ErrFnodeNotTracked;
      }
      var node := liveNodes[fnode];
      liveNodes := liveNodes[fnode := FnodeState(node.links + {path}, ExtendSegments(node.segments, op))];
      links := links[path := fnode];
      return NoError;
    }

    method DoUnlink(op: RecordedOp) returns (err: Error)
      requires op.body.Unlink?
      modifies this
      ensures (View(), err) == ApplyUnlink(old(View()), op)
    {
      var Unlink(fnode, path) := op.body;
      if fnode !in liveNodes {
        return ErrFnodeNotTracked;
      }
      var node := liveNodes[fnode];
      if path !in node.links {
        return ErrNoSuchLink;
      }
      links := links - {path};
      node := FnodeState(node.links - {path}, ExtendSegments(node.segments, op));
      if node.links == {} {
        liveNodes := liveNodes - {fnode};
      } else {
        liveNodes := liveNodes[fnode := node];
      }
      return NoError;
    }

    method DoWrite(op: RecordedOp) returns (err: Error)
      requires op.body.Write?
      modifies this
      ensures (View(), err) == ApplyWrite(old(View()), op)
    {
      var fnode := op.body.writeFnode;
      if fnode !in liveNodes {
        return ErrFnodeNotTracked;
      }
      var node := liveNodes[fnode];
      liveNodes := liveNodes[fnode := node.(segments := ExtendSegments(node.segments, op))];
      return NoError;
    }

    method DoProperty(op: RecordedOp) returns (err: Error)
      requires op.body.Property?
      modifies this
      ensures (View(), err) == ApplyProperty(old(View()), op)
    {
      var Property(path, content) := op.body;
      if path in links {
        return ErrLinkExists;
      } else if path in properties && properties[path] != content {
        return ErrPropertyExists;
      }
      properties := properties[path := content];
      return NoError;
    }
  }

  // ---------------------------------------------------------------------------
  // What every transition keeps.

  /** Links and the link sets of the live Fnodes are mutual inverses. */
  ghost predicate LinksAreInverse(m: State) {
    && (forall p :: p in m.links ==> m.links[p] in m.liveNodes && p in m.liveNodes[m.links[p]].links)
    && (forall f, p :: f in m.liveNodes && p in m.liveNodes[f].links ==> p in m.links && m.links[p] == f)
  }

  /** Remaining hinted segments are a SegmentSet, and the next expected op lies in the first one. */
  ghost predicate HintsAreAligned(m: State) {
    && IsSegmentSet(m.hintedSegments)
    && (m.hintedSegments != [] ==> Spans(m.hintedSegments[0], m.nextSeqNo))
  }

  /** Links, live Fnodes and properties agree with one another. */
  ghost predicate Consistent(m: State) {
    && LinksAreInverse(m)
    && (forall f :: f in m.liveNodes ==> m.liveNodes[f].links != {})
    && (forall p :: p in m.links ==> p !in m.properties)
  }

  ghost predicate Invariant(m: State) {
    && Consistent(m)
    && (forall f :: f in m.liveNodes ==> f < m.nextSeqNo)
    && HintsAreAligned(m)
  }

  lemma CreateKeepsConsistent(m: State, op: RecordedOp)
    requires Consistent(m) && op.body.Create? && op.seqNo !in m.liveNodes
    ensures Consistent(ApplyCreate(m, op).0)
  {
    hide ExtendSegments;
  }

  lemma LinkKeepsConsistent(m: State, op: RecordedOp)
    requires Consistent(m) && op.body.Link?
    ensures Consistent(ApplyLink(m, op).0)
  {
    hide ExtendSegments;
  }

  lemma UnlinkKeepsConsistent(m: State, op: RecordedOp)
    requires Consistent(m) && op.body.Unlink?
    ensures Consistent(ApplyUnlink(m, op).0)
  {
    hide ExtendSegments, LinksAreInverse;
    var n := ApplyUnlink(m, op).0;
    if n != m {
      UnlinkKeepsInverse(m, n, op.body.unlinkFnode, op.body.unlinkPath);
    }
  }

  lemma UnlinkKeepsInverse(m: State, n: State, fnode: Fnode, path: string)
    requires LinksAreInverse(m) && fnode in m.liveNodes && path in m.liveNodes[fnode].links
    requires n.links == m.links - {path}
    requires forall f :: f in n.liveNodes ==> f in m.liveNodes
    requires forall f :: f in m.liveNodes && f != fnode ==> f in n.liveNodes && n.liveNodes[f] == m.liveNodes[f]
    requires if fnode in n.liveNodes then n.liveNodes[fnode].links == m.liveNodes[fnode].links - {path}
             else m.liveNodes[fnode].links == {path}
    ensures LinksAreInverse(n)
  {
    assert path in m.links && m.links[path] == fnode;
    forall p | p in n.links ensures n.links[p] in n.liveNodes && p in n.liveNodes[n.links[p]].links {
      assert p in m.links && p in m.liveNodes[m.links[p]].links;
    }
    forall f, p | f in n.liveNodes && p in n.liveNodes[f].links ensures p in n.links && n.links[p] == f {
      assert p in m.liveNodes[f].links;
    }
  }

  lemma WriteKeepsConsistent(m: State, op: RecordedOp)
    requires Consistent(m) && op.body.Write?
    ensures Consistent(ApplyWrite(m, op).0)
  {
    hide ExtendSegments;
  }

  lemma ApplyBodyKeepsInvariant(m: State, op: RecordedOp)
    requires Invariant(m) && op.seqNo == m.nextSeqNo
    ensures var n := ApplyBody(m, op).0;
            && Consistent(n)
            && (forall f :: f in n.liveNodes ==> f <= m.nextSeqNo)
            && n.hintedSegments == m.hintedSegments
            && n.nextSeqNo == m.nextSeqNo && n.nextChecksum == m.nextChecksum
    ensures !Transitions(ApplyBody(m, op).1) ==> ApplyBody(m, op).0 == m
  {
    assert op.seqNo !in m.liveNodes;
    hide LinksAreInverse, ExtendSegments;
    match op.body {
      case Create(_) => CreateKeepsConsistent(m, op);
      case Link(_, _) => LinkKeepsConsistent(m, op);
      case Unlink(_, _) => UnlinkKeepsConsistent(m, op);
      case Write(_, _, _) => WriteKeepsConsistent(m, op);
      case Property(_, _) =>
      case NoOp =>
    }
  }

  lemma ApplyKeepsInvariant(m: State, op: RecordedOp, frame: Bytes)
    requires Invariant(m)
    ensures Invariant(Apply(m, op, frame).0)
    ensures Transitions(Apply(m, op, frame).1) ==> m.nextSeqNo == op.seqNo < Apply(m, op, frame).0.nextSeqNo
    ensures !Transitions(Apply(m, op, frame).1) ==> Apply(m, op, frame).0 == m
  {
    if op.seqNo == m.nextSeqNo {
      ApplyBodyKeepsInvariant(m, op);
      var n := ApplyBody(m, op).0;
      if |n.hintedSegments| > 1 {
        assert Precedes(n.hintedSegments[0], n.hintedSegments[1]);
      }
    }
  }

  /** Without hints, an accepted op extends the chain by one. */
  lemma ApplyWithoutHints(m: State, op: RecordedOp, frame: Bytes)
    requires !HasRemainingHints(m)
    requires Transitions(Apply(m, op, frame).1)
    ensures op.seqNo == m.nextSeqNo && op.checksum == m.nextChecksum
    ensures Apply(m, op, frame).1 == ApplyBody(m, op).1
    ensures Apply(m, op, frame).0 ==
            ApplyBody(m, op).0.(nextSeqNo := op.seqNo + 1, nextChecksum := Update(op.checksum, frame))
    ensures !HasRemainingHints(Apply(m, op, frame).0)
  {
    BodyAddsNoHints(m, op);
    hide ApplyBody;
  }

  lemma BodyAddsNoHints(m: State, op: RecordedOp)
    ensures var n := ApplyBody(m, op).0;
            && n.hintedSegments == m.hintedSegments && (m.hintedFnodes == [] ==> n.hintedFnodes == [])
            && n.nextSeqNo == m.nextSeqNo && n.nextChecksum == m.nextChecksum
  {
    hide ExtendSegments;
  }

  /** The op reads or changes `fnode`. */
  predicate Touches(op: RecordedOp, fnode: Fnode) {
    match op.body
    case Create(_) => op.seqNo == fnode
    case Link(f, _) => f == fnode
    case Unlink(f, _) => f == fnode
    case Write(f, _, _) => f == fnode
    case Property(_, _) => false
    case NoOp => false
  }

  /**
   * An op changes only the Fnode it touches. That Fnode is created, extended by the op, or dropped;
   * nothing else brings a Fnode to life.
   */
  lemma ApplyBodyNode(m: State, op: RecordedOp, f: Fnode)
    requires Transitions(ApplyBody(m, op).1)
    ensures var n := ApplyBody(m, op).0;
            && (!Touches(op, f) ==>
                  && (f in n.liveNodes <==> f in m.liveNodes)
                  && (f in m.liveNodes ==> n.liveNodes[f] == m.liveNodes[f]))
            && (f in n.liveNodes && f !in m.liveNodes ==>
                  op.body.Create? && op.seqNo == f && n.liveNodes[f].segments == ExtendSegments([], op))
            && (Touches(op, f) && f in n.liveNodes && f in m.liveNodes && !op.body.Create? ==>
                  n.liveNodes[f].segments == ExtendSegments(m.liveNodes[f].segments, op))
  {
    hide ExtendSegments;
  }
}

/**
 * FSMHints: BuildHints compresses an FSM into its live Fnodes and their log Segments, and NewFSM
 * prepares an FSM to play a log with them (pkg/recoverylog/fsm.go).
 */
module Hints {
  import opened Common
  import opened Segments
  import opened Fsm

  datatype FnodeSegments = FnodeSegments(fnode: Fnode, segments: seq<Segment>)

  datatype HintedProperty = HintedProperty(path: string, content: Bytes)

  datatype FSMHints = FSMHints(log: string, liveNodes: seq<FnodeSegments>, properties: seq<HintedProperty>)

  // ---------------------------------------------------------------------------
  // LiveLogSegments and NewFSM

  predicate StartsAtFnode(n: FnodeSegments) {
    n.segments != [] && n.segments[0].firstSeqNo == n.fnode
  }

  predicate Ascending(nodes: seq<FnodeSegments>) {
    forall i, j :: 0 <= i < j < |nodes| ==> nodes[i].fnode < nodes[j].fnode
  }

  predicate NodesAreValid(nodes: seq<FnodeSegments>) {
    (forall i :: 0 <= i < |nodes| ==> StartsAtFnode(nodes[i])) && Ascending(nodes)
  }

  function Fnodes(nodes: seq<FnodeSegments>): seq<Fnode> {
    seq(|nodes|, i requires 0 <= i < |nodes| => nodes[i].fnode)
  }

  function AllSegments(nodes: seq<FnodeSegments>): seq<Segment> {
    if nodes == [] then [] else AllSegments(nodes[..|nodes| - 1]) + nodes[|nodes| - 1].segments
  }

  /** LiveLogSegments on values: the ordered Fnodes, and the set of all their Segments. */
  function Flatten(nodes: seq<FnodeSegments>): Option<(seq<Fnode>, seq<Segment>)> {
    if !NodesAreValid(nodes) then None
    else match AddAll([], AllSegments(nodes))
      case None => None
      case Some(set_) => Some((Fnodes(nodes), set_))
  }

  lemma {:induction false} AddAllConcat(segs: seq<Segment>, xs: seq<Segment>, ys: seq<Segment>)
    ensures AddAll(segs, xs + ys) ==
            match AddAll(segs, xs) case None => None case Some(mid) => AddAll(mid, ys)
    decreases xs
  {
    if xs == [] {
      assert xs + ys == ys;
    } else {
      assert (xs + ys)[1..] == xs[1..] + ys;
      match AddTo(segs, xs[0]) {
        case None =>
        case Some(next) => AddAllConcat(next, xs[1..], ys);
      }
    }
  }

  /** If the segments of a prefix of the nodes cannot be added, then neither can those of all nodes. */
  lemma {:induction false} AllSegmentsPrefix(nodes: seq<FnodeSegments>, i: nat)
    requires i <= |nodes|
    requires AddAll([], AllSegments(nodes[..i])).None?
    ensures AddAll([], AllSegments(nodes)).None?
    decreases |nodes|
  {
    if i < |nodes| {
      var init := nodes[..|nodes| - 1];
      assert init[..i] == nodes[..i];
      AllSegmentsPrefix(init, i);
      AddAllConcat([], AllSegments(init), nodes[|nodes| - 1].segments);
    } else {
      assert nodes[..i] == nodes;
    }
  }

  /** What LiveLogSegments has collected from the first `i` nodes. */
  ghost predicate Flattened(nodes: seq<FnodeSegments>, i: nat, fnodes: seq<Fnode>, segs: seq<Segment>)
    requires i <= |nodes|
  {
    Flatten(nodes[..i]) == Some((fnodes, segs))
  }

  /** The checks of one iteration decide whether the nodes through this one are valid. */
  lemma ValidPrefixStep(nodes: seq<FnodeSegments>, i: nat)
    requires i < |nodes| && NodesAreValid(nodes[..i])
    ensures StartsAtFnode(nodes[i]) && (i == 0 || nodes[i - 1].fnode < nodes[i].fnode) <==>
            NodesAreValid(nodes[..i + 1])
    ensures NodesAreValid(nodes) ==> NodesAreValid(nodes[..i + 1])
    ensures Fnodes(nodes[..i + 1]) == Fnodes(nodes[..i]) + [nodes[i].fnode]
  {
    var p, q := nodes[..i], nodes[..i + 1];
    assert forall k :: 0 <= k < i ==> p[k] == q[k];
    assert q[i] == nodes[i];
    if StartsAtFnode(nodes[i]) && (i == 0 || nodes[i - 1].fnode < nodes[i].fnode) {
      forall k | 0 <= k < i ensures q[k].fnode < q[i].fnode {
        assert k == i - 1 || p[k].fnode < p[i - 1].fnode;
      }
    }
  }

  lemma FlattenStep(nodes: seq<FnodeSegments>, i: nat, fnodes: seq<Fnode>, segs: seq<Segment>)
    requires i < |nodes| && Flattened(nodes, i, fnodes, segs)
    ensures IsSegmentSet(segs) && |fnodes| == i && (i > 0 ==> fnodes[i - 1] == nodes[i - 1].fnode)
    ensures var n := nodes[i];
            if !StartsAtFnode(n) || (i > 0 && fnodes[i - 1] >= n.fnode) || AddAll(segs, n.segments).None?
            then Flatten(nodes).None?
            else Flattened(nodes, i + 1, fnodes + [n.fnode], AddAll(segs, n.segments).value)
  {
    var n := nodes[i];
    ValidPrefixStep(nodes, i);
    AddAllMeaning([], AllSegments(nodes[..i]));
    assert nodes[..i + 1][..i] == nodes[..i];
    AddAllConcat([], AllSegments(nodes[..i]), n.segments);
    if AddAll(segs, n.segments).None? {
      AllSegmentsPrefix(nodes, i + 1);
    }
  }

  method LiveLogSegments(nodes: seq<FnodeSegments>) returns (r: Option<(seq<Fnode>, seq<Segment>)>)
    ensures r == Flatten(nodes)
  {
    var fnodes: seq<Fnode> := [];
    var segments := new SegmentSet();
    assert nodes[..0] == [] && Fnodes([]) == [] && AllSegments([]) == [];
    for i := 0 to |nodes|
      invariant IsSegmentSet(segments.segments)
      invariant Flattened(nodes, i, fnodes, segments.segments)
    {
      var n := nodes[i];
      FlattenStep(nodes, i, fnodes, segments.segments);
      if n.segments == [] || n.segments[0].firstSeqNo != n.fnode {
        return None;
      } else if i != 0 && fnodes[i - 1] >= n.fnode {
        return None;
      }
      fnodes := fnodes + [n.fnode];
      var ok := AddNode(segments, n.segments);
      if !ok {
        return None;
      }
    }
    assert nodes[..|nodes|] == nodes;
    return Some((fnodes, segments.segments));
  }

  /** The inner loop of LiveLogSegments: adds every segment of one node. */
  method AddNode(set_: SegmentSet, segments: seq<Segment>) returns (ok: bool)
    requires IsSegmentSet(set_.segments)
    modifies set_
    ensures IsSegmentSet(set_.segments)
    ensures ok <==> AddAll(old(set_.segments), segments).Some?
    ensures ok ==> AddAll(old(set_.segments), segments) == Some(set_.segments)
  {
    for j := 0 to |segments|
      invariant IsSegmentSet(set_.segments)
      invariant AddAll(set_.segments, segments[j..]) == AddAll(old(set_.segments), segments)
    {
      ok := set_.Add(segments[j]);
      assert segments[j..][1..] == segments[j + 1..];
      if !ok {
        return;
      }
    }
    return true;
  }

  /** The flattened properties of hints; a later entry of the same path wins. */
  function PropertyMap(properties: seq<HintedProperty>): map<string, Bytes> {
    if properties == [] then map[]
    else
      var p := properties[|properties| - 1];
      PropertyMap(properties[..|properties| - 1])[p.path := p.content]
  }

  /** The state of the FSM which NewFSM returns, or None where it returns an error. */
  function InitialState(hints: FSMHints): Option<State> {
    if hints.log == "" then None
    else match Flatten(hints.liveNodes)
      case None => None
      case Some((fnodes, segs)) =>
        Some(State(
          if segs == [] then 1 else segs[0].firstSeqNo,
          if segs == [] then Zero else segs[0].firstChecksum,
          PropertyMap(hints.properties), map[], map[], segs, fnodes))
  }

  lemma InitialStateIsValid(hints: FSMHints)
    ensures InitialState(hints).Some? ==> Invariant(InitialState(hints).value)
  {
    if InitialState(hints).Some? {
      AddAllMeaning([], AllSegments(hints.liveNodes));
    }
  }

  method NewFSM(hints: FSMHints) returns (fsm: FSM?)
    ensures fsm == null <==> InitialState(hints).None?
    ensures fsm != null ==> fresh(fsm) && fsm.View() == InitialState(hints).value && Invariant(fsm.View())
  {
    if hints.log == "" {
      return null;
    }
    var flat := LiveLogSegments(hints.liveNodes);
    if flat.None? {
      return null;
    }
    InitialStateIsValid(hints);
    var (fnodes, segs) := flat.value;
    var m := State(1, Zero, map[], map[], map[], [], fnodes);
    if segs != [] {
      m := m.(nextSeqNo := segs[0].firstSeqNo, nextChecksum := segs[0].firstChecksum, hintedSegments := segs);
    }
    for i := 0 to |hints.properties|
      invariant m == State(if segs == [] then 1 else segs[0].firstSeqNo,
                           if segs == [] then Zero else segs[0].firstChecksum,
                           PropertyMap(hints.properties[..i]), map[], map[], segs, fnodes)
    {
      assert hints.properties[..i + 1][..i] == hints.properties[..i];
      m := m.(properties := m.properties[hints.properties[i].path := hints.properties[i].content]);
    }
    assert hints.properties[..|hints.properties|] == hints.properties;
    fsm := new FSM(m);
  }

  // ---------------------------------------------------------------------------
  // BuildHints

  /** `hints` are hints of an FSM in state `m`: its live Fnodes in ascending order, and its properties. */
  ghost predicate AreHintsOf(hints: FSMHints, m: State) {
    && Ascending(hints.liveNodes)
    && (forall i :: 0 <= i < |hints.liveNodes| ==> IsNodeOf(hints.liveNodes[i], m))
    && (forall f :: f in m.liveNodes ==> FnodeSegments(f, m.liveNodes[f].segments) in hints.liveNodes)
    && PropertyMap(hints.properties) == m.properties
  }

  ghost predicate IsNodeOf(n: FnodeSegments, m: State) {
    n.fnode in m.liveNodes && m.liveNodes[n.fnode].segments == n.segments
  }

  /** sort.Slice on ascending Fnode, as an insertion of each node in turn. */
  function Insert(nodes: seq<FnodeSegments>, n: FnodeSegments): (r: seq<FnodeSegments>)
    requires Ascending(nodes) && forall i :: 0 <= i < |nodes| ==> nodes[i].fnode != n.fnode
    ensures Ascending(r)
    ensures forall x :: x in r <==> x in nodes || x == n
  {
    if nodes == [] || n.fnode < nodes[0].fnode then [n] + nodes
    else
      assert forall x :: x in nodes <==> x == nodes[0] || x in nodes[1..];
      var r := Insert(nodes[1..], n);
      assert forall i :: 0 <= i < |r| ==> r[i] in r;
      [nodes[0]] + r
  }

  method BuildHints(m: FSM, log: string) returns (hints: FSMHints)
    ensures hints.log == log && AreHintsOf(hints, m.View())
  {
    var nodes := FlattenNodes(m.liveNodes);
    var properties := FlattenProperties(m.properties);
    hints := FSMHints(log, nodes, properties);
  }

  /** The next key of a map iteration, which has no order. */
  method Any(keys: set<Fnode>) returns (f: Fnode)
    requires keys != {}
    ensures f in keys
  {
    assert (forall x :: x !in keys) ==> keys == {};
    f :| f in keys;
  }

  method FlattenNodes(live: map<Fnode, FnodeState>) returns (nodes: seq<FnodeSegments>)
    ensures Ascending(nodes)
    ensures forall i :: 0 <= i < |nodes| ==>
            nodes[i].fnode in live && live[nodes[i].fnode].segments == nodes[i].segments
    ensures forall f :: f in live ==> FnodeSegments(f, live[f].segments) in nodes
  {
    nodes := [];
    var todo := live.Keys;
    while todo != {}
      invariant todo <= live.Keys
      invariant Ascending(nodes)
      invariant forall i :: 0 <= i < |nodes| ==>
                  nodes[i].fnode in live && live[nodes[i].fnode].segments == nodes[i].segments
                    && nodes[i].fnode !in todo
      invariant forall f :: f in live && f !in todo ==> FnodeSegments(f, live[f].segments) in nodes
    {
      var f := Any(todo);
      nodes := Insert(nodes, FnodeSegments(f, live[f].segments));
      assert forall i :: 0 <= i < |nodes| ==> nodes[i] in nodes;
      todo := todo - {f};
    }
  }

  method FlattenProperties(properties: map<string, Bytes>) returns (r: seq<HintedProperty>)
    ensures PropertyMap(r) == properties
  {
    r := [];
    var todo := properties.Keys;
    while todo != {}
      invariant todo <= properties.Keys
      invariant PropertyMap(r) == map p | p in properties && p !in todo :: properties[p]
    {
      var p :| p in todo;
      r := r + [HintedProperty(p, properties[p])];
      todo := todo - {p};
    }
  }
}

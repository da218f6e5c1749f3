/**
 * The Recorder turns file operations into sequenced ops of its Author, applies each to its own FSM, and
 * writes their frames to the recovery log (pkg/recoverylog/recorder.go). Where the original panics, the
 * functions below are None and the methods return false.
 */
module Recorder {
  import opened Common
  import opened Fsm
  import opened History

  /** Paths which are properties, rather than tracked as Fnodes. */
  const PropertyFiles: set<string> := {Identity}

  const Identity := "/IDENTITY"

  /** Marshals an op to the payload of its frame. */
  type Marshal = RecordedOp -> Bytes

  /** The FSM of a recorder, the log head it last observed, and the ops it has recorded. */
  datatype Recording = Recording(fsm: State, writeHead: int, entries: seq<Entry>)

  /** process: sequences an op, and applies it. Recorded ops have no LastOffset. */
  function Process(r: Recording, id: nat, marshal: Marshal, body: Body, data: Bytes): Option<Recording> {
    var op := RecordedOp(r.fsm.nextSeqNo, r.fsm.nextChecksum, id, 0, 0, body);
    var frame := marshal(op);
    var tracked := op.(firstOffset := r.writeHead);
    var (n, err) := Apply(r.fsm, tracked, frame);
    if err != NoError then None
    else Some(r.(fsm := n, entries := r.entries + [Entry(tracked, frame, data)]))
  }

  function Then(r: Option<Recording>, id: nat, marshal: Marshal, body: Body): Option<Recording> {
    match r case None => None case Some(x) => Process(x, id, marshal, body, [])
  }

  /** Unlinks the Fnode at `path`, if there is one. */
  function UnlinkPrevious(r: Recording, id: nat, marshal: Marshal, path: string): Option<Recording> {
    if path in r.fsm.links then Process(r, id, marshal, Unlink(r.fsm.links[path], path), []) else Some(r)
  }

  function NewWritableFile(r: Recording, id: nat, marshal: Marshal, path: string): Option<Recording> {
    if path in PropertyFiles then None
    else Then(UnlinkPrevious(r, id, marshal, path), id, marshal, Create(path))
  }

  function DeleteFile(r: Recording, id: nat, marshal: Marshal, path: string): Option<Recording> {
    if path in PropertyFiles || path !in r.fsm.links then None
    else Process(r, id, marshal, Unlink(r.fsm.links[path], path), [])
  }

  function LinkFile(r: Recording, id: nat, marshal: Marshal, src: string, target: string): Option<Recording> {
    if target in PropertyFiles || src !in r.fsm.links then None
    else Process(r, id, marshal, Link(r.fsm.links[src], target), [])
  }

  /** `content` is what is read of the renamed file, if `target` is a property. */
  function RenameFile(r: Recording, id: nat, marshal: Marshal, src: string, target: string,
                      content: Bytes): Option<Recording> {
    if src !in r.fsm.links then None
    else
      var fnode := r.fsm.links[src];
      var unlinked := UnlinkPrevious(r, id, marshal, target);
      var moved := Then(unlinked, id, marshal,
                        if target in PropertyFiles then Property(target, content) else Link(fnode, target));
      Then(moved, id, marshal, Unlink(fnode, src))
  }

  /** An append of a file recorder, which has `offset` bytes of `fnode` behind it. */
  function AppendFile(r: Recording, id: nat, marshal: Marshal, fnode: Fnode, offset: nat,
                      data: Bytes): Option<Recording> {
    Process(r, id, marshal, Write(fnode, offset, |data|), data)
  }

  // ---------------------------------------------------------------------------
  // What a recorder has recorded, after what it may have recovered, is a history.

  /**
   * An op as the Recorder of Author `id` knows it, which has observed the log head `head`. It doesn't know where its
   * own ops end, other than a no-op by which it took over.
   */
  predicate IsKnown(op: RecordedOp, id: nat, head: int) {
    && 0 <= op.firstOffset <= head && IsRecordable(op.body)
    && (op.author == 0 ==> id == 0)
    && (op.author == id && !op.body.NoOp? ==> op.lastOffset == 0)
  }

  /** Authors take over from one another, and the latest is `id`. */
  ghost predicate AuthorsLeadTo(h: seq<Entry>, id: nat) {
    && (forall i, j, l :: 0 <= i <= j <= l < |h| && h[i].op.author == h[l].op.author ==>
          h[j].op.author == h[i].op.author)
    && (h != [] ==> h[|h| - 1].op.author == id)
  }

  /** Property paths are sinks: they are set by property ops, and by those only. */
  predicate IsRecordable(body: Body) {
    match body
    case Create(path) => path !in PropertyFiles
    case Link(_, path) => path !in PropertyFiles
    case Property(path, _) => path in PropertyFiles
    case Write(_, offset, _) => offset >= 0
    case _ => true
  }

  ghost predicate IsRecording(r: Recording, id: nat) {
    && IsHistory(r.entries)
    && r.fsm == StateAt(r.entries, |r.entries|)
    && r.writeHead >= 0
    && (forall i :: 0 <= i < |r.entries| ==> IsKnown(r.entries[i].op, id, r.writeHead))
    && OffsetsAreOrdered(r.entries)
    && AuthorsLeadTo(r.entries, id)
  }

  lemma OrderExtends(h: seq<Entry>, x: Entry, id: nat, head: int)
    requires OffsetsAreOrdered(h) && AuthorsLeadTo(h, id) && forall i :: 0 <= i < |h| ==> IsKnown(h[i].op, id, head)
    requires x.op.author == id && x.op.firstOffset == head >= 0 && x.op.lastOffset == 0
    ensures OffsetsAreOrdered(h + [x]) && AuthorsLeadTo(h + [x], id)
  {
    var n := h + [x];
    forall i, j | 0 <= i <= j < |n| ensures OffsetsOrdered(n[i].op, n[j].op) {
      assert j < |h| ==> OffsetsOrdered(h[i].op, h[j].op);
      assert i < |h| ==> IsKnown(h[i].op, id, head);
    }
    forall i | 0 <= i < |n| ensures ValidOffsets(n[i].op) {
    }
  }

  lemma {:induction false} StateAtPrefix(h: seq<Entry>, x: Entry, k: nat)
    requires k <= |h|
    ensures StateAt(h + [x], k) == StateAt(h, k)
  {
    hide Apply;
    if k > 0 {
      StateAtPrefix(h, x, k - 1);
    }
  }

  lemma HistoryExtends(h: seq<Entry>, x: Entry)
    requires IsHistory(h) && Transitions(Apply(StateAt(h, |h|), x.op, x.frame).1)
    ensures IsHistory(h + [x])
    ensures StateAt(h + [x], |h| + 1) == Apply(StateAt(h, |h|), x.op, x.frame).0
  {
    hide Apply;
    forall k | 0 <= k <= |h| ensures StateAt(h + [x], k) == StateAt(h, k) {
      StateAtPrefix(h, x, k);
    }
  }

  lemma ProcessRecords(r: Recording, id: nat, marshal: Marshal, body: Body, data: Bytes)
    requires IsRecording(r, id) && IsRecordable(body) && Process(r, id, marshal, body, data).Some?
    ensures var n := Process(r, id, marshal, body, data).value;
            && IsRecording(n, id)
            && |n.entries| == |r.entries| + 1
            && r.entries == n.entries[..|r.entries|]
            && n.entries[|r.entries|].op.body == body
            && n.entries[|r.entries|].data == data
            && n.writeHead == r.writeHead
  {
    hide Apply, StateAt, IsHistory;
    var n := Process(r, id, marshal, body, data).value;
    HistoryExtends(r.entries, n.entries[|r.entries|]);
    OrderExtends(r.entries, n.entries[|r.entries|], id, r.writeHead);
    hide OffsetsAreOrdered, AuthorsLeadTo;
    forall i | 0 <= i < |n.entries| ensures IsKnown(n.entries[i].op, id, n.writeHead) {
      assert i < |r.entries| ==> IsKnown(r.entries[i].op, id, r.writeHead);
    }
  }

  // ---------------------------------------------------------------------------
  // When the Recorder accepts a file operation

  /** The FSM accepts the op of a Recorder. */
  ghost predicate Accepts(m: State, body: Body) {
    match body
    case Create(p) => p !in m.links && p !in m.properties
    case Link(f, p) => p !in m.links && p !in m.properties && f in m.liveNodes
    case Unlink(f, p) => p in m.links && m.links[p] == f
    case Property(p, content) => p !in m.links && (p in m.properties ==> m.properties[p] == content)
    case Write(f, _, _) => f in m.liveNodes
    case NoOp => true
  }

  lemma ProcessIff(r: Recording, id: nat, marshal: Marshal, body: Body, data: Bytes)
    requires IsRecording(r, id)
    ensures Process(r, id, marshal, body, data).Some? <==> Accepts(r.fsm, body)
  {
    hide StateAt, IsHistory, ExtendSegments, Advance;
    StateAtIsValid(r.entries, |r.entries|);
  }

  /** Tracked links are of other paths than properties. */
  lemma {:induction false} PathsAreApart(h: seq<Entry>, k: nat)
    requires IsHistory(h) && k <= |h| && forall i :: 0 <= i < |h| ==> IsRecordable(h[i].op.body)
    ensures forall p :: p in StateAt(h, k).links ==> p !in PropertyFiles
    ensures forall p :: p in StateAt(h, k).properties ==> p in PropertyFiles
  {
    hide StateAt, IsHistory, ExtendSegments;
    if k == 0 {
      StateAtIsValid(h, 0);
    } else {
      PathsAreApart(h, k - 1);
      HistoryStep(h, k - 1);
      assert IsRecordable(h[k - 1].op.body);
    }
  }

  lemma RecordingIsApart(r: Recording, id: nat)
    requires IsRecording(r, id)
    ensures forall p :: p in r.fsm.links ==> p !in PropertyFiles
    ensures forall p :: p in r.fsm.properties ==> p in PropertyFiles
    ensures Consistent(r.fsm)
  {
    hide StateAt, IsHistory, OffsetsAreOrdered, AuthorsLeadTo;
    forall i | 0 <= i < |r.entries| ensures IsRecordable(r.entries[i].op.body) {
      assert IsKnown(r.entries[i].op, id, r.writeHead);
    }
    StateAtIsValid(r.entries, |r.entries|);
    PathsAreApart(r.entries, |r.entries|);
  }

  /** What an accepted op does to the FSM, other than to Segments of its Fnode. */
  lemma ProcessEffect(r: Recording, id: nat, marshal: Marshal, body: Body, data: Bytes)
    requires IsRecording(r, id) && IsRecordable(body) && Accepts(r.fsm, body)
    ensures Process(r, id, marshal, body, data).Some?
    ensures var n := Process(r, id, marshal, body, data).value;
            IsRecording(n, id) && Affects(r.fsm, body, n.fsm)
  {
    ProcessIff(r, id, marshal, body, data);
    ProcessRecords(r, id, marshal, body, data);
    BodyAffects(r, id, marshal, body, data);
  }

  ghost predicate Affects(m: State, body: Body, n: State) {
    match body
    case Link(f, p) => n.links == m.links[p := f] && n.properties == m.properties
    case Unlink(f, p) =>
      && n.links == m.links - {p} && n.properties == m.properties && f in m.liveNodes
      && (forall g :: g in n.liveNodes <==> g in m.liveNodes && (g == f ==> m.liveNodes[f].links != {p}))
    case Property(p, content) => n.links == m.links && n.properties == m.properties[p := content]
    case _ => true
  }

  lemma BodyAffects(r: Recording, id: nat, marshal: Marshal, body: Body, data: Bytes)
    requires IsRecording(r, id) && Accepts(r.fsm, body) && Process(r, id, marshal, body, data).Some?
    ensures Affects(r.fsm, body, Process(r, id, marshal, body, data).value.fsm)
  {
    hide StateAt, IsHistory, ExtendSegments;
    StateAtIsValid(r.entries, |r.entries|);
  }

  lemma UnlinkPreviousIs(r: Recording, id: nat, marshal: Marshal, path: string)
    requires IsRecording(r, id)
    ensures var n := UnlinkPrevious(r, id, marshal, path);
            && n.Some? && IsRecording(n.value, id)
            && n.value.fsm.links == r.fsm.links - {path} && n.value.fsm.properties == r.fsm.properties
  {
    hide IsRecording, Process;
    if path in r.fsm.links {
      ProcessEffect(r, id, marshal, Unlink(r.fsm.links[path], path), []);
    }
  }

  /** A file can be created at any path which isn't that of a property. One which is there already is replaced. */
  lemma NewWritableFileIff(r: Recording, id: nat, marshal: Marshal, path: string)
    requires IsRecording(r, id)
    ensures NewWritableFile(r, id, marshal, path).Some? <==> path !in PropertyFiles
  {
    hide IsRecording, Process, UnlinkPrevious;
    RecordingIsApart(r, id);
    UnlinkPreviousIs(r, id, marshal, path);
    ProcessIff(UnlinkPrevious(r, id, marshal, path).value, id, marshal, Create(path), []);
  }

  /** Just files which are tracked can be deleted. */
  lemma DeleteFileIff(r: Recording, id: nat, marshal: Marshal, path: string)
    requires IsRecording(r, id)
    ensures DeleteFile(r, id, marshal, path).Some? <==> path in r.fsm.links
  {
    hide IsRecording, Process;
    RecordingIsApart(r, id);
    if path in r.fsm.links {
      ProcessIff(r, id, marshal, Unlink(r.fsm.links[path], path), []);
    }
  }

  /** A tracked file can be linked to any path which isn't taken, or that of a property. */
  lemma LinkFileIff(r: Recording, id: nat, marshal: Marshal, src: string, target: string)
    requires IsRecording(r, id)
    ensures LinkFile(r, id, marshal, src, target).Some? <==>
            src in r.fsm.links && target !in r.fsm.links && target !in PropertyFiles
  {
    hide IsRecording, Process;
    RecordingIsApart(r, id);
    if src in r.fsm.links {
      ProcessIff(r, id, marshal, Link(r.fsm.links[src], target), []);
    }
  }

  /**
   * A tracked file can be renamed to any path but that of a property which has other content. It can't be renamed to
   * its own path, unless it's linked from elsewhere: it would be unlinked first, and then no longer be tracked.
   */
  ghost predicate CanRename(m: State, src: string, target: string, content: Bytes) {
    && src in m.links
    && (target in PropertyFiles && target in m.properties ==> m.properties[target] == content)
    && (target == src ==> m.links[src] in m.liveNodes && m.liveNodes[m.links[src]].links != {src})
  }

  lemma RenameFileIff(r: Recording, id: nat, marshal: Marshal, src: string, target: string, content: Bytes)
    requires IsRecording(r, id)
    ensures RenameFile(r, id, marshal, src, target, content).Some? <==> CanRename(r.fsm, src, target, content)
  {
    hide IsRecording, Process;
    RecordingIsApart(r, id);
    if src in r.fsm.links {
      var f := r.fsm.links[src];
      UnlinkPreviousIs(r, id, marshal, target);
      var unlinked := UnlinkPrevious(r, id, marshal, target).value;
      var body := if target in PropertyFiles then Property(target, content) else Link(f, target);
      UnlinkedIsLive(r, id, marshal, src, target);
      ProcessIff(unlinked, id, marshal, body, []);
      if Accepts(unlinked.fsm, body) {
        ProcessEffect(unlinked, id, marshal, body, []);
        var moved := Process(unlinked, id, marshal, body, []).value;
        ProcessIff(moved, id, marshal, Unlink(f, src), []);
      }
    }
  }

  lemma UnlinkedIsLive(r: Recording, id: nat, marshal: Marshal, src: string, target: string)
    requires IsRecording(r, id) && src in r.fsm.links
    ensures UnlinkPrevious(r, id, marshal, target).Some? && r.fsm.links[src] in r.fsm.liveNodes
    ensures r.fsm.links[src] in UnlinkPrevious(r, id, marshal, target).value.fsm.liveNodes <==>
            (target == src ==> r.fsm.liveNodes[r.fsm.links[src]].links != {src})
  {
    hide IsRecording, Process;
    RecordingIsApart(r, id);
    var f := r.fsm.links[src];
    assert f in r.fsm.liveNodes && src in r.fsm.liveNodes[f].links;
    if target in r.fsm.links {
      ProcessEffect(r, id, marshal, Unlink(r.fsm.links[target], target), []);
    }
  }

  /** A file can be written for as long as it's linked. */
  lemma AppendFileIff(r: Recording, id: nat, marshal: Marshal, fnode: Fnode, offset: nat, data: Bytes)
    requires IsRecording(r, id)
    ensures AppendFile(r, id, marshal, fnode, offset, data).Some? <==> fnode in r.fsm.liveNodes
    ensures fnode in r.fsm.liveNodes <==> exists p :: p in r.fsm.links && r.fsm.links[p] == fnode
  {
    hide IsRecording, Process;
    RecordingIsApart(r, id);
    ProcessIff(r, id, marshal, Write(fnode, offset, |data|), data);
    if fnode in r.fsm.liveNodes {
      var p :| p in r.fsm.liveNodes[fnode].links;
      assert p in r.fsm.links && r.fsm.links[p] == fnode;
    }
  }

  // ---------------------------------------------------------------------------
  // The Recorder, which updates its FSM in place

  /** An append of the journal client, which has a write head once it's ready. */
  class AsyncAppend {
    var ready: bool
    var writeHead: int

    constructor ()
      ensures !ready
    {
      ready, writeHead := false, 0;
    }
  }

  class LogRecorder {
    const fsm: FSM
    const id: nat
    const marshal: Marshal
    var writeHead: int
    var pendingWrite: AsyncAppend?
    var entries: seq<Entry>

    function View(): Recording
      reads this, fsm
    {
      Recording(fsm.View(), writeHead, entries)
    }

    constructor (fsm: FSM, id: nat, marshal: Marshal, writeHead: int)
      ensures this.fsm == fsm && this.id == id && this.marshal == marshal
      ensures View() == Recording(fsm.View(), writeHead, [])
    {
      this.fsm, this.id, this.marshal := fsm, id, marshal;
      this.writeHead, this.pendingWrite, this.entries := writeHead, null, [];
    }

    method ProcessOp(body: Body, data: Bytes) returns (ok: bool)
      requires Invariant(fsm.View())
      modifies this, fsm
      ensures Invariant(fsm.View())
      ensures ok <==> Process(old(View()), id, marshal, body, data).Some?
      ensures ok ==> View() == Process(old(View()), id, marshal, body, data).value
    {
      var op := RecordedOp(fsm.nextSeqNo, fsm.nextChecksum, id, 0, 0, body);
      var frame := marshal(op);
      op := op.(firstOffset := writeHead);
      var err := fsm.ApplyOp(op, frame);
      if err != NoError {
        return false;
      }
      entries := entries + [Entry(op, frame, data)];
      return true;
    }

    method NewFile(path: string) returns (ok: bool, fnode: Fnode)
      requires Invariant(fsm.View())
      modifies this, fsm
      ensures Invariant(fsm.View())
      ensures ok <==> NewWritableFile(old(View()), id, marshal, path).Some?
      ensures ok ==> View() == NewWritableFile(old(View()), id, marshal, path).value
      ensures ok ==> path in fsm.links && fnode == fsm.links[path]
      ensures IsRecording(old(View()), id) ==> (ok <==> path !in PropertyFiles)
    {
      hide Apply, Invariant, IsRecording;
      if IsRecording(View(), id) {
        NewWritableFileIff(View(), id, marshal, path);
      }
      fnode := 0;
      if path in PropertyFiles {
        return false, 0;
      }
      if path in fsm.links {
        ok := ProcessOp(Unlink(fsm.links[path], path), []);
        if !ok {
          return;
        }
      }
      CreateLinks(View(), id, marshal, path);
      ok := ProcessOp(Create(path), []);
      if ok {
        fnode := fsm.links[path];
      }
    }

    method Delete(path: string) returns (ok: bool)
      requires Invariant(fsm.View())
      modifies this, fsm
      ensures Invariant(fsm.View())
      ensures ok <==> DeleteFile(old(View()), id, marshal, path).Some?
      ensures ok ==> View() == DeleteFile(old(View()), id, marshal, path).value
      ensures IsRecording(old(View()), id) ==> (ok <==> path in old(fsm.links))
    {
      hide Process, Invariant, IsRecording;
      if IsRecording(View(), id) {
        DeleteFileIff(View(), id, marshal, path);
      }
      if path in PropertyFiles || path !in fsm.links {
        return false;
      }
      ok := ProcessOp(Unlink(fsm.links[path], path), []);
    }

    method LinkTo(src: string, target: string) returns (ok: bool)
      requires Invariant(fsm.View())
      modifies this, fsm
      ensures Invariant(fsm.View())
      ensures ok <==> LinkFile(old(View()), id, marshal, src, target).Some?
      ensures ok ==> View() == LinkFile(old(View()), id, marshal, src, target).value
      ensures IsRecording(old(View()), id) ==>
                (ok <==> src in old(fsm.links) && target !in old(fsm.links) && target !in PropertyFiles)
    {
      hide Process, Invariant, IsRecording;
      if IsRecording(View(), id) {
        LinkFileIff(View(), id, marshal, src, target);
      }
      if target in PropertyFiles || src !in fsm.links {
        return false;
      }
      ok := ProcessOp(Link(fsm.links[src], target), []);
    }

    method Rename(src: string, target: string, content: Bytes) returns (ok: bool)
      requires Invariant(fsm.View())
      modifies this, fsm
      ensures Invariant(fsm.View())
      ensures ok <==> RenameFile(old(View()), id, marshal, src, target, content).Some?
      ensures ok ==> View() == RenameFile(old(View()), id, marshal, src, target, content).value
      ensures IsRecording(old(View()), id) ==> (ok <==> CanRename(old(fsm.View()), src, target, content))
    {
      hide Process, Invariant, IsRecording, CanRename;
      if IsRecording(View(), id) {
        RenameFileIff(View(), id, marshal, src, target, content);
      }
      if src !in fsm.links {
        return false;
      }
      var fnode := fsm.links[src];
      if target in fsm.links {
        ok := ProcessOp(Unlink(fsm.links[target], target), []);
        if !ok {
          return;
        }
      }
      if target in PropertyFiles {
        ok := ProcessOp(Property(target, content), []);
      } else {
        ok := ProcessOp(Link(fnode, target), []);
      }
      if !ok {
        return;
      }
      ok := ProcessOp(Unlink(fnode, src), []);
    }

    /** The known log head is not past the end of the log, and a completed append doesn't move it back. */
    ghost predicate HeadIsBounded(end: int)
      reads this, pendingWrite
    {
      && writeHead <= end
      && (pendingWrite != null && pendingWrite.ready ==> writeHead <= pendingWrite.writeHead <= end)
    }

    /**
     * updateWriteHead: adopts the head of the pending append if it has completed, and then awaits `write`. As appends
     * complete in order, the head only moves forward, and it's never past the end of the log.
     */
    method UpdateWriteHead(write: AsyncAppend, ghost end: int)
      requires HeadIsBounded(end)
      requires write.ready ==> writeHead <= write.writeHead <= end
      requires write.ready && pendingWrite != null && pendingWrite.ready ==> pendingWrite.writeHead <= write.writeHead
      modifies this`writeHead, this`pendingWrite
      ensures var pending := if old(pendingWrite) == null then write else old(pendingWrite);
              if pending.ready then writeHead == pending.writeHead && pendingWrite == write
              else writeHead == old(writeHead) && pendingWrite == pending
      ensures HeadIsBounded(end) && writeHead >= old(writeHead) && entries == old(entries)
    {
      if pendingWrite == null {
        pendingWrite := write;
      }
      if pendingWrite.ready {
        writeHead := pendingWrite.writeHead;
        pendingWrite := write;
      }
    }
  }

  /** A file opened with NewWritableFile: its Fnode, and the next write offset. */
  class FileRecorder {
    const recorder: LogRecorder
    const fnode: Fnode
    var offset: nat

    constructor (recorder: LogRecorder, fnode: Fnode)
      ensures this.recorder == recorder && this.fnode == fnode && offset == 0
    {
      this.recorder, this.fnode, this.offset := recorder, fnode, 0;
    }

    method Append(data: Bytes) returns (ok: bool)
      requires Invariant(recorder.fsm.View())
      modifies this, recorder, recorder.fsm
      ensures Invariant(recorder.fsm.View())
      ensures ok <==> AppendFile(old(recorder.View()), recorder.id, recorder.marshal, fnode, old(offset), data).Some?
      ensures ok ==>
        recorder.View() ==
        AppendFile(old(recorder.View()), recorder.id, recorder.marshal, fnode, old(offset), data).value
      ensures offset == old(offset) + if ok then |data| else 0
      ensures IsRecording(old(recorder.View()), recorder.id) ==> (ok <==> fnode in old(recorder.fsm.links).Values)
    {
      hide Process, Invariant, IsRecording;
      if IsRecording(recorder.View(), recorder.id) {
        AppendFileIff(recorder.View(), recorder.id, recorder.marshal, fnode, offset, data);
      }
      ok := recorder.ProcessOp(Write(fnode, offset, |data|), data);
      if ok {
        offset := offset + |data|;
      }
    }
  }

  lemma CreateLinks(r: Recording, id: nat, marshal: Marshal, path: string)
    ensures var n := Process(r, id, marshal, Create(path), []); n.Some? ==> path in n.value.fsm.links
  {
    hide ExtendSegments;
  }
}

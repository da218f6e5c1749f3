/**
 * End-to-end recovery: a Recorder observes a file system and writes to a log which others write, too. Hints
 * taken at any time recover, from the whole log, exactly the file system as it is at the end.
 */
module Recovery {
  import opened Common
  import opened Fsm
  import opened History
  import opened Playback
  import opened Player
  import opened Recorder

  // ---------------------------------------------------------------------------
  // The observed file system

  /** Paths are hard links to inodes, which hold content. */
  datatype FileSystem = FileSystem(paths: map<string, Fnode>, inodes: map<Fnode, Bytes>)

  ghost predicate IsFileSystem(fs: FileSystem) {
    forall p :: p in fs.paths ==> fs.paths[p] in fs.inodes
  }

  function Contents(fs: FileSystem): map<string, Bytes>
    requires forall p :: p in fs.paths ==> fs.paths[p] in fs.inodes
  {
    map p | p in fs.paths :: fs.inodes[fs.paths[p]]
  }

  function FsCreate(fs: FileSystem, path: string, inode: Fnode): FileSystem {
    FileSystem(fs.paths[path := inode], fs.inodes[inode := []])
  }

  function FsAppend(fs: FileSystem, inode: Fnode, data: Bytes): FileSystem
    requires inode in fs.inodes
  {
    fs.(inodes := fs.inodes[inode := fs.inodes[inode] + data])
  }

  function FsLink(fs: FileSystem, src: string, target: string): FileSystem
    requires src in fs.paths
  {
    fs.(paths := fs.paths[target := fs.paths[src]])
  }

  function FsDelete(fs: FileSystem, path: string): FileSystem {
    fs.(paths := fs.paths - {path})
  }

  /** POSIX rename: it does nothing if both paths are links of the same inode. */
  function FsRename(fs: FileSystem, src: string, target: string): FileSystem
    requires src in fs.paths
  {
    if SameInode(fs, src, target) then fs
    else fs.(paths := fs.paths[target := fs.paths[src]] - {src})
  }

  predicate SameInode(fs: FileSystem, src: string, target: string) {
    src in fs.paths && target in fs.paths && fs.paths[src] == fs.paths[target]
  }

  // ---------------------------------------------------------------------------
  // A recording in sync with the file system

  /** The content which the recording gives to a Fnode. */
  function Recorded(r: Recording): map<Fnode, Bytes> {
    FilesAt(r.entries, |r.entries|)
  }

  ghost predicate InSync(r: Recording, fs: FileSystem) {
    && IsFileSystem(fs)
    && (forall p :: p in r.fsm.links <==> p in fs.paths && p !in PropertyFiles)
    && (forall p :: p in r.fsm.links ==> r.fsm.links[p] == fs.paths[p])
    && (forall p :: p in r.fsm.properties <==> p in fs.paths && p in PropertyFiles)
    && (forall p :: p in r.fsm.properties ==> r.fsm.properties[p] == fs.inodes[fs.paths[p]])
    && (forall p :: p in r.fsm.links ==>
          r.fsm.links[p] in Recorded(r) && Recorded(r)[r.fsm.links[p]] == fs.inodes[r.fsm.links[p]])
    && (forall f :: f in fs.inodes ==> f < r.fsm.nextSeqNo)
  }

  lemma SyncedDirectory(r: Recording, id: nat, fs: FileSystem)
    requires IsRecording(r, id) && InSync(r, fs)
    requires forall i :: 0 <= i < |r.entries| ==> WritesAreValid(r.entries[i].op)
    ensures DirectoryAt(r.entries, |r.entries|) == Contents(fs)
  {
    hide StateAt, IsHistory, FilesAt;
    FilesAtMatch(r.entries, |r.entries|);
    StateAtIsValid(r.entries, |r.entries|);
    var d := Directory(Playing(r.fsm, Recorded(r)));
    forall p ensures p in d <==> p in fs.paths {
    }
    forall p | p in d ensures d[p] == fs.inodes[fs.paths[p]] {
      if p in r.fsm.properties {
      } else {
        assert p in r.fsm.links;
      }
    }
    assert d == Contents(fs);
  }

  /** How a recorded op changes links, properties, and the contents of linked Fnodes. */
  lemma ProcessEffect(r: Recording, id: nat, marshal: Marshal, body: Body, data: Bytes)
    requires IsRecording(r, id) && IsRecordable(body) && Process(r, id, marshal, body, data).Some?
    ensures var n := Process(r, id, marshal, body, data).value;
            && IsRecording(n, id)
            && n.fsm.nextSeqNo == r.fsm.nextSeqNo + 1
            && LinksAfter(r, body, n)
            && n.fsm.properties ==
              (if body.Property? then r.fsm.properties[body.propertyPath := body.content] else r.fsm.properties)
            && (forall p :: p in n.fsm.links ==> ContentAfter(r, body, data, n.fsm.links[p], n))
  {
    hide Apply, ApplyBody, StateAt, IsHistory, FilesAt, Process, Invariant, LinksAfter, ContentAfter;
    var n := Process(r, id, marshal, body, data).value;
    ProcessRecords(r, id, marshal, body, data);
    ProcessLinks(r, id, marshal, body, data);
    StateAtIsValid(n.entries, |n.entries|);
    forall p | p in n.fsm.links ensures ContentAfter(r, body, data, n.fsm.links[p], n) {
      LinkIsLive(n.fsm, p);
      ProcessContent(r, n, id, body, data, n.fsm.links[p]);
    }
  }

  lemma ProcessContent(r: Recording, n: Recording, id: nat, body: Body, data: Bytes, f: Fnode)
    requires IsRecording(r, id) && IsRecording(n, id) && f in n.fsm.liveNodes
    requires |n.entries| == |r.entries| + 1 && r.entries == n.entries[..|r.entries|]
    requires n.entries[|r.entries|].op.body == body && n.entries[|r.entries|].data == data
    ensures ContentAfter(r, body, data, f, n)
  {
    hide Apply, ApplyBody, StateAt, IsHistory, FilesAt, Process, Invariant, WriteAt;
    var k := |r.entries|;
    assert forall i :: 0 <= i < |n.entries| ==> IsKnown(n.entries[i].op, id, n.writeHead);
    assert n.entries == r.entries + [n.entries[k]];
    FilesAtPrefix(r.entries, n.entries[k], k);
    StateAtPrefix(r.entries, n.entries[k], k);
    HistoryFile(n.entries, k, f);
    HistoryStep(n.entries, k);
  }

  lemma LinkIsLive(m: State, p: string)
    requires Invariant(m) && p in m.links
    ensures m.links[p] in m.liveNodes
  {
  }

  ghost predicate LinksAfter(r: Recording, body: Body, n: Recording) {
    match body
    case Create(path) => path !in r.fsm.links && n.fsm.links == r.fsm.links[path := r.fsm.nextSeqNo]
    case Link(f, path) => path !in r.fsm.links && n.fsm.links == r.fsm.links[path := f]
    case Unlink(f, path) => path in r.fsm.links && r.fsm.links[path] == f && n.fsm.links == r.fsm.links - {path}
    case Property(path, _) => path !in r.fsm.links && n.fsm.links == r.fsm.links
    case _ => n.fsm.links == r.fsm.links
  }

  /** The content of `f` in `n`, which recorded one more op than `r`. */
  ghost predicate ContentAfter(r: Recording, body: Body, data: Bytes, f: Fnode, n: Recording) {
    && f in Recorded(n)
    && match body
       case Create(_) =>
         if f == r.fsm.nextSeqNo then Recorded(n)[f] == []
         else f in Recorded(r) && Recorded(n)[f] == Recorded(r)[f]
       case Write(g, offset, _) =>
         && f in Recorded(r) && offset >= 0
         && Recorded(n)[f] == (if f == g then WriteAt(Recorded(r)[f], offset, data) else Recorded(r)[f])
       case _ => f in Recorded(r) && Recorded(n)[f] == Recorded(r)[f]
  }

  lemma {:induction false} FilesAtPrefix(h: seq<Entry>, x: Entry, k: nat)
    requires k <= |h|
    ensures FilesAt(h + [x], k) == FilesAt(h, k)
  {
    hide FilesAfter;
    if k > 0 {
      FilesAtPrefix(h, x, k - 1);
      StateAtPrefix(h, x, k - 1);
    }
  }

  lemma ProcessLinks(r: Recording, id: nat, marshal: Marshal, body: Body, data: Bytes)
    requires IsRecording(r, id) && Process(r, id, marshal, body, data).Some?
    ensures var n := Process(r, id, marshal, body, data).value;
            && n.fsm.nextSeqNo == r.fsm.nextSeqNo + 1
            && LinksAfter(r, body, n)
            && n.fsm.properties ==
              (if body.Property? then r.fsm.properties[body.propertyPath := body.content] else r.fsm.properties)
  {
    var n := Process(r, id, marshal, body, data).value;
    var x := n.entries[|r.entries|];
    hide Apply, ApplyBody, StateAt, IsHistory, Invariant;
    StateAtIsValid(r.entries, |r.entries|);
    ApplyWithoutHints(r.fsm, x.op, x.frame);
    PropertiesStep(r.fsm, x.op);
    BodyLinks(r.fsm, x.op);
  }

  lemma BodyLinks(m: State, op: RecordedOp)
    requires Invariant(m) && ApplyBody(m, op).1 == NoError
    ensures var links := ApplyBody(m, op).0.links;
            match op.body
            case Create(path) => path !in m.links && links == m.links[path := op.seqNo]
            case Link(f, path) => path !in m.links && links == m.links[path := f]
            case Unlink(f, path) => path in m.links && m.links[path] == f && links == m.links - {path}
            case Property(path, _) => path !in m.links && links == m.links
            case _ => links == m.links
  {
    hide ExtendSegments, HintsAreAligned;
  }

  // ---------------------------------------------------------------------------
  // Each recorded op keeps the recording in sync with its effect on the file system.

  lemma SyncUnlink(r: Recording, id: nat, marshal: Marshal, fs: FileSystem, path: string)
    requires IsRecording(r, id) && InSync(r, fs) && path in r.fsm.links
    requires Process(r, id, marshal, Unlink(r.fsm.links[path], path), []).Some?
    ensures var n := Process(r, id, marshal, Unlink(r.fsm.links[path], path), []).value;
            IsRecording(n, id) && InSync(n, FsDelete(fs, path))
  {
    hide Process, Recorded, IsRecording;
    ProcessEffect(r, id, marshal, Unlink(r.fsm.links[path], path), []);
    var n := Process(r, id, marshal, Unlink(r.fsm.links[path], path), []).value;
    assert forall p :: p in n.fsm.links ==> p in r.fsm.links && n.fsm.links[p] == r.fsm.links[p];
  }

  lemma SyncCreate(r: Recording, id: nat, marshal: Marshal, fs: FileSystem, path: string)
    requires IsRecording(r, id) && InSync(r, fs) && path !in PropertyFiles
    requires Process(r, id, marshal, Create(path), []).Some?
    ensures var n := Process(r, id, marshal, Create(path), []).value;
            && IsRecording(n, id) && InSync(n, FsCreate(fs, path, r.fsm.nextSeqNo))
            && n.fsm.links[path] == r.fsm.nextSeqNo && r.fsm.nextSeqNo !in fs.inodes
  {
    hide Process, Recorded, IsRecording;
    ProcessEffect(r, id, marshal, Create(path), []);
  }

  lemma LiveIsLinked(r: Recording, id: nat, fs: FileSystem, f: Fnode)
    requires IsRecording(r, id) && InSync(r, fs) && f in r.fsm.liveNodes
    ensures f in fs.inodes && f in Recorded(r) && Recorded(r)[f] == fs.inodes[f]
  {
    hide StateAt, IsHistory, Recorded;
    StateAtIsValid(r.entries, |r.entries|);
    var p :| p in r.fsm.liveNodes[f].links;
    assert r.fsm.links[p] == f;
  }

  /** Ops of a Fnode which is not live are refused. */
  lemma ProcessedIsLive(r: Recording, id: nat, marshal: Marshal, body: Body, data: Bytes)
    requires Process(r, id, marshal, body, data).Some?
    ensures body.Link? ==> body.linkFnode in r.fsm.liveNodes
    ensures body.Write? ==> body.writeFnode in r.fsm.liveNodes
  {
    hide ExtendSegments;
  }

  lemma SyncLink(r: Recording, id: nat, marshal: Marshal, fs: FileSystem, f: Fnode, target: string)
    requires IsRecording(r, id) && InSync(r, fs) && target !in PropertyFiles
    requires Process(r, id, marshal, Link(f, target), []).Some?
    ensures var n := Process(r, id, marshal, Link(f, target), []).value;
            IsRecording(n, id) && InSync(n, fs.(paths := fs.paths[target := f]))
  {
    hide Process, Recorded, IsRecording;
    ProcessEffect(r, id, marshal, Link(f, target), []);
    ProcessedIsLive(r, id, marshal, Link(f, target), []);
    LiveIsLinked(r, id, fs, f);
  }

  lemma SyncProperty(r: Recording, id: nat, marshal: Marshal, fs: FileSystem, path: string, f: Fnode)
    requires IsRecording(r, id) && InSync(r, fs) && path in PropertyFiles && f in fs.inodes
    requires Process(r, id, marshal, Property(path, fs.inodes[f]), []).Some?
    ensures var n := Process(r, id, marshal, Property(path, fs.inodes[f]), []).value;
            IsRecording(n, id) && InSync(n, fs.(paths := fs.paths[path := f]))
  {
    hide Process, Recorded, IsRecording;
    ProcessEffect(r, id, marshal, Property(path, fs.inodes[f]), []);
  }

  lemma AppendIsWriteAt(content: Bytes, data: Bytes)
    ensures WriteAt(content, |content|, data) == content + data
  {
    assert content[..|content|] == content;
  }

  /** No property path is a link of the inode. */
  predicate NamesNoProperty(fs: FileSystem, f: Fnode) {
    forall p :: p in fs.paths && p in PropertyFiles ==> fs.paths[p] != f
  }

  lemma SyncWrite(r: Recording, id: nat, marshal: Marshal, fs: FileSystem, f: Fnode, data: Bytes)
    requires IsRecording(r, id) && InSync(r, fs) && f in fs.inodes && (data == [] || NamesNoProperty(fs, f))
    requires AppendFile(r, id, marshal, f, |fs.inodes[f]|, data).Some?
    ensures var n := AppendFile(r, id, marshal, f, |fs.inodes[f]|, data).value;
            IsRecording(n, id) && InSync(n, FsAppend(fs, f, data))
  {
    hide Process, Recorded, IsRecording, WriteAt;
    var body := Write(f, |fs.inodes[f]|, |data|);
    ProcessEffect(r, id, marshal, body, data);
    ProcessedIsLive(r, id, marshal, body, data);
    LiveIsLinked(r, id, fs, f);
    AppendIsWriteAt(fs.inodes[f], data);
  }

  /**
   * The Recorder agrees with an append exactly when it's empty, or the inode is not that of a property. The content of
   * a property is recorded when a file is renamed to it, and what's appended later, through another link, is not.
   */
  lemma AppendAgrees(r: Recording, id: nat, marshal: Marshal, fs: FileSystem, f: Fnode, data: Bytes)
    requires IsRecording(r, id) && InSync(r, fs) && f in fs.inodes
    requires AppendFile(r, id, marshal, f, |fs.inodes[f]|, data).Some?
    ensures var n := AppendFile(r, id, marshal, f, |fs.inodes[f]|, data).value;
            InSync(n, FsAppend(fs, f, data)) <==> data == [] || NamesNoProperty(fs, f)
  {
    hide Process, Recorded, IsRecording;
    var n := AppendFile(r, id, marshal, f, |fs.inodes[f]|, data).value;
    if data == [] || NamesNoProperty(fs, f) {
      SyncWrite(r, id, marshal, fs, f, data);
    } else {
      ProcessEffect(r, id, marshal, Write(f, |fs.inodes[f]|, |data|), data);
      var p :| p in fs.paths && p in PropertyFiles && fs.paths[p] == f;
      assert n.fsm.properties[p] == fs.inodes[f] != fs.inodes[f] + data;
    }
  }

  // ---------------------------------------------------------------------------
  // Each observed file operation does.

  lemma SyncUnlinkPrevious(r: Recording, id: nat, marshal: Marshal, fs: FileSystem, path: string)
    requires IsRecording(r, id) && InSync(r, fs) && UnlinkPrevious(r, id, marshal, path).Some?
    ensures var n := UnlinkPrevious(r, id, marshal, path).value;
            IsRecording(n, id) && InSync(n, if path in r.fsm.links then FsDelete(fs, path) else fs)
  {
    hide Process, InSync, IsRecording;
    if path in r.fsm.links {
      SyncUnlink(r, id, marshal, fs, path);
    }
  }

  lemma SyncNewFile(r: Recording, id: nat, marshal: Marshal, fs: FileSystem, path: string)
    requires IsRecording(r, id) && InSync(r, fs) && NewWritableFile(r, id, marshal, path).Some?
    ensures var n := NewWritableFile(r, id, marshal, path).value;
            && IsRecording(n, id) && path in n.fsm.links && n.fsm.links[path] !in fs.inodes
            && InSync(n, FsCreate(fs, path, n.fsm.links[path]))
  {
    hide Process, InSync, IsRecording, UnlinkPrevious;
    SyncUnlinkPrevious(r, id, marshal, fs, path);
    var mid := UnlinkPrevious(r, id, marshal, path).value;
    var fs1 := if path in r.fsm.links then FsDelete(fs, path) else fs;
    SyncCreate(mid, id, marshal, fs1, path);
    CreateLinks(mid, id, marshal, path);
    assert FsCreate(fs1, path, mid.fsm.nextSeqNo) == FsCreate(fs, path, mid.fsm.nextSeqNo);
  }

  /** The middle op of a rename: a property update, or a link. */
  lemma SyncMove(r: Recording, id: nat, marshal: Marshal, fs: FileSystem, target: string, f: Fnode)
    requires IsRecording(r, id) && InSync(r, fs) && f in fs.inodes
    requires Process(r, id, marshal, MoveBody(fs, target, f), []).Some?
    ensures var n := Process(r, id, marshal, MoveBody(fs, target, f), []).value;
            IsRecording(n, id) && InSync(n, fs.(paths := fs.paths[target := f]))
  {
    hide Process, InSync, IsRecording;
    if target in PropertyFiles {
      SyncProperty(r, id, marshal, fs, target, f);
    } else {
      SyncLink(r, id, marshal, fs, f, target);
    }
  }

  function MoveBody(fs: FileSystem, target: string, f: Fnode): Body
    requires f in fs.inodes
  {
    if target in PropertyFiles then Property(target, fs.inodes[f]) else Link(f, target)
  }

  lemma SyncedPath(r: Recording, fs: FileSystem, path: string)
    requires InSync(r, fs) && path in r.fsm.links
    ensures path in fs.paths && fs.paths[path] == r.fsm.links[path] && fs.paths[path] in fs.inodes
  {
  }

  /** A rename which the Recorder accepts moves the link, whether or not both paths are of one inode. */
  lemma SyncRename(r: Recording, id: nat, marshal: Marshal, fs: FileSystem, src: string, target: string)
    requires IsRecording(r, id) && InSync(r, fs) && src in r.fsm.links
    requires RenameFile(r, id, marshal, src, target, fs.inodes[fs.paths[src]]).Some?
    ensures var n := RenameFile(r, id, marshal, src, target, fs.inodes[fs.paths[src]]).value;
            IsRecording(n, id) && InSync(n, fs.(paths := fs.paths[target := fs.paths[src]] - {src}))
  {
    hide Process, InSync, IsRecording, UnlinkPrevious;
    SyncedPath(r, fs, src);
    var f := fs.paths[src];
    SyncUnlinkPrevious(r, id, marshal, fs, target);
    var mid := UnlinkPrevious(r, id, marshal, target).value;
    var fs1 := if target in r.fsm.links then FsDelete(fs, target) else fs;
    assert fs1.inodes == fs.inodes;
    SyncMove(mid, id, marshal, fs1, target, f);
    var moved := Process(mid, id, marshal, MoveBody(fs1, target, f), []).value;
    var fs2 := fs1.(paths := fs1.paths[target := f]);
    UnlinkedLink(moved, id, marshal, f, src);
    SyncUnlink(moved, id, marshal, fs2, src);
    assert FsDelete(fs2, src).paths == fs.paths[target := f] - {src};
  }

  lemma UnlinkedLink(r: Recording, id: nat, marshal: Marshal, f: Fnode, path: string)
    requires IsRecording(r, id) && Process(r, id, marshal, Unlink(f, path), []).Some?
    ensures path in r.fsm.links && r.fsm.links[path] == f
  {
    hide Process, IsRecording;
    ProcessEffect(r, id, marshal, Unlink(f, path), []);
  }

  /**
   * The Recorder agrees with POSIX rename exactly when the paths are not links of one inode. There, POSIX
   * leaves both paths, while the Recorder records that the source is gone.
   */
  lemma RenameAgrees(r: Recording, id: nat, marshal: Marshal, fs: FileSystem, src: string, target: string)
    requires IsRecording(r, id) && InSync(r, fs) && src in r.fsm.links
    requires RenameFile(r, id, marshal, src, target, fs.inodes[fs.paths[src]]).Some?
    ensures var n := RenameFile(r, id, marshal, src, target, fs.inodes[fs.paths[src]]).value;
            InSync(n, FsRename(fs, src, target)) <==> !SameInode(fs, src, target)
  {
    var n := RenameFile(r, id, marshal, src, target, fs.inodes[fs.paths[src]]).value;
    SyncRename(r, id, marshal, fs, src, target);
    hide RenameFile, Recorded, IsRecording;
    assert src !in n.fsm.links;
    assert src !in PropertyFiles;
  }
}

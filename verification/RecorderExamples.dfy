/**
 * Uses of the Recorder (pkg/recoverylog/recorder.go) for which what it records is not what the file system holds. Each
 * begins with a new file which is given a second hard link.
 */
module RecorderExamples {
  import opened Common
  import opened Fsm
  import opened History
  import opened Recorder
  import opened Recovery
  import opened EndToEnd

  lemma LinkedIsLive(r: Recording, id: nat, p: string)
    requires IsRecording(r, id) && p in r.fsm.links
    ensures r.fsm.links[p] in r.fsm.liveNodes
  {
    hide StateAt, IsHistory;
    StateAtIsValid(r.entries, |r.entries|);
    LinkIsLive(r.fsm, p);
  }

  function Start(): Recording {
    Recording(EmptyState, 0, [])
  }

  /** NewWritableFile "a", and LinkFile "a" to "b". */
  lemma TwoLinks(id: nat, marshal: Marshal) returns (r: Recording, fs: FileSystem, f: Fnode)
    ensures NewWritableFile(Start(), id, marshal, "a").Some?
    ensures LinkFile(NewWritableFile(Start(), id, marshal, "a").value, id, marshal, "a", "b") == Some(r)
    ensures IsRecording(r, id) && InSync(r, fs)
    ensures fs == FileSystem(map["a" := f, "b" := f], map[f := []])
  {
    var r0 := Start();
    var fs0 := FileSystem(map[], map[]);
    BeginIsOk(0, id);
    hide IsRecording, Process, InSync;
    StartIsEmpty(id);
    ProcessIff(r0, id, marshal, Create("a"), []);
    SyncNewFile(r0, id, marshal, fs0, "a");
    var r1 := NewWritableFile(r0, id, marshal, "a").value;
    f := r1.fsm.links["a"];
    var fs1 := FsCreate(fs0, "a", f);
    SyncLinks(r1, fs1, "b");
    LinkedIsLive(r1, id, "a");
    ProcessIff(r1, id, marshal, Link(f, "b"), []);
    SyncLink(r1, id, marshal, fs1, f, "b");
    r := LinkFile(r1, id, marshal, "a", "b").value;
    fs := fs1.(paths := fs1.paths["b" := f]);
  }

  lemma StartIsEmpty(id: nat)
    ensures Start().fsm.links == map[] && Start().fsm.properties == map[]
  {
  }

  /** What a recording which is in sync has, and has not, linked. */
  lemma SyncLinks(r: Recording, fs: FileSystem, p: string)
    requires InSync(r, fs)
    ensures p in r.fsm.links <==> p in fs.paths && p !in PropertyFiles
    ensures p in r.fsm.links ==> r.fsm.links[p] == fs.paths[p]
    ensures p in r.fsm.properties <==> p in fs.paths && p in PropertyFiles
  {
  }

  /** A new file "a" can't be renamed to "a", which POSIX has succeed. */
  lemma RenameToItself(id: nat, marshal: Marshal)
    ensures NewWritableFile(Start(), id, marshal, "a").Some?
    ensures var r := NewWritableFile(Start(), id, marshal, "a").value;
            IsRecording(r, id) && "a" in r.fsm.links && RenameFile(r, id, marshal, "a", "a", []).None?
  {
    var r0 := Start();
    BeginIsOk(0, id);
    StartIsEmpty(id);
    ProcessIff(r0, id, marshal, Create("a"), []);
    ProcessRecords(r0, id, marshal, Create("a"), []);
    var r := NewWritableFile(r0, id, marshal, "a").value;
    assert r.fsm.links == map["a" := 1] && r.fsm.liveNodes[1].links == {"a"};
    RenameFileIff(r, id, marshal, "a", "a", []);
  }

  /** Rename "a" to "b": POSIX leaves both paths, and the Recorder records that "a" is gone. */
  lemma RenameDisagrees(id: nat, marshal: Marshal) returns (r: Recording, fs: FileSystem)
    ensures IsRecording(r, id) && InSync(r, fs) && SameInode(fs, "a", "b")
    ensures RenameFile(r, id, marshal, "a", "b", []).Some?
    ensures !InSync(RenameFile(r, id, marshal, "a", "b", []).value, FsRename(fs, "a", "b"))
  {
    hide IsRecording, Process, InSync;
    var f;
    r, fs, f := TwoLinks(id, marshal);
    SyncLinks(r, fs, "a");
    SyncLinks(r, fs, "b");
    ProcessIff(r, id, marshal, Unlink(f, "b"), []);
    SyncUnlink(r, id, marshal, fs, "b");
    var r1, fs1 := Process(r, id, marshal, Unlink(f, "b"), []).value, FsDelete(fs, "b");
    SyncLinks(r1, fs1, "a");
    SyncLinks(r1, fs1, "b");
    LinkedIsLive(r1, id, "a");
    ProcessIff(r1, id, marshal, Link(f, "b"), []);
    SyncLink(r1, id, marshal, fs1, f, "b");
    var r2, fs2 := Process(r1, id, marshal, Link(f, "b"), []).value, fs1.(paths := fs1.paths["b" := f]);
    SyncLinks(r2, fs2, "a");
    ProcessIff(r2, id, marshal, Unlink(f, "a"), []);
    RenameAgrees(r, id, marshal, fs, "a", "b");
  }

  /** Rename "a" to a property, and append through "b": the property's content has changed, and isn't recorded. */
  lemma AppendDisagrees(id: nat, marshal: Marshal, data: Bytes)
    returns (r0: Recording, r: Recording, fs: FileSystem, f: Fnode)
    requires data != []
    ensures IsRecording(r0, id) && RenameFile(r0, id, marshal, "a", Identity, []) == Some(r)
    ensures IsRecording(r, id) && InSync(r, fs) && fs.paths == map["b" := f, Identity := f] && fs.inodes == map[f := []]
    ensures AppendFile(r, id, marshal, f, 0, data).Some?
    ensures !InSync(AppendFile(r, id, marshal, f, 0, data).value, FsAppend(fs, f, data))
  {
    hide IsRecording, Process, InSync;
    var fs0;
    r0, fs0, f := TwoLinks(id, marshal);
    SyncLinks(r0, fs0, "a");
    SyncLinks(r0, fs0, Identity);
    ProcessIff(r0, id, marshal, Property(Identity, []), []);
    SyncProperty(r0, id, marshal, fs0, Identity, f);
    var r1, fs1 := Process(r0, id, marshal, Property(Identity, []), []).value, fs0.(paths := fs0.paths[Identity := f]);
    SyncLinks(r1, fs1, "a");
    ProcessIff(r1, id, marshal, Unlink(f, "a"), []);
    SyncUnlink(r1, id, marshal, fs1, "a");
    r, fs := Process(r1, id, marshal, Unlink(f, "a"), []).value, FsDelete(fs1, "a");
    SyncLinks(r, fs, "b");
    LinkedIsLive(r, id, "b");
    ProcessIff(r, id, marshal, Write(f, 0, |data|), data);
    AppendAgrees(r, id, marshal, fs, f, data);
    assert !NamesNoProperty(fs, f);
  }
}

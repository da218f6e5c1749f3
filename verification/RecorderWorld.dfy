/**
 * A Recorder with the file system it observes, beside other writers of its log; and how a player which recovers from
 * that log takes over from it.
 */
module RecorderWorld {
  import opened Common
  import opened Fsm
  import opened Hints
  import opened History
  import opened Playback
  import opened RoundTrip
  import opened Player
  import opened Annotations
  import opened Recorder
  import opened Recovery

  datatype Command =
    | NewFile(path: string)
    | Append(inode: Fnode, data: Bytes)
    | LinkTo(src: string, target: string)
    | Rename(from: string, to: string)
    | Delete(deleted: string)

  /** Hints, and what the Recorder that built them had recorded. */
  datatype Stored = Stored(hints: FSMHints, id: nat, r: Recording)

  /**
   * The Author; its recorder; the file system it observes; the offset of each open file recorder; the log, and which of
   * its ops are of the history; and stored hints.
   */
  datatype World = World(
    id: nat,
    r: Recording,
    fs: FileSystem,
    offsets: map<Fnode, nat>,
    log: seq<LogEntry>,
    ours: seq<bool>,
    end: int,
    stored: seq<Stored>)

  datatype Event =
      /** A file operation, and the log head of an earlier append which is found to have completed. */
    | Do(command: Command, head: Option<int>)
      /** The recorder observes the head of the log. */
    | Barrier
      /** An op of another Author. */
    | Foreign(entry: Entry)
      /** The recorder stores hints. */
    | Store(hints: FSMHints)
      /** A player recovers with stored hints, and takes over as a new Author. */
    | Handoff(author: nat, n: nat)

  const FrameHeader := 8

  function Size(x: Entry): nat {
    FrameHeader + |x.frame| + |x.data|
  }

  /** An op where it lands in the log, with the offsets which decodeOperation attaches. */
  function At(end: int, x: Entry): LogEntry {
    LogEntry(end, x.op.(firstOffset := end, lastOffset := end + Size(x)), x.frame, x.data)
  }

  function Emit(w: World, xs: seq<Entry>): World
    decreases xs
  {
    if xs == [] then w
    else Emit(w.(log := w.log + [At(w.end, xs[0])], ours := w.ours + [true], end := w.end + Size(xs[0])), xs[1..])
  }

  /** What the Recorder records of a command. */
  function Record(w: World, marshal: Marshal, c: Command): Option<Recording> {
    match c
    case NewFile(path) => NewWritableFile(w.r, w.id, marshal, path)
    case Append(f, data) => if f !in w.offsets then None else AppendFile(w.r, w.id, marshal, f, w.offsets[f], data)
    case LinkTo(src, target) => LinkFile(w.r, w.id, marshal, src, target)
    case Rename(src, target) =>
      if src in w.fs.paths && w.fs.paths[src] in w.fs.inodes
      then RenameFile(w.r, w.id, marshal, src, target, w.fs.inodes[w.fs.paths[src]]) else None
    case Delete(path) => DeleteFile(w.r, w.id, marshal, path)
  }

  /** Uses for which the Recorder agrees with the file system: AppendAgrees and RenameAgrees show that these are all. */
  predicate IsSupported(fs: FileSystem, c: Command) {
    match c
    case Append(f, data) => data == [] || NamesNoProperty(fs, f)
    case Rename(src, target) => !SameInode(fs, src, target)
    case _ => true
  }

  /** What a command does to the file system. A new file has the inode `inode`. */
  function Effect(fs: FileSystem, c: Command, inode: Fnode): FileSystem {
    match c
    case NewFile(path) => FsCreate(fs, path, inode)
    case Append(f, data) => if f in fs.inodes then FsAppend(fs, f, data) else fs
    case LinkTo(src, target) => if src in fs.paths then FsLink(fs, src, target) else fs
    case Rename(src, target) => if src in fs.paths then FsRename(fs, src, target) else fs
    case Delete(path) => FsDelete(fs, path)
  }

  function Offsets(w: World, c: Command, inode: Fnode): map<Fnode, nat> {
    match c
    case NewFile(_) => w.offsets[inode := 0]
    case Append(f, data) => if f in w.offsets then w.offsets[f := w.offsets[f] + |data|] else w.offsets
    case _ => w.offsets
  }

  function NewInode(n: Recording, c: Command): Fnode {
    if c.NewFile? && c.path in n.fsm.links then n.fsm.links[c.path] else 0
  }

  /** A command which the recorder accepts; None if it panics, or if the use is not supported. */
  function Perform(w: World, marshal: Marshal, c: Command): Option<World> {
    if !IsSupported(w.fs, c) then None
    else match Record(w, marshal, c)
      case None => None
      case Some(n) =>
        if |n.entries| < |w.r.entries| then None
        else
          var inode := NewInode(n, c);
          Some(Emit(w, n.entries[|w.r.entries|..]).(
               r := n, fs := Effect(w.fs, c, inode), offsets := Offsets(w, c, inode)))
  }

  // ---------------------------------------------------------------------------
  // Hand-off

  /** The history, as a player knows it which has read the log. */
  function ReadHistory(log: seq<LogEntry>, ours: seq<bool>): (h: seq<Entry>)
    requires |log| == |ours|
    ensures |h| == Count(ours)
  {
    if log == [] then [] else
      var n := |log| - 1;
      ReadHistory(log[..n], ours[..n]) + if ours[n] then [Entry(log[n].op, log[n].frame, log[n].data)] else []
  }

  /** The file of a property is none of the Fnodes. There is just one property. */
  const PropertyInode: Fnode := 0

  /** The file system after playback: files of live Fnodes at their links, and a file for the property. */
  function RecoveredFs(ps: Playing): FileSystem {
    var paths := ps.fsm.links + map p | p in ps.fsm.properties :: PropertyInode;
    var property := Identity in ps.fsm.properties;
    FileSystem(paths, if property then ps.files[PropertyInode := ps.fsm.properties[Identity]] else ps.files)
  }

  function Lengths(fs: FileSystem): map<Fnode, nat> {
    map f | f in fs.inodes :: |fs.inodes[f]|
  }

  /** The no-op by which an Author takes over, as it's read back. */
  function TakeOver(p: State, author: nat, marshal: Marshal, end: int): LogEntry {
    var op := RecordedOp(p.nextSeqNo, p.nextChecksum, author, 0, 0, NoOp);
    At(end, Entry(op, marshal(op), []))
  }

  /** Authors are random: the new one has written nothing yet. */
  predicate IsNew(w: World, author: nat) {
    author != 0 && w.id != 0 && author != w.id && forall i :: 0 <= i < |w.log| ==> w.log[i].op.author != author
  }

  /**
   * A player can follow the hints: unless all ops are of one Author, gaps of the hints are harmless; and where another
   * branch of the chain begins, hinted ops follow.
   */
  ghost predicate CanFollow(w: World, s: Stored) {
    && |s.r.entries| <= |w.r.entries|
    && (Flatten(s.hints.liveNodes).Some? && !SingleAuthor(w.r.entries) ==>
          GapsAreHarmless(CourseOf(Resumed(s.r.entries, w.r.entries), |s.r.entries|, s.hints)))
    && BranchesAreHinted(w.r.entries, w.log, w.ours, LastHinted(s.hints))
  }

  /** What a hand-off leads to, if playback succeeds. */
  function TakenOver(w: World, marshal: Marshal, author: nat, ps: Playing): World
    requires |w.log| == |w.ours|
  {
    var e := TakeOver(ps.fsm, author, marshal, w.end);
    var fs, end := RecoveredFs(ps), w.end + Size(Entry(e.op, e.frame, e.data));
    var h := ReadHistory(w.log, w.ours) + [Entry(e.op, e.frame, e.data)];
    World(author, Recording(Apply(ps.fsm, e.op, e.frame).0, end, h), fs, Lengths(fs), w.log + [e], w.ours + [true],
          end, w.stored)
  }

  function Replay(w: World, s: Stored): Option<Playing> {
    match InitialState(s.hints)
    case None => None
    case Some(p) => PlayLog(Playing(p, map[]), w.log)
  }

  ghost function Next(w: World, marshal: Marshal, ev: Event): Option<World> {
    match ev
    case Do(c, head) =>
      (match Perform(w, marshal, c)
       case None => None
       case Some(n) =>
         if head.None? then Some(n)
         else if n.r.writeHead <= head.value <= n.end then Some(n.(r := n.r.(writeHead := head.value)))
         else None)
    case Barrier => Some(w.(r := w.r.(writeHead := w.end)))
    case Foreign(x) =>
      // Another Author may write anything. It may extend the recorder's chain, and so begin another branch of it.
      if x.op.author == w.id then None
      else Some(w.(log := w.log + [At(w.end, x)], ours := w.ours + [false], end := w.end + Size(x)))
    case Store(hints) =>
      if hints.log != "" && AreHintsOf(hints, w.r.fsm) then Some(w.(stored := w.stored + [Stored(hints, w.id, w.r)]))
      else None
    case Handoff(author, n) =>
      if n >= |w.stored| || !IsNew(w, author) || !CanFollow(w, w.stored[n]) || |w.log| != |w.ours| then None
      else match Replay(w, w.stored[n])
        case None => None
        case Some(ps) => if HasRemainingHints(ps.fsm) then None else Some(TakenOver(w, marshal, author, ps))
  }

  // ---------------------------------------------------------------------------
  // The log is woven of the recorder's history and foreign ops.

  function Count(ours: seq<bool>): nat {
    if ours == [] then 0 else Count(ours[..|ours| - 1]) + if ours[|ours| - 1] then 1 else 0
  }

  ghost predicate EntryWoven(h: seq<Entry>, e: LogEntry, mine: bool, k: nat) {
    && k <= |h|
    && if mine then k < |h| && Records(e, h[k])
       else forall n :: k <= n < |h| ==> h[n].op.author != e.op.author
  }

  /** A foreign op extends the chain which the recorder has at that point. */
  ghost predicate IsBranch(h: seq<Entry>, e: LogEntry, k: nat) {
    k <= |h| && e.op.seqNo == k + 1 && e.op.checksum == StateAt(h, k).nextChecksum
  }

  /** Branches of the chain begin below the last op which is hinted. */
  ghost predicate BranchesAreHinted(h: seq<Entry>, log: seq<LogEntry>, ours: seq<bool>, last: int) {
    forall i :: 0 <= i < |log| && i < |ours| && !ours[i] && IsBranch(h, log[i], Count(ours[..i])) ==>
      Count(ours[..i]) < last
  }

  /** Ops which aren't of the history are of none of the Authors which later extend it. */
  ghost predicate Woven(h: seq<Entry>, log: seq<LogEntry>, ours: seq<bool>) {
    && |ours| == |log|
    && Count(ours) == |h|
    && forall i :: 0 <= i < |log| ==> EntryWoven(h, log[i], ours[i], Count(ours[..i]))
  }

  ghost predicate NoneForeign(log: seq<LogEntry>, ours: seq<bool>, id: nat) {
    |log| == |ours| && forall i :: 0 <= i < |log| && !ours[i] ==> log[i].op.author != id
  }

  lemma WeaveForeign(h: seq<Entry>, log: seq<LogEntry>, ours: seq<bool>, e: LogEntry)
    requires Woven(h, log, ours)
    ensures Woven(h, log + [e], ours + [false])
  {
    hide EntryWoven;
    var next := ours + [false];
    assert next[..|ours|] == ours;
    forall i | 0 <= i <= |log| ensures EntryWoven(h, (log + [e])[i], next[i], Count(next[..i])) {
      if i < |log| {
        assert next[..i] == ours[..i];
      } else {
        EndIsWoven(h, e);
      }
    }
  }

  lemma EndIsWoven(h: seq<Entry>, e: LogEntry)
    ensures EntryWoven(h, e, false, |h|)
  {
  }

  lemma WeaveOurs(h: seq<Entry>, log: seq<LogEntry>, ours: seq<bool>, x: Entry, e: LogEntry)
    requires Woven(h, log, ours) && Records(e, x) && NoneForeign(log, ours, x.op.author)
    ensures Woven(h + [x], log + [e], ours + [true])
  {
    hide Records, StateAt;
    var next := ours + [true];
    assert next[..|ours|] == ours;
    forall i | 0 <= i <= |log| ensures EntryWoven(h + [x], (log + [e])[i], next[i], Count(next[..i])) {
      if i < |log| {
        assert next[..i] == ours[..i];
        assert EntryWoven(h, log[i], ours[i], Count(ours[..i]));
      }
    }
  }

  lemma CountStep(ours: seq<bool>, i: nat)
    requires i < |ours|
    ensures Count(ours[..i + 1]) == Count(ours[..i]) + if ours[i] then 1 else 0
  {
    assert ours[..i + 1][..i] == ours[..i];
  }

  /** What isn't of the history is noise to a player, where it doesn't branch or hinted ops follow. */
  lemma ForeignIsNoise(c: Course, k: nat, e: LogEntry)
    requires EntryWoven(c.h, e, false, k) && (IsBranch(c.h, e, k) ==> k < c.Last())
    ensures Noise(c, k, e)
  {
    hide StateAt, Course.Last;
  }

  lemma {:induction false} WovenCarries(c: Course, log: seq<LogEntry>, ours: seq<bool>, i: nat)
    requires Woven(c.h, log, ours) && i <= |log| && Count(ours[..i]) <= |c.h|
    requires BranchesAreHinted(c.h, log, ours, c.Last())
    ensures Carries(c, Count(ours[..i]), log[i..])
    decreases |log| - i
  {
    hide Records, StateAt, Course.Last, IsBranch, Noise, IsDead;
    if i == |log| {
      assert ours[..i] == ours;
    } else {
      var k, e := Count(ours[..i]), log[i];
      CountStep(ours, i);
      assert EntryWoven(c.h, e, ours[i], k);
      assert log[i..][1..] == log[i + 1..];
      WovenCarries(c, log, ours, i + 1);
      if !ours[i] {
        ForeignIsNoise(c, k, e);
      }
    }
  }

  // ---------------------------------------------------------------------------
  // What every step of a run keeps

  ghost predicate Synced(r: Recording, id: nat, fs: FileSystem) {
    IsRecording(r, id) && InSync(r, fs)
  }

  ghost predicate OffsetsAreLengths(fs: FileSystem, offsets: map<Fnode, nat>) {
    offsets.Keys == fs.inodes.Keys && forall f :: f in fs.inodes ==> offsets[f] == |fs.inodes[f]|
  }

  /** An op has the offsets at which it lies in the log. */
  ghost predicate IsPlaced(e: LogEntry, end: int) {
    0 <= e.begin == e.op.firstOffset < e.op.lastOffset <= end
  }

  /** Ops follow one another in the log. */
  ghost predicate ArePlaced(log: seq<LogEntry>, end: int) {
    && end >= 0 && (forall i :: 0 <= i < |log| ==> IsPlaced(log[i], end))
    && (forall i, j :: 0 <= i < j < |log| ==> log[i].op.lastOffset <= log[j].begin)
  }

  lemma PlacedSnoc(log: seq<LogEntry>, end: int, e: LogEntry, end': int)
    requires ArePlaced(log, end) && e.begin == end && IsPlaced(e, end')
    ensures ArePlaced(log + [e], end')
  {
    forall i | 0 <= i < |log| ensures IsPlaced(log[i], end') {
      assert IsPlaced(log[i], end);
    }
  }

  /** Hints are of a recording, the ops of which are leading ones of the history. */
  ghost predicate StoredOk(s: Stored, h: seq<Entry>) {
    && IsRecording(s.r, s.id) && IsEarlier(s.r.entries, h)
    && s.hints.log != "" && AreHintsOf(s.hints, s.r.fsm)
    && (forall p :: p in s.r.fsm.properties ==> p in PropertyFiles)
  }

  ghost predicate WorldOk(w: World) {
    && Synced(w.r, w.id, w.fs)
    && OffsetsAreLengths(w.fs, w.offsets)
    && w.r.writeHead <= w.end
    && ArePlaced(w.log, w.end)
    && Woven(w.r.entries, w.log, w.ours) && NoneForeign(w.log, w.ours, w.id)
    && (forall n :: 0 <= n < |w.stored| ==> StoredOk(w.stored[n], w.r.entries))
  }

  lemma EarlierTransitive(s: seq<Entry>, g: seq<Entry>, h: seq<Entry>)
    requires IsEarlier(s, g) && IsEarlier(g, h)
    ensures IsEarlier(s, h)
  {
    forall i | 0 <= i < |s| ensures SameEntry(s[i], h[i]) && s[i].op.firstOffset <= h[i].op.firstOffset {
      assert SameEntry(s[i], g[i]) && SameEntry(g[i], h[i]);
    }
  }

  lemma StoredIsKept(s: Stored, g: seq<Entry>, h: seq<Entry>)
    requires StoredOk(s, g) && IsEarlier(g, h)
    ensures StoredOk(s, h)
  {
    hide IsRecording, IsEarlier, AreHintsOf;
    EarlierTransitive(s.r.entries, g, h);
  }

  lemma PrefixIsEarlier(g: seq<Entry>, h: seq<Entry>)
    requires |g| <= |h| && g == h[..|g|]
    ensures IsEarlier(g, h)
  {
  }

  ghost predicate Grows(r: Recording, n: Recording) {
    n.writeHead == r.writeHead && |r.entries| <= |n.entries| && r.entries == n.entries[..|r.entries|]
  }

  lemma ProcessGrows(r: Recording, id: nat, marshal: Marshal, body: Body, data: Bytes)
    requires Process(r, id, marshal, body, data).Some?
    ensures Grows(r, Process(r, id, marshal, body, data).value)
  {
    hide Apply;
  }

  lemma ThenGrows(r: Recording, mid: Option<Recording>, id: nat, marshal: Marshal, body: Body)
    requires mid.Some? ==> Grows(r, mid.value)
    ensures Then(mid, id, marshal, body).Some? ==> Grows(r, Then(mid, id, marshal, body).value)
  {
    hide Process;
    if Then(mid, id, marshal, body).Some? {
      ProcessGrows(mid.value, id, marshal, body, []);
      var n := Then(mid, id, marshal, body).value;
      assert n.entries[..|r.entries|] == n.entries[..|mid.value.entries|][..|r.entries|];
    }
  }

  lemma UnlinkPreviousGrows(r: Recording, id: nat, marshal: Marshal, path: string)
    ensures var n := UnlinkPrevious(r, id, marshal, path); n.Some? ==> Grows(r, n.value)
  {
    hide Process;
    if path in r.fsm.links && UnlinkPrevious(r, id, marshal, path).Some? {
      ProcessGrows(r, id, marshal, Unlink(r.fsm.links[path], path), []);
    }
  }

  lemma RecordGrows(w: World, marshal: Marshal, c: Command)
    requires Record(w, marshal, c).Some?
    ensures Grows(w.r, Record(w, marshal, c).value)
  {
    hide Process, UnlinkPrevious, Grows, Then;
    var r := w.r;
    match c {
      case NewFile(path) =>
        UnlinkPreviousGrows(r, w.id, marshal, path);
        ThenGrows(r, UnlinkPrevious(r, w.id, marshal, path), w.id, marshal, Create(path));
      case Append(f, data) =>
        ProcessGrows(r, w.id, marshal, Write(f, w.offsets[f], |data|), data);
      case LinkTo(src, target) =>
        ProcessGrows(r, w.id, marshal, Link(r.fsm.links[src], target), []);
      case Rename(src, target) =>
        UnlinkPreviousGrows(r, w.id, marshal, target);
        var unlinked := UnlinkPrevious(r, w.id, marshal, target);
        var fnode := r.fsm.links[src];
        var body :=
          if target in PropertyFiles then Property(target, w.fs.inodes[w.fs.paths[src]]) else Link(fnode, target);
        ThenGrows(r, unlinked, w.id, marshal, body);
        ThenGrows(r, Then(unlinked, w.id, marshal, body), w.id, marshal, Unlink(fnode, src));
      case Delete(path) =>
        ProcessGrows(r, w.id, marshal, Unlink(r.fsm.links[path], path), []);
    }
  }

  /** The path is there, and isn't that of a property. */
  predicate IsFile(fs: FileSystem, p: string) {
    p in fs.paths && p !in PropertyFiles
  }

  /**
   * Commands which the Recorder accepts, in terms of the file system: of files but not of properties. A file can be
   * appended to while it has a path, and a property can only be replaced by a file of the same content.
   */
  ghost predicate IsPossible(fs: FileSystem, c: Command) {
    match c
    case NewFile(path) => path !in PropertyFiles
    case Append(f, _) => exists p :: IsFile(fs, p) && fs.paths[p] == f
    case LinkTo(src, target) => IsFile(fs, src) && target !in fs.paths && target !in PropertyFiles
    case Rename(src, target) =>
      && IsFile(fs, src) && fs.paths[src] in fs.inodes
      && (target in PropertyFiles && target in fs.paths ==>
            fs.paths[target] in fs.inodes && fs.inodes[fs.paths[target]] == fs.inodes[fs.paths[src]])
    case Delete(path) => IsFile(fs, path)
  }

  /** Of the supported uses, the Recorder accepts exactly these. */
  lemma PerformIff(w: World, marshal: Marshal, c: Command)
    requires WorldOk(w)
    ensures Perform(w, marshal, c).Some? <==> IsSupported(w.fs, c) && IsPossible(w.fs, c)
  {
    hide Process, IsRecording, Recorded, Woven, ArePlaced, StoredOk, NoneForeign, Emit;
    hide NewWritableFile, DeleteFile, LinkFile, RenameFile, AppendFile;
    RecordingIsApart(w.r, w.id);
    if Record(w, marshal, c).Some? {
      RecordGrows(w, marshal, c);
    }
    match c {
      case NewFile(path) => NewWritableFileIff(w.r, w.id, marshal, path);
      case Append(f, data) =>
        if f in w.offsets {
          AppendFileIff(w.r, w.id, marshal, f, w.offsets[f], data);
        }
      case LinkTo(src, target) => LinkFileIff(w.r, w.id, marshal, src, target);
      case Rename(src, target) =>
        if src in w.fs.paths && w.fs.paths[src] in w.fs.inodes {
          RenameFileIff(w.r, w.id, marshal, src, target, w.fs.inodes[w.fs.paths[src]]);
        }
      case Delete(path) => DeleteFileIff(w.r, w.id, marshal, path);
    }
  }

  lemma SyncedCommand(w: World, marshal: Marshal, c: Command)
    requires Synced(w.r, w.id, w.fs) && OffsetsAreLengths(w.fs, w.offsets)
    requires IsSupported(w.fs, c) && Record(w, marshal, c).Some?
    ensures var n := Record(w, marshal, c).value;
            var inode := NewInode(n, c);
            Synced(n, w.id, Effect(w.fs, c, inode)) && OffsetsAreLengths(Effect(w.fs, c, inode), Offsets(w, c, inode))
  {
    hide IsRecording, Recorded, Process, NewWritableFile, RenameFile;
    match c {
      case NewFile(path) =>
        SyncNewFile(w.r, w.id, marshal, w.fs, path);
        NewPathIsNoProperty(w.r, w.id, marshal, path);
      case Append(f, data) =>
        SyncWrite(w.r, w.id, marshal, w.fs, f, data);
      case LinkTo(src, target) =>
        SyncLink(w.r, w.id, marshal, w.fs, w.r.fsm.links[src], target);
      case Rename(src, target) =>
        RenamedIsLinked(w.r, w.id, marshal, src, target, w.fs.inodes[w.fs.paths[src]]);
        SyncRename(w.r, w.id, marshal, w.fs, src, target);
      case Delete(path) =>
        SyncUnlink(w.r, w.id, marshal, w.fs, path);
    }
  }

  lemma NewPathIsNoProperty(r: Recording, id: nat, marshal: Marshal, path: string)
    requires NewWritableFile(r, id, marshal, path).Some?
    ensures path !in PropertyFiles
  {
    hide Process;
  }

  lemma RenamedIsLinked(r: Recording, id: nat, marshal: Marshal, src: string, target: string, content: Bytes)
    requires RenameFile(r, id, marshal, src, target, content).Some?
    ensures src in r.fsm.links
  {
    hide Process;
  }

  /** Emitted entries are woven into the log. */
  lemma {:induction false} EmitWeaves(w: World, h: seq<Entry>, xs: seq<Entry>)
    requires Woven(h, w.log, w.ours) && NoneForeign(w.log, w.ours, w.id) && ArePlaced(w.log, w.end)
    requires forall i :: 0 <= i < |xs| ==> xs[i].op.firstOffset <= w.end && xs[i].op.author == w.id
    ensures var n := Emit(w, xs);
            && Woven(h + xs, n.log, n.ours) && NoneForeign(n.log, n.ours, w.id) && ArePlaced(n.log, n.end)
            && n.end >= w.end && n.r == w.r && n.id == w.id && n.stored == w.stored
    decreases xs
  {
    hide Woven, ArePlaced;
    if xs == [] {
      assert h + xs == h;
    } else {
      var e := At(w.end, xs[0]);
      WeaveOurs(h, w.log, w.ours, xs[0], e);
      EndIsPlaced(w.log, w.end);
      PlacedSnoc(w.log, w.end, e, w.end + Size(xs[0]));
      var n := w.(log := w.log + [e], ours := w.ours + [true], end := w.end + Size(xs[0]));
      assert forall i :: 0 <= i < |xs[1..]| ==> xs[1..][i] == xs[i + 1];
      EmitWeaves(n, h + [xs[0]], xs[1..]);
      assert h + [xs[0]] + xs[1..] == h + xs;
    }
  }

  lemma EndIsPlaced(log: seq<LogEntry>, end: int)
    requires ArePlaced(log, end)
    ensures end >= 0
  {
  }

  lemma RecordIssues(w: World, marshal: Marshal, c: Command, i: nat)
    requires Record(w, marshal, c).Some? && |w.r.entries| <= i < |Record(w, marshal, c).value.entries|
    ensures var x := Record(w, marshal, c).value.entries[i]; x.op.author == w.id && x.op.firstOffset == w.r.writeHead
  {
  }

  lemma PerformKeeps(w: World, marshal: Marshal, c: Command)
    requires WorldOk(w) && Perform(w, marshal, c).Some?
    ensures var n := Perform(w, marshal, c).value; WorldOk(n) && Grows(w.r, n.r)
  {
    hide Record, IsSupported, Effect, Offsets, Emit, Woven, InSync, OffsetsAreLengths, IsHistory, StateAt, ArePlaced;
    hide StoredOk, NoneForeign, OffsetsAreOrdered, AuthorsLeadTo;
    SyncedCommand(w, marshal, c);
    RecordGrows(w, marshal, c);
    var n := Record(w, marshal, c).value;
    var xs := n.entries[|w.r.entries|..];
    forall i | 0 <= i < |xs| ensures xs[i].op.firstOffset <= w.end && xs[i].op.author == w.id {
      RecordIssues(w, marshal, c, |w.r.entries| + i);
    }
    EmitWeaves(w, w.r.entries, xs);
    assert w.r.entries + xs == n.entries;
    PrefixIsEarlier(w.r.entries, n.entries);
    forall k | 0 <= k < |w.stored| ensures StoredOk(w.stored[k], n.entries) {
      StoredIsKept(w.stored[k], w.r.entries, n.entries);
    }
  }

  /** The last SeqNo of hinted Segments. */
  function LastHinted(hints: FSMHints): int {
    match Flatten(hints.liveNodes)
    case None => 0
    case Some((_, segs)) => if segs == [] then 0 else segs[|segs| - 1].lastSeqNo
  }
}

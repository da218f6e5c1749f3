/**
 * The Player re-enacts the ops which its FSM applies on local files, one per live Fnode, and links them
 * into place when playback completes (pkg/recoverylog/playback.go).
 */
module Player {
  import opened Common
  import opened Fsm
  import opened Hints
  import opened History
  import opened Playback
  import opened RoundTrip

  /** The player's FSM, and the staged file of each Fnode. */
  datatype Playing = Playing(fsm: State, files: map<Fnode, Bytes>)

  function Zeros(n: nat): (z: Bytes)
    ensures |z| == n
  {
    seq(n, i => 0)
  }

  /** A write of `data` at `offset`; a file is extended with zeros up to the offset. */
  function WriteAt(content: Bytes, offset: nat, data: Bytes): Bytes {
    var c := if |content| < offset then content + Zeros(offset - |content|) else content;
    c[..offset] + data + if offset + |data| <= |c| then c[offset + |data|..] else []
  }

  /** reenactOperation on values: None where a file operation fails or the player panics. */
  function Reenact(files: map<Fnode, Bytes>, after: State, op: RecordedOp, data: Bytes): Option<map<Fnode, Bytes>> {
    match op.body
    case Create(_) => if op.seqNo in files then None else Some(files[op.seqNo := []])
    case Unlink(fnode, _) =>
      if fnode in after.liveNodes then Some(files)
      else if fnode !in files then None
      else Some(files - {fnode})
    case Write(fnode, offset, _) =>
      if fnode !in files || offset < 0 then None
      else Some(files[fnode := WriteAt(files[fnode], offset, data)])
    case _ => Some(files)
  }

  /** One iteration of playLog: seek, or apply, and re-enact what was applied without an error. */
  function Step(ps: Playing, e: LogEntry): Option<Playing> {
    if ps.fsm.hintedSegments != [] && e.begin < ps.fsm.hintedSegments[0].firstOffset then Some(ps)
    else
      var (n, err) := Apply(ps.fsm, e.op, e.frame);
      if err != NoError then Some(Playing(n, ps.files))
      else match Reenact(ps.files, n, e.op, e.data)
        case None => None
        case Some(files) => Some(Playing(n, files))
  }

  /** The entry is read, and applied without an error. */
  predicate Applies(p: State, e: LogEntry) {
    && (p.hintedSegments != [] ==> p.hintedSegments[0].firstOffset <= e.begin)
    && Apply(p, e.op, e.frame).1 == NoError
  }

  function PlayLog(ps: Playing, log: seq<LogEntry>): Option<Playing>
    decreases log
  {
    if log == [] then Some(ps)
    else match Step(ps, log[0])
      case None => None
      case Some(next) => PlayLog(next, log[1..])
  }

  /** The final directory: every link of a live Fnode to its file, and the properties. */
  function Directory(ps: Playing): map<string, Bytes>
    requires forall p :: p in ps.fsm.links ==> ps.fsm.links[p] in ps.files
  {
    (map p | p in ps.fsm.links :: ps.files[ps.fsm.links[p]]) + ps.fsm.properties
  }

  // ---------------------------------------------------------------------------
  // Staged files are exactly those of the live Fnodes, whatever the log holds.

  ghost predicate FilesMatch(ps: Playing) {
    Invariant(ps.fsm) && ps.files.Keys == ps.fsm.liveNodes.Keys
  }

  /** How an op changes which Fnodes are live. */
  lemma ApplyBodyKeys(m: State, op: RecordedOp)
    requires Transitions(ApplyBody(m, op).1)
    ensures var (n, err) := ApplyBody(m, op);
            if err != NoError then n.liveNodes == m.liveNodes
            else match op.body
              case Create(_) => n.liveNodes.Keys == m.liveNodes.Keys + {op.seqNo}
              case Unlink(f, _) => f in m.liveNodes && n.liveNodes.Keys ==
                  if f in n.liveNodes then m.liveNodes.Keys else m.liveNodes.Keys - {f}
              case Write(f, _, _) => f in m.liveNodes && n.liveNodes.Keys == m.liveNodes.Keys
              case _ => n.liveNodes.Keys == m.liveNodes.Keys
  {
    hide ExtendSegments;
  }

  lemma ApplyKeys(m: State, op: RecordedOp, frame: Bytes)
    requires Transitions(Apply(m, op, frame).1)
    ensures Transitions(ApplyBody(m, op).1) && Apply(m, op, frame).1 == ApplyBody(m, op).1
    ensures Apply(m, op, frame).0.liveNodes == ApplyBody(m, op).0.liveNodes
    ensures op.seqNo == m.nextSeqNo
  {
    hide ApplyBody;
  }

  predicate WritesAreValid(op: RecordedOp) {
    op.body.Write? ==> op.body.offset >= 0
  }

  /** Playing any entry keeps the files matched, and no file operation fails for want of a file. */
  lemma StepKeepsFiles(ps: Playing, e: LogEntry)
    requires FilesMatch(ps) && WritesAreValid(e.op)
    ensures Step(ps, e).Some? && FilesMatch(Step(ps, e).value)
    ensures Step(ps, e).value.fsm == PlayOne(ps.fsm, e)
  {
    ApplyKeepsInvariant(ps.fsm, e.op, e.frame);
    var (n, err) := Apply(ps.fsm, e.op, e.frame);
    NextIsNotLive(ps.fsm);
    hide Apply, ApplyBody, Invariant;
    if Transitions(err) {
      ApplyKeys(ps.fsm, e.op, e.frame);
      ApplyBodyKeys(ps.fsm, e.op);
    }
  }

  lemma NextIsNotLive(m: State)
    requires Invariant(m)
    ensures m.nextSeqNo !in m.liveNodes
  {
  }

  lemma {:induction false} PlayLogKeepsFiles(ps: Playing, log: seq<LogEntry>)
    requires FilesMatch(ps) && forall i :: 0 <= i < |log| ==> WritesAreValid(log[i].op)
    ensures PlayLog(ps, log).Some? && FilesMatch(PlayLog(ps, log).value)
    ensures PlayLog(ps, log).value.fsm == Play(ps.fsm, log)
    decreases log
  {
    hide Step, FilesMatch, PlayOne;
    if log != [] {
      StepKeepsFiles(ps, log[0]);
      PlayLogKeepsFiles(Step(ps, log[0]).value, log[1..]);
    }
  }

  /** The player's FSM goes through the log as it would alone. */
  lemma {:induction false} PlayLogIsPlay(ps: Playing, log: seq<LogEntry>)
    ensures PlayLog(ps, log).Some? ==> PlayLog(ps, log).value.fsm == Play(ps.fsm, log)
    decreases log
  {
    hide Apply, Reenact;
    if log != [] && Step(ps, log[0]).Some? {
      PlayLogIsPlay(Step(ps, log[0]).value, log[1..]);
    }
  }

  // ---------------------------------------------------------------------------
  // File contents follow the history, too.

  /** The files which a history builds, if each of its ops is re-enacted. */
  function FilesAt(h: seq<Entry>, k: nat): map<Fnode, Bytes>
    requires k <= |h|
  {
    if k == 0 then map[]
    else FilesAfter(FilesAt(h, k - 1), StateAt(h, k - 1), h[k - 1])
  }

  function FilesAfter(files: map<Fnode, Bytes>, m: State, x: Entry): map<Fnode, Bytes> {
    var (n, err) := Apply(m, x.op, x.frame);
    if err != NoError then files
    else match Reenact(files, n, x.op, x.data)
      case None => files
      case Some(next) => next
  }

  /** Re-enacting an op changes the file of the Fnode it touches, and no other. */
  lemma ReenactNode(files: map<Fnode, Bytes>, after: State, op: RecordedOp, data: Bytes, f: Fnode)
    requires Reenact(files, after, op, data).Some?
    ensures var next := Reenact(files, after, op, data).value;
            && (!Touches(op, f) ==> (f in next <==> f in files) && (f in files ==> next[f] == files[f]))
            && (Touches(op, f) ==> match op.body
                  case Create(_) => f in next && next[f] == []
                  case Write(_, offset, _) => offset >= 0 && f in files && f in next
                    && next[f] == WriteAt(files[f], offset, data)
                  case _ => f in after.liveNodes && f in files ==> f in next && next[f] == files[f])
  {
    hide WriteAt;
  }

  lemma {:induction false} FilesAtMatch(h: seq<Entry>, k: nat)
    requires IsHistory(h) && k <= |h| && forall i :: 0 <= i < |h| ==> WritesAreValid(h[i].op)
    ensures FilesAt(h, k).Keys == StateAt(h, k).liveNodes.Keys
    ensures k < |h| ==> var (n, err) := Apply(StateAt(h, k), h[k].op, h[k].frame);
              err == NoError ==> Reenact(FilesAt(h, k), n, h[k].op, h[k].data).Some?
  {
    hide Apply, Invariant, Reenact, IsHistory;
    StateAtIsValid(h, k);
    if k > 0 {
      FilesAtMatch(h, k - 1);
      StateAtIsValid(h, k - 1);
      var e := LogEntry(0, h[k - 1].op, h[k - 1].frame, h[k - 1].data);
      NoHints(StateAt(h, k - 1));
      StepKeepsFiles(Playing(StateAt(h, k - 1), FilesAt(h, k - 1)), e);
    }
    if k < |h| {
      var e := LogEntry(0, h[k].op, h[k].frame, h[k].data);
      NoHints(StateAt(h, k));
      StepKeepsFiles(Playing(StateAt(h, k), FilesAt(h, k)), e);
    }
  }

  lemma NoHints(m: State)
    ensures !HasRemainingHints(m) ==> m.hintedSegments == []
  {
  }

  ghost predicate SameFiles(files: map<Fnode, Bytes>, all: map<Fnode, Bytes>) {
    forall f :: f in files ==> f in all && files[f] == all[f]
  }

  /** Files have the same content, where every op of the Fnode is played. */
  ghost predicate SameExact(c: Course, files: map<Fnode, Bytes>, all: map<Fnode, Bytes>) {
    forall f :: f in files ==> f in all && (IsExact(c, f) ==> files[f] == all[f])
  }

  ghost predicate FollowsFiles(c: Course, k: nat, ps: Playing)
    requires c.cut <= |c.h| && k <= |c.h|
  {
    Follows(c, k, ps.fsm) && FilesMatch(ps) && SameExact(c, ps.files, FilesAt(c.h, k))
  }

  /** An op which touches a Fnode that is live afterwards was applied without an error. */
  lemma TouchedIsApplied(m: State, op: RecordedOp, f: Fnode)
    requires Transitions(ApplyBody(m, op).1) && Touches(op, f)
    requires f in ApplyBody(m, op).0.liveNodes && op.seqNo !in m.liveNodes
    ensures ApplyBody(m, op).1 == NoError
  {
    hide ExtendSegments;
  }

  /** What the files of a history become by one more op, for one Fnode which is live after it. */
  lemma HistoryFile(h: seq<Entry>, k: nat, f: Fnode)
    requires IsHistory(h) && k < |h| && forall i :: 0 <= i < |h| ==> WritesAreValid(h[i].op)
    requires f in StateAt(h, k + 1).liveNodes
    ensures f in FilesAt(h, k + 1)
    ensures !Touches(h[k].op, f) ==> f in FilesAt(h, k) && FilesAt(h, k + 1)[f] == FilesAt(h, k)[f]
    ensures Touches(h[k].op, f) ==>
              FileAfter(FilesAt(h, k), h[k].op, h[k].data, f, FilesAt(h, k + 1)[f])
  {
    hide Apply, ApplyBody, Invariant, Reenact, IsHistory, StateAt;
    FilesAtMatch(h, k);
    FilesAtMatch(h, k + 1);
    StateAtIsValid(h, k);
    NextIsNotLive(StateAt(h, k));
    HistoryStep(h, k);
    var m, op := StateAt(h, k), h[k].op;
    StateAtStep(h, k);
    ApplyKeys(m, op, h[k].frame);
    ApplyBodyNode(m, op, f);
    if Touches(op, f) {
      TouchedIsApplied(m, op, f);
    }
    var (n, err) := Apply(m, op, h[k].frame);
    if err == NoError {
      ReenactNode(FilesAt(h, k), n, op, h[k].data, f);
    }
  }

  lemma StateAtStep(h: seq<Entry>, k: nat)
    requires IsHistory(h) && k < |h|
    ensures StateAt(h, k + 1) == Apply(StateAt(h, k), h[k].op, h[k].frame).0
    ensures Transitions(Apply(StateAt(h, k), h[k].op, h[k].frame).1)
  {
    hide Apply;
  }

  /** The content of a touched file: empty if created, written at an offset, or as it was. */
  ghost predicate FileAfter(files: map<Fnode, Bytes>, op: RecordedOp, data: Bytes, f: Fnode, content: Bytes) {
    match op.body
    case Create(_) => content == []
    case Write(_, offset, _) => offset >= 0 && f in files && content == WriteAt(files[f], offset, data)
    case _ => f in files && content == files[f]
  }

  /** The same, for a file of the player. */
  lemma PlayedFile(ps: Playing, e: LogEntry, f: Fnode)
    requires FilesMatch(ps) && WritesAreValid(e.op)
    requires Transitions(Apply(ps.fsm, e.op, e.frame).1)
    requires ps.fsm.hintedSegments == [] || ps.fsm.hintedSegments[0].firstOffset <= e.begin
    requires Step(ps, e).Some? && f in Step(ps, e).value.files && f in Step(ps, e).value.fsm.liveNodes
    ensures var files := Step(ps, e).value.files;
            && (!Touches(e.op, f) ==> f in ps.files && files[f] == ps.files[f])
            && (Touches(e.op, f) ==> FileAfter(ps.files, e.op, e.data, f, files[f]))
  {
    NextIsNotLive(ps.fsm);
    hide Apply, ApplyBody, Invariant, Reenact;
    var m := ps.fsm;
    ApplyKeys(m, e.op, e.frame);
    ApplyBodyNode(m, e.op, f);
    if Touches(e.op, f) {
      TouchedIsApplied(m, e.op, f);
    }
    var (n, err) := Apply(m, e.op, e.frame);
    if err == NoError {
      ReenactNode(ps.files, n, e.op, e.data, f);
    }
  }

  lemma FileAfterSame(c: Course, files: map<Fnode, Bytes>, all: map<Fnode, Bytes>, op: RecordedOp, op': RecordedOp,
                      data: Bytes, f: Fnode, x: Bytes, y: Bytes)
    requires SameExact(c, files, all) && SameOp(op, op') && IsExact(c, f)
    requires FileAfter(files, op, data, f, x) && FileAfter(all, op', data, f, y)
    ensures x == y
  {
    hide WriteAt;
  }

  lemma FollowFilesPlayed(c: Course, k: nat, ps: Playing, e: LogEntry)
    requires IsCourse(c) && k < |c.h| && FollowsFiles(c, k, ps) && Records(e, c.h[k]) && k + 1 == ps.fsm.nextSeqNo
    requires forall i :: 0 <= i < |c.h| ==> WritesAreValid(c.h[i].op)
    requires Step(ps, e).Some? && FilesMatch(Step(ps, e).value) && Follows(c, k + 1, Step(ps, e).value.fsm)
    ensures SameExact(c, Step(ps, e).value.files, FilesAt(c.h, k + 1))
  {
    hide Apply, ApplyBody, StateAt, IsHistory, IsCourse, Invariant, Step, Reenact, FilesAt, FileAfter, Follows;
    CourseIsHistory(c);
    FollowsParts(c, k, ps.fsm);
    SeekIsSafe(c, k, ps.fsm, e);
    FollowPlayed(c, k, ps.fsm, e.op);
    var files := Step(ps, e).value.files;
    FollowsParts(c, k + 1, Step(ps, e).value.fsm);
    forall f | f in files
      ensures f in FilesAt(c.h, k + 1) && (IsExact(c, f) ==> files[f] == FilesAt(c.h, k + 1)[f])
    {
      PlayedFile(ps, e, f);
      HistoryFile(c.h, k, f);
      if Touches(e.op, f) && IsExact(c, f) {
        FileAfterSame(c, ps.files, FilesAt(c.h, k), e.op, c.h[k].op, e.data, f, files[f], FilesAt(c.h, k + 1)[f]);
      }
    }
  }

  lemma FollowsParts(c: Course, k: nat, p: State)
    requires c.cut <= |c.h| && k <= |c.h| && Follows(c, k, p)
    ensures InStep(c, k, p) && Mirrors(c, c.At(k), p)
  {
    hide Invariant, InStep, Mirrors, FnodesRemain, StateAt;
  }

  lemma CourseIsHistory(c: Course)
    requires IsCourse(c)
    ensures IsHistory(c.h) && c.cut <= |c.h|
  {
    hide IsHistory;
  }

  lemma FollowFilesSkipped(c: Course, k: nat, ps: Playing)
    requires IsCourse(c) && k < |c.h| && FollowsFiles(c, k, ps) && k + 1 != ps.fsm.nextSeqNo
    requires forall i :: 0 <= i < |c.h| ==> WritesAreValid(c.h[i].op)
    ensures SameExact(c, ps.files, FilesAt(c.h, k + 1))
  {
    hide Apply, ApplyBody, StateAt, IsHistory, IsCourse, Invariant, Reenact, FilesAt, FileAfter, Follows;
    CourseIsHistory(c);
    GapIsUntracked(c, k, ps.fsm);
    FollowsParts(c, k, ps.fsm);
    StateAtIsValid(c.h, k);
    FollowGap(c, k, ps.fsm);
    FollowsParts(c, k + 1, ps.fsm);
    forall f | f in ps.files
      ensures f in FilesAt(c.h, k + 1) && (IsExact(c, f) ==> ps.files[f] == FilesAt(c.h, k + 1)[f])
    {
      HistoryFile(c.h, k, f);
    }
  }

  lemma FollowFilesRecord(c: Course, k: nat, ps: Playing, e: LogEntry)
    requires IsCourse(c) && k < |c.h| && FollowsFiles(c, k, ps) && Records(e, c.h[k])
    requires forall i :: 0 <= i < |c.h| ==> WritesAreValid(c.h[i].op)
    ensures Step(ps, e).Some? && FollowsFiles(c, k + 1, Step(ps, e).value)
  {
    hide Apply, ApplyBody, StateAt, IsHistory, IsCourse, Invariant, Reenact, FilesAt, Follows;
    StepKeepsFiles(ps, e);
    FollowRecord(c, k, ps.fsm, e);
    if k + 1 == ps.fsm.nextSeqNo {
      FollowFilesPlayed(c, k, ps, e);
    } else {
      FollowFilesSkipped(c, k, ps);
      CourseIsHistory(c);
      StateAtIsValid(c.h, k);
      WrongSeqNo(ps.fsm, e.op, e.frame);
      RejectedKeepsFiles(ps, e);
    }
  }

  lemma RejectedKeepsFiles(ps: Playing, e: LogEntry)
    requires e.op.seqNo != ps.fsm.nextSeqNo
    ensures Step(ps, e) == Some(ps)
  {
    hide ApplyBody, Advance, Reenact;
  }

  lemma FollowFilesNoise(c: Course, k: nat, ps: Playing, e: LogEntry)
    requires IsCourse(c) && k <= |c.h| && FollowsFiles(c, k, ps) && Noise(c, k, e)
    ensures Step(ps, e) == Some(ps)
  {
    hide ApplyBody, StateAt, IsHistory, IsCourse, FilesAt, Follows, Reenact, Noise, Advance, SameExact;
    FollowNoise(c, k, ps.fsm, e);
    UnmovedIsRejected(ps.fsm, e);
  }

  /** An entry which leaves the FSM unmoved was skipped or rejected. */
  lemma UnmovedIsRejected(p: State, e: LogEntry)
    requires Invariant(p) && PlayOne(p, e) == p
    ensures (p.hintedSegments != [] && e.begin < p.hintedSegments[0].firstOffset)
            || !Transitions(Apply(p, e.op, e.frame).1)
  {
    ApplyKeepsInvariant(p, e.op, e.frame);
    hide Apply, Invariant;
  }

  lemma FollowFilesDead(c: Course, k: nat, ps: Playing)
    requires IsCourse(c) && k < |c.h| && FollowsFiles(c, k, ps) && IsDead(c, k)
    requires forall i :: 0 <= i < |c.h| ==> WritesAreValid(c.h[i].op)
    ensures FollowsFiles(c, k + 1, ps)
  {
    hide IsCourse, Follows, IsDead, Invariant;
    FollowDead(c, k, ps.fsm);
    FollowFilesSkipped(c, k, ps);
  }

  lemma {:induction false} FollowFilesLog(c: Course, k: nat, ps: Playing, log: seq<LogEntry>)
    requires IsCourse(c) && k <= |c.h| && FollowsFiles(c, k, ps) && Carries(c, k, log)
    requires forall i :: 0 <= i < |c.h| ==> WritesAreValid(c.h[i].op)
    ensures PlayLog(ps, log).Some? && FollowsFiles(c, |c.h|, PlayLog(ps, log).value)
    decreases |log| + |c.h| - k
  {
    hide Apply, StateAt, IsCourse, FollowsFiles, Records, Noise, Step, WritesAreValid, IsDead;
    if log == [] && k == |c.h| {
    } else if k < |c.h| && IsDead(c, k) && Carries(c, k + 1, log) {
      FollowFilesDead(c, k, ps);
      FollowFilesLog(c, k + 1, ps, log);
    } else if k < |c.h| && log != [] && Records(log[0], c.h[k]) && Carries(c, k + 1, log[1..]) {
      FollowFilesRecord(c, k, ps, log[0]);
      FollowFilesLog(c, k + 1, Step(ps, log[0]).value, log[1..]);
    } else {
      FollowFilesNoise(c, k, ps, log[0]);
      FollowFilesLog(c, k, ps, log[1..]);
    }
  }

  // ---------------------------------------------------------------------------
  // Recovery of files

  /** The directory which a history builds. */
  ghost function DirectoryAt(h: seq<Entry>, k: nat): map<string, Bytes>
    requires IsHistory(h) && k <= |h| && forall i :: 0 <= i < |h| ==> WritesAreValid(h[i].op)
  {
    FilesAtMatch(h, k);
    StateAtIsValid(h, k);
    Directory(Playing(StateAt(h, k), FilesAt(h, k)))
  }

  /**
   * Hinted playback of a log which carries a history succeeds in every file operation, uses up its hints,
   * and leaves the directory which the history built.
   */
  lemma FilesRoundTrip(h: seq<Entry>, cut: nat, hints: FSMHints, log: seq<LogEntry>)
    requires Hintable(h, cut) && hints.log != "" && AreHintsOf(hints, StateAt(h, cut))
    requires forall i :: 0 <= i < |h| ==> WritesAreValid(h[i].op)
    requires Flatten(hints.liveNodes).Some? ==>
               var c := CourseOf(h, cut, hints);
               GapsAreHarmless(c) && Carries(c, 0, log)
    ensures InitialState(hints).Some?
    ensures var r := PlayLog(Playing(InitialState(hints).value, map[]), log);
            && r.Some?
            && !HasRemainingHints(r.value.fsm)
            && FilesMatch(r.value)
            && (forall p :: p in r.value.fsm.links ==> r.value.fsm.links[p] in r.value.files)
            && Directory(r.value) == DirectoryAt(h, |h|)
            && SameState(r.value.fsm, StateAt(h, |h|))
  {
    hide Apply, StateAt, IsHistory, AuthorsAreRuns, OffsetsAreOrdered, GapsAreHarmless, HintsHold, Carries;
    hide Flatten, PropertiesAreSinks, Directory, Follows, WritesAreValid;
    HintsHoldCourse(h, cut, hints);
    var c := CourseOf(h, cut, hints);
    assert InitialState(hints) == Some(Start(c));
    StartFollows(c);
    var ps := Playing(Start(c), map[]);
    FollowsInvariant(c, 0, Start(c));
    FollowFilesLog(c, 0, ps, log);
    var r := PlayLog(ps, log).value;
    EndIsSame(c, r.fsm);
    EndIsExhausted(c, r.fsm);
    SameDirectory(c, r);
  }

  lemma SameDirectory(c: Course, r: Playing)
    requires IsCourse(c) && FollowsFiles(c, |c.h|, r) && SameState(r.fsm, c.At(|c.h|))
    requires forall i :: 0 <= i < |c.h| ==> WritesAreValid(c.h[i].op)
    ensures forall p :: p in r.fsm.links ==> r.fsm.links[p] in r.files
    ensures IsHistory(c.h) && Directory(r) == DirectoryAt(c.h, |c.h|)
  {
    hide Apply, StateAt, IsHistory, IsCourse, Follows, FilesAt;
    CourseIsHistory(c);
    FilesAtMatch(c.h, |c.h|);
    StateAtIsValid(c.h, |c.h|);
    var m, files := c.At(|c.h|), FilesAt(c.h, |c.h|);
    assert forall p :: p in r.fsm.links ==> r.fsm.links[p] in r.files;
    forall f | f in r.files
      ensures f in files && r.files[f] == files[f]
    {
      LiveIsTracked(c, f);
    }
    DirectoryOfSame(r, Playing(m, files));
  }

  lemma DirectoryOfSame(r: Playing, d: Playing)
    requires r.fsm.links == d.fsm.links && r.fsm.properties == d.fsm.properties && SameFiles(r.files, d.files)
    requires forall p :: p in r.fsm.links ==> r.fsm.links[p] in r.files
    ensures forall p :: p in d.fsm.links ==> d.fsm.links[p] in d.files
    ensures Directory(r) == Directory(d)
  {
    forall p | p in r.fsm.links ensures r.fsm.links[p] in d.files
      && r.files[r.fsm.links[p]] == d.files[d.fsm.links[p]] {
      var f := r.fsm.links[p];
      assert f in r.files;
      assert f in d.files && r.files[f] == d.files[f];
    }
    var x := map p | p in r.fsm.links :: r.files[r.fsm.links[p]];
    var y := map p | p in d.fsm.links :: d.files[d.fsm.links[p]];
    assert x == y;
  }

  // ---------------------------------------------------------------------------
  // The Player, which updates its FSM and files in place

  class LogPlayer {
    const fsm: FSM
    var files: map<Fnode, Bytes>

    function View(): Playing
      reads this, fsm
    {
      Playing(fsm.View(), files)
    }

    constructor (fsm: FSM)
      requires Invariant(fsm.View()) && fsm.liveNodes == map[]
      ensures this.fsm == fsm && View() == Playing(fsm.View(), map[]) && FilesMatch(View())
    {
      this.fsm := fsm;
      files := map[];
    }

    /** playOperation, after the seek of playLog. No file operation fails. */
    method PlayOperation(e: LogEntry) returns (applied: bool)
      requires FilesMatch(View()) && WritesAreValid(e.op)
      modifies this, fsm
      ensures FilesMatch(View())
      ensures Step(old(View()), e) == Some(View())
      ensures applied <==> Applies(old(View().fsm), e)
    {
      StepKeepsFiles(View(), e);
      if fsm.hintedSegments != [] && e.begin < fsm.hintedSegments[0].firstOffset {
        return false;
      }
      var err := fsm.ApplyOp(e.op, e.frame);
      applied := err == NoError;
      if applied {
        match e.op.body {
          case Create(_) => files := files[e.op.seqNo := []];
          case Unlink(fnode, _) =>
            if fnode !in fsm.liveNodes {
              files := files - {fnode};
            }
          case Write(fnode, offset, _) =>
            files := files[fnode := WriteAt(files[fnode], offset, e.data)];
          case _ =>
        }
      }
    }

    /**
     * makeLive: an error if hints remain; otherwise every staged file is linked into place, none is left
     * over, and no link or property finds its path taken.
     */
    method MakeLive() returns (dir: Option<map<string, Bytes>>)
      requires FilesMatch(View())
      modifies this
      ensures fsm.View() == old(fsm.View())
      ensures dir.None? <==> HasRemainingHints(fsm.View())
      ensures dir.Some? ==>
                && files == map[]
                && (forall p :: p in fsm.links ==> fsm.links[p] in old(files))
                && dir.value == Directory(old(View()))
    {
      if fsm.hintedSegments != [] || fsm.hintedFnodes != [] {
        return None;
      }
      ghost var was := View();
      LinkBegin(was);
      hide Invariant, Linked, Directory;
      var out: map<string, Bytes> := map[];
      var todo := fsm.liveNodes.Keys;
      while todo != {}
        invariant todo <= was.fsm.liveNodes.Keys && files.Keys == todo
        invariant fsm.View() == was.fsm
        invariant forall f :: f in todo ==> files[f] == was.files[f]
        invariant Linked(was, todo, out)
      {
        var f := Any(todo);
        var file := files[f];
        files := files - {f};
        LinkStep(was, todo, f, out);
        out := LinkAll(out, fsm.liveNodes[f].links, file);
        todo := todo - {f};
      }
      LinkEnd(was, out);
      out := LinkProperties(out, fsm.properties);
      return Some(out);
    }
  }

  /** All paths of Fnodes which aren't `todo` are linked to their files. */
  ghost predicate Linked(ps: Playing, todo: set<Fnode>, out: map<string, Bytes>) {
    && (forall p :: p in out <==> p in ps.fsm.links && ps.fsm.links[p] !in todo)
    && (forall p :: p in out ==> ps.fsm.links[p] in ps.files && out[p] == ps.files[ps.fsm.links[p]])
  }

  lemma LinkBegin(ps: Playing)
    requires FilesMatch(ps)
    ensures Linked(ps, ps.fsm.liveNodes.Keys, map[])
  {
  }

  lemma LinkStep(ps: Playing, todo: set<Fnode>, f: Fnode, out: map<string, Bytes>)
    requires FilesMatch(ps) && f in todo && todo <= ps.fsm.liveNodes.Keys && Linked(ps, todo, out)
    ensures out.Keys !! ps.fsm.liveNodes[f].links
    ensures Linked(ps, todo - {f}, out + map p | p in ps.fsm.liveNodes[f].links :: ps.files[f])
  {
    var links := ps.fsm.links;
    assert forall p :: p in ps.fsm.liveNodes[f].links <==> p in links && links[p] == f;
    hide FilesMatch, Invariant;
  }

  lemma LinkEnd(ps: Playing, out: map<string, Bytes>)
    requires FilesMatch(ps) && Linked(ps, {}, out)
    ensures out.Keys !! ps.fsm.properties.Keys
    ensures (forall p :: p in ps.fsm.links ==> ps.fsm.links[p] in ps.files)
    ensures out + ps.fsm.properties == Directory(ps)
  {
    assert out == map p | p in ps.fsm.links :: ps.files[ps.fsm.links[p]];
  }

  /** Links `content` at each of `links`. Linking fails where a path is taken. */
  method LinkAll(dir: map<string, Bytes>, links: set<string>, content: Bytes) returns (r: map<string, Bytes>)
    requires dir.Keys !! links
    ensures r == dir + map p | p in links :: content
  {
    r := dir;
    var todo := links;
    while todo != {}
      invariant todo <= links
      invariant r == dir + map p | p in links && p !in todo :: content
    {
      var p :| p in todo;
      assert p !in r;
      r := r[p := content];
      todo := todo - {p};
    }
  }

  /** Writes each property file, which must not exist. */
  method LinkProperties(dir: map<string, Bytes>, properties: map<string, Bytes>) returns (r: map<string, Bytes>)
    requires dir.Keys !! properties.Keys
    ensures r == dir + properties
  {
    r := dir;
    var todo := properties.Keys;
    while todo != {}
      invariant todo <= properties.Keys
      invariant r == dir + map p | p in properties && p !in todo :: properties[p]
    {
      var p :| p in todo;
      assert p !in r;
      r := r[p := properties[p]];
      todo := todo - {p};
    }
  }
}

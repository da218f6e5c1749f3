/**
 * Hints of any Recorder of a log, be it the latest or not, lead a player through it; and a player which takes over has
 * exactly the FSM and files of the history (pkg/recoverylog/playback.go).
 */
module Handoffs {
  import opened Common
  import opened Fsm
  import opened Hints
  import opened History
  import opened Playback
  import opened RoundTrip
  import opened Player
  import opened Annotations
  import opened Recorder
  import opened Recovery
  import opened RecorderWorld

  // ---------------------------------------------------------------------------
  // Hints of any earlier recorder lead through the log

  lemma RecordingIsRuns(r: Recording, id: nat)
    requires id != 0 && IsRecording(r, id)
    ensures AuthorsAreRuns(r.entries) && OffsetsAreOrdered(r.entries)
    ensures forall i :: 0 <= i < |r.entries| ==> WritesAreValid(r.entries[i].op) && IsRecordable(r.entries[i].op.body)
  {
    hide IsHistory, StateAt, OffsetsAreOrdered;
    assert forall i :: 0 <= i < |r.entries| ==> IsKnown(r.entries[i].op, id, r.writeHead);
  }

  lemma SameRuns(h: seq<Entry>, h': seq<Entry>)
    requires SameOps(h, h')
    ensures AuthorsAreRuns(h) ==> AuthorsAreRuns(h')
    ensures SingleAuthor(h) ==> SingleAuthor(h')
    ensures (forall i :: 0 <= i < |h| ==> IsRecordable(h[i].op.body)) ==>
              forall i :: 0 <= i < |h'| ==> IsRecordable(h'[i].op.body)
  {
    forall i | 0 <= i < |h| ensures h'[i].op.author == h[i].op.author && h'[i].op.body == h[i].op.body {
      assert SameEntry(h'[i], h[i]);
    }
    hide IsRecordable;
  }

  /** Who built the hints doesn't know where ops of an Author end, which goes on to record. */
  lemma OwnOpsAreUnread(s: Stored, h: seq<Entry>, i: nat, j: nat)
    requires StoredOk(s, h) && AuthorsAreRuns(h) && i < |s.r.entries| <= j < |h|
    requires s.r.entries[i].op.author == h[j].op.author && !s.r.entries[i].op.body.NoOp?
    ensures s.r.entries[i].op.lastOffset == 0
  {
    hide IsHistory, StateAt, OffsetsAreOrdered, AreHintsOf;
    var g := s.r.entries;
    assert SameEntry(g[i], h[i]) && SameEntry(g[|g| - 1], h[|g| - 1]);
    assert h[|g| - 1].op.author == h[i].op.author;
    assert IsKnown(g[i].op, s.id, s.r.writeHead);
  }

  lemma SinksOf(h: seq<Entry>, properties: map<string, Bytes>)
    requires forall i :: 0 <= i < |h| ==> IsRecordable(h[i].op.body)
    requires forall p :: p in properties ==> p in PropertyFiles
    ensures PropertiesAreSinks(h, properties)
  {
    forall k | 0 <= k < |h|
      ensures match h[k].op.body
              case Create(path) => path !in properties
              case Link(_, path) => path !in properties
              case _ => true
    {
      assert IsRecordable(h[k].op.body);
    }
  }

  lemma StoredIsOrdered(s: Stored, h: seq<Entry>)
    requires StoredOk(s, h)
    ensures OffsetsAreOrdered(s.r.entries) && IsEarlier(s.r.entries, h) && AreHintsOf(s.hints, s.r.fsm)
    ensures s.hints.log != "" && IsRecording(s.r, s.id) && forall p :: p in s.r.fsm.properties ==> p in PropertyFiles
  {
    hide OffsetsAreOrdered, IsEarlier, AreHintsOf, IsHistory, StateAt;
  }

  lemma StoredResumes(s: Stored, h: seq<Entry>)
    requires StoredOk(s, h) && AuthorsAreRuns(h) && OffsetsAreOrdered(h)
    ensures |s.r.entries| <= |h| && OffsetsAreOrdered(Resumed(s.r.entries, h))
  {
    StoredIsOrdered(s, h);
    EarlierIsShorter(s.r.entries, h);
    hide StoredOk, AuthorsAreRuns, OffsetsAreOrdered, IsEarlier, IsRecording, AreHintsOf;
    var g := s.r.entries;
    forall i, j | 0 <= i < |g| <= j < |h| && g[i].op.author == h[j].op.author && !g[i].op.body.NoOp?
      ensures g[i].op.lastOffset == 0
    {
      OwnOpsAreUnread(s, h, i, j);
    }
    ResumedIsOrdered(g, h);
  }

  lemma EarlierIsShorter(g: seq<Entry>, h: seq<Entry>)
    requires IsEarlier(g, h)
    ensures |g| <= |h|
  {
  }

  /** What is recorded can be hinted at any point, by any recorder of it. */
  lemma StoredIsHintable(s: Stored, r: Recording, id: nat)
    requires id != 0 && IsRecording(r, id) && StoredOk(s, r.entries)
    ensures var h, cut := Resumed(s.r.entries, r.entries), |s.r.entries|;
            && Hintable(h, cut) && AreHintsOf(s.hints, StateAt(h, cut)) && SameOps(r.entries, h)
            && (forall i :: 0 <= i < |h| ==> WritesAreValid(h[i].op))
            && (SingleAuthor(r.entries) ==> SingleAuthor(h))
  {
    hide IsHistory, StateAt, OffsetsAreOrdered, AreHintsOf, WritesAreValid, SameOps, IsEarlier, IsRecording, StoredOk;
    hide AuthorsAreRuns, SingleAuthor, IsRecordable, PropertiesAreSinks, Resumed;
    var g, cut := r.entries, |s.r.entries|;
    RecordingIsRuns(r, id);
    RecordingIsHistory(r, id);
    StoredIsOrdered(s, g);
    RecordingIsHistory(s.r, s.id);
    StoredResumes(s, g);
    var h := Resumed(s.r.entries, g);
    ResumedIsSame(s.r.entries, g);
    SameIsHistory(g, h);
    ReadIsValid(g, h);
    SameRuns(g, h);
    StateAtTake(h, cut, cut);
    SinksOf(h, s.r.fsm.properties);
  }

  lemma ResumedIsWoven(g: seq<Entry>, h: seq<Entry>, log: seq<LogEntry>, ours: seq<bool>)
    requires Woven(h, log, ours) && IsEarlier(g, h) && |g| == |h|
    ensures Woven(g, log, ours)
  {
    hide Count;
    forall i | 0 <= i < |log| ensures EntryWoven(g, log[i], ours[i], Count(ours[..i])) {
      var k := Count(ours[..i]);
      assert EntryWoven(h, log[i], ours[i], k);
      if ours[i] {
        assert SameEntry(g[k], h[k]);
      } else {
        forall n | k <= n < |g| ensures g[n].op.author != log[i].op.author {
          assert SameEntry(g[n], h[n]);
        }
      }
    }
  }

  lemma SameBranches(h: seq<Entry>, h': seq<Entry>, log: seq<LogEntry>, ours: seq<bool>, last: int)
    requires IsHistory(h) && OffsetsAreOrdered(h) && SameOps(h, h') && BranchesAreHinted(h, log, ours, last)
    ensures BranchesAreHinted(h', log, ours, last)
  {
    hide IsHistory, StateAt, OffsetsAreOrdered, Count;
    forall i | 0 <= i < |log| && i < |ours| && !ours[i] && IsBranch(h', log[i], Count(ours[..i]))
      ensures Count(ours[..i]) < last
    {
      SameFollows(h, h', Count(ours[..i]));
      assert IsBranch(h, log[i], Count(ours[..i]));
    }
  }

  lemma LastIsHinted(h: seq<Entry>, cut: nat, hints: FSMHints)
    requires Flatten(hints.liveNodes).Some?
    ensures CourseOf(h, cut, hints).Last() == LastHinted(hints)
  {
    hide Flatten;
  }

  /** The course of stored hints, which the log carries. */
  lemma StoredCourse(w: World, s: Stored)
    requires WorldOk(w) && w.id != 0 && StoredOk(s, w.r.entries) && CanFollow(w, s)
    ensures Flatten(s.hints.liveNodes).Some?
    ensures var h := Resumed(s.r.entries, w.r.entries);
            var c := CourseOf(h, |s.r.entries|, s.hints);
            && GapsAreHarmless(c) && Woven(h, w.log, w.ours) && BranchesAreHinted(h, w.log, w.ours, c.Last())
            && Carries(c, 0, w.log)
  {
    hide IsHistory, StateAt, OffsetsAreOrdered, AreHintsOf, WritesAreValid, SameOps, Flatten, IsRecording, InSync;
    hide AuthorsAreRuns, PropertiesAreSinks, GapsAreHarmless, Woven, BranchesAreHinted, Carries, SingleAuthor;
    hide ArePlaced;
    hide OffsetsAreLengths, NoneForeign, HintsHold, Directory, DirectoryAt, IsEarlier, SameState;
    var h, cut := Resumed(s.r.entries, w.r.entries), |s.r.entries|;
    StoredIsHintable(s, w.r, w.id);
    HintsHoldCourse(h, cut, s.hints);
    if SingleAuthor(w.r.entries) {
      HintableHints(h, cut, s.hints);
    }
    ResumedIsSame(s.r.entries, w.r.entries);
    ResumedIsWoven(h, w.r.entries, w.log, w.ours);
    RecordingIsRuns(w.r, w.id);
    RecordingIsHistory(w.r, w.id);
    SameBranches(w.r.entries, h, w.log, w.ours, LastHinted(s.hints));
    LastIsHinted(h, cut, s.hints);
    assert w.ours[..0] == [] && w.log[0..] == w.log;
    WovenCarries(CourseOf(h, cut, s.hints), w.log, w.ours, 0);
  }

  lemma RecordingIsHistory(r: Recording, id: nat)
    requires IsRecording(r, id)
    ensures IsHistory(r.entries) && r.fsm == StateAt(r.entries, |r.entries|) && r.writeHead >= 0
  {
    hide IsHistory, StateAt;
  }

  lemma HintableHints(h: seq<Entry>, cut: nat, hints: FSMHints)
    requires Hintable(h, cut) && SingleAuthor(h) && AreHintsOf(hints, StateAt(h, cut))
    ensures Flatten(hints.liveNodes).Some?
    ensures var c := CourseOf(h, cut, hints); GapsAreHarmless(c)
  {
    hide StateAt, IsHistory, AuthorsAreRuns, OffsetsAreOrdered, AreHintsOf, SingleAuthor, GapsAreHarmless, NoGap;
    hide Flatten, HintsHold;
    HintsHoldCourse(h, cut, hints);
    SingleAuthorLeavesNoGap(h, cut, hints);
    NoGapOfHints(h, cut, hints);
  }

  /** Playback recovers the observed file system. */
  ghost predicate RecoversAll(w: World, s: Stored) {
    var r := Replay(w, s);
    && IsFileSystem(w.fs)
    && r.Some? && FilesMatch(r.value) && !HasRemainingHints(r.value.fsm)
    && (forall p :: p in r.value.fsm.links ==> r.value.fsm.links[p] in r.value.files)
    && Directory(r.value) == Contents(w.fs)
  }

  lemma StoredRecovers(w: World, s: Stored)
    requires WorldOk(w) && w.id != 0 && StoredOk(s, w.r.entries) && CanFollow(w, s)
    ensures RecoversAll(w, s)
    ensures SameState(Replay(w, s).value.fsm, StateAt(w.r.entries, |w.r.entries|))
  {
    hide IsHistory, StateAt, OffsetsAreOrdered, AreHintsOf, WritesAreValid, SameOps, Flatten, IsRecording, PlayLog;
    hide AuthorsAreRuns, PropertiesAreSinks, GapsAreHarmless, Woven, BranchesAreHinted, Carries, SingleAuthor;
    hide ArePlaced;
    hide OffsetsAreLengths, NoneForeign, HintsHold, Directory, DirectoryAt, IsEarlier, SameState, InitialState;
    hide Recorded;
    var h, cut := Resumed(s.r.entries, w.r.entries), |s.r.entries|;
    StoredIsHintable(s, w.r, w.id);
    StoredCourse(w, s);
    FilesRoundTrip(h, cut, s.hints, w.log);
    RecordingIsRuns(w.r, w.id);
    RecordingIsHistory(w.r, w.id);
    SameHistory(w.r.entries, h);
    SyncedDirectory(w.r, w.id, w.fs);
    SameStateTransitive(Replay(w, s).value.fsm, StateAt(h, |h|), StateAt(w.r.entries, |h|));
  }

  lemma SameStateTransitive(a: State, b: State, c: State)
    requires SameState(a, b) && SameState(b, c)
    ensures SameState(a, c)
  {
    forall f | f in a.liveNodes ensures SameNode(a.liveNodes[f], c.liveNodes[f]) {
      assert SameNode(a.liveNodes[f], b.liveNodes[f]) && SameNode(b.liveNodes[f], c.liveNodes[f]);
      forall i | 0 <= i < |a.liveNodes[f].segments|
        ensures SameSegment(a.liveNodes[f].segments[i], c.liveNodes[f].segments[i])
      {
        assert SameSegment(a.liveNodes[f].segments[i], b.liveNodes[f].segments[i]);
        assert SameSegment(b.liveNodes[f].segments[i], c.liveNodes[f].segments[i]);
      }
    }
  }

  // ---------------------------------------------------------------------------
  // What a player knows of the history

  lemma WovenInit(h: seq<Entry>, log: seq<LogEntry>, ours: seq<bool>)
    requires Woven(h, log, ours) && log != []
    ensures var n := |log| - 1;
            var m := Count(ours[..n]);
            m <= |h| && Woven(h[..m], log[..n], ours[..n]) && |h| == m + if ours[n] then 1 else 0
  {
    hide Records;
    var n := |log| - 1;
    var m := Count(ours[..n]);
    forall i | 0 <= i < n ensures EntryWoven(h[..m], log[..n][i], ours[..n][i], Count(ours[..n][..i])) {
      assert ours[..n][..i] == ours[..i];
      assert EntryWoven(h, log[i], ours[i], Count(ours[..i]));
      CountIsMonotone(ours, i, n);
    }
  }

  lemma {:induction false} CountIsMonotone(ours: seq<bool>, i: nat, n: nat)
    requires i <= n <= |ours|
    ensures Count(ours[..i]) <= Count(ours[..n]) && (i < n && ours[i] ==> Count(ours[..i]) < Count(ours[..n]))
    decreases n - i
  {
    if i < n {
      CountStep(ours, i);
      CountIsMonotone(ours, i + 1, n);
    }
  }

  /** The player knows all ops of the history, and more of each than the recorder. */
  lemma {:induction false} ReadIsLater(h: seq<Entry>, log: seq<LogEntry>, ours: seq<bool>)
    requires Woven(h, log, ours) && forall i :: 0 <= i < |log| ==> log[i].begin == log[i].op.firstOffset
    ensures IsEarlier(h, ReadHistory(log, ours)) && |h| == |ReadHistory(log, ours)|
    decreases |log|
  {
    hide Woven;
    if log == [] {
      NoneIsWoven(h, log, ours);
    } else {
      WovenLast(h, log, ours);
      WovenInit(h, log, ours);
      var n := |log| - 1;
      var m := Count(ours[..n]);
      ReadIsLater(h[..m], log[..n], ours[..n]);
      ReadUnfolds(log, ours);
      hide IsEarlier, ReadHistory, Count;
      if ours[n] {
        assert h == h[..m] + [h[m]];
        EarlierSnoc(h[..m], ReadHistory(log[..n], ours[..n]), h[m], Entry(log[n].op, log[n].frame, log[n].data));
      } else {
        assert h == h[..m];
        assert ReadHistory(log[..n], ours[..n]) + [] == ReadHistory(log[..n], ours[..n]);
      }
    }
  }

  lemma EarlierSnoc(g: seq<Entry>, h: seq<Entry>, x: Entry, y: Entry)
    requires IsEarlier(g, h) && |g| == |h| && SameEntry(x, y) && x.op.firstOffset <= y.op.firstOffset
    ensures IsEarlier(g + [x], h + [y])
  {
  }

  lemma NoneIsWoven(h: seq<Entry>, log: seq<LogEntry>, ours: seq<bool>)
    requires Woven(h, log, ours) && log == []
    ensures h == [] && ours == []
  {
  }

  lemma WovenLast(h: seq<Entry>, log: seq<LogEntry>, ours: seq<bool>)
    requires Woven(h, log, ours) && log != []
    ensures |ours| == |log| && EntryWoven(h, log[|log| - 1], ours[|log| - 1], Count(ours[..|log| - 1]))
  {
  }

  /** The history as a player knows it has the ops of the log. */
  lemma {:induction false} ReadAt(log: seq<LogEntry>, ours: seq<bool>, i: nat)
    requires |log| == |ours| && i < |log| && ours[i]
    ensures Count(ours[..i]) < |ReadHistory(log, ours)|
    ensures ReadHistory(log, ours)[Count(ours[..i])] == Entry(log[i].op, log[i].frame, log[i].data)
    decreases |log|
  {
    var n := |log| - 1;
    if i < n {
      ReadAt(log[..n], ours[..n], i);
      assert ours[..n][..i] == ours[..i];
    }
  }

  /** What the player has read has increasing offsets, all known. */
  lemma {:induction false} ReadIsOrdered(log: seq<LogEntry>, ours: seq<bool>, end: int)
    requires |log| == |ours| && ArePlaced(log, end)
    ensures OffsetsAreOrdered(ReadHistory(log, ours))
    ensures forall k :: 0 <= k < |ReadHistory(log, ours)| ==> IsRead(ReadHistory(log, ours)[k].op, end)
    decreases |log|
  {
    if log != [] {
      var n := |log| - 1;
      var init := ReadHistory(log[..n], ours[..n]);
      assert IsPlaced(log[n], end);
      assert ArePlaced(log[..n], log[n].begin) by {
        forall i | 0 <= i < n ensures IsPlaced(log[..n][i], log[n].begin) {
          assert IsPlaced(log[i], end);
        }
      }
      ReadIsOrdered(log[..n], ours[..n], log[n].begin);
      hide ReadHistory, ArePlaced, Count;
      ReadSnoc(init, log[n].op, log[n].begin, end);
      ReadUnfolds(log, ours);
      assert init + [] == init;
      if ours[n] {
        OrderedSnoc(init, Entry(log[n].op, log[n].frame, log[n].data), log[n].begin);
      }
    }
  }

  lemma ReadUnfolds(log: seq<LogEntry>, ours: seq<bool>)
    requires |log| == |ours| && log != []
    ensures var n := |log| - 1;
            ReadHistory(log, ours) ==
            ReadHistory(log[..n], ours[..n]) + if ours[n] then [Entry(log[n].op, log[n].frame, log[n].data)] else []
  {
  }

  predicate IsRead(op: RecordedOp, end: int) {
    0 <= op.firstOffset < op.lastOffset <= end
  }

  lemma ReadSnoc(h: seq<Entry>, op: RecordedOp, begin: int, end: int)
    requires forall k :: 0 <= k < |h| ==> IsRead(h[k].op, begin)
    requires op.firstOffset == begin && IsRead(op, end)
    ensures forall k :: 0 <= k < |h| ==> IsRead(h[k].op, end)
  {
    forall k | 0 <= k < |h| ensures IsRead(h[k].op, end) {
      assert IsRead(h[k].op, begin);
    }
  }

  lemma OrderedSnoc(h: seq<Entry>, x: Entry, begin: int)
    requires OffsetsAreOrdered(h) && (forall k :: 0 <= k < |h| ==> IsRead(h[k].op, begin))
    requires x.op.firstOffset == begin >= 0 && begin < x.op.lastOffset
    ensures OffsetsAreOrdered(h + [x])
  {
    var n := h + [x];
    forall i | 0 <= i < |n| ensures ValidOffsets(n[i].op) {
    }
    forall i, j | 0 <= i <= j < |n| ensures OffsetsOrdered(n[i].op, n[j].op) {
      assert j < |h| ==> OffsetsOrdered(h[i].op, h[j].op);
      assert i < |h| ==> IsRead(h[i].op, begin);
    }
  }

  /** The player tracks the offsets which it has read. */
  lemma {:induction false} PlayedIsRead(c: Course, log: seq<LogEntry>, ours: seq<bool>, i: nat, p: State)
    requires IsCourse(c) && Woven(c.h, log, ours) && BranchesAreHinted(c.h, log, ours, c.Last())
    requires i <= |log| && Count(ours[..i]) <= |c.h| && Follows(c, Count(ours[..i]), p)
    requires Agrees(ReadHistory(log, ours), p)
    ensures Agrees(ReadHistory(log, ours), Play(p, log[i..]))
    decreases |log| - i
  {
    hide IsCourse, Follows, Agrees, ReadHistory, IsBranch, Records, Noise, PlayOne, StateAt, Course.Last;
    if i < |log| {
      var k, e := Count(ours[..i]), log[i];
      CountStep(ours, i);
      assert EntryWoven(c.h, e, ours[i], k);
      assert log[i..][0] == e && log[i..][1..] == log[i + 1..];
      if ours[i] {
        FollowRecord(c, k, p, e);
        ReadAt(log, ours, i);
        RecordAgrees(c, k, p, e, ReadHistory(log, ours));
        PlayedIsRead(c, log, ours, i + 1, PlayOne(p, e));
      } else {
        ForeignIsNoise(c, k, e);
        FollowNoise(c, k, p, e);
        PlayedIsRead(c, log, ours, i + 1, p);
      }
    }
  }

  lemma RecordAgrees(c: Course, k: nat, p: State, e: LogEntry, h: seq<Entry>)
    requires IsCourse(c) && k < |c.h| && Follows(c, k, p) && Records(e, c.h[k])
    requires Agrees(h, p) && k < |h| && h[k].op == e.op
    ensures Agrees(h, PlayOne(p, e))
  {
    hide IsHistory, StateAt, Agrees, PlayOne, OffsetsAreOrdered, HintsHold, GapsAreHarmless, PropertiesAreSinks;
    StateAtIsValid(c.h, k);
    FollowsInvariant(c, k, p);
    hide Follows, Invariant;
    PlayedAgrees(h, p, e);
  }

  lemma StartAgrees(h: seq<Entry>, c: Course)
    requires c.cut <= |c.h|
    ensures Agrees(h, Start(c))
  {
    hide StateAt;
  }

  // ---------------------------------------------------------------------------
  // A hand-off

  /** The history as a player knows it, who has read the log. */
  ghost predicate IsReadOf(w: World, h: seq<Entry>) {
    && IsHistory(h) && AuthorsAreRuns(h) && OffsetsAreOrdered(h) && IsEarlier(w.r.entries, h) && |h| == |w.r.entries|
    && SameOps(w.r.entries, h) && Woven(h, w.log, w.ours)
    && (forall k :: 0 <= k < |h| ==> WritesAreValid(h[k].op) && IsRecordable(h[k].op.body) && IsRead(h[k].op, w.end))
  }

  lemma ReadMeaning(w: World)
    requires WorldOk(w) && w.id != 0
    ensures |w.log| == |w.ours| && IsReadOf(w, ReadHistory(w.log, w.ours))
  {
    hide IsHistory, StateAt, OffsetsAreOrdered, InSync, IsRecording, StoredOk, Woven, ReadHistory, WritesAreValid;
    hide SameOps, IsEarlier, AuthorsAreRuns, IsRecordable, Records, OffsetsAreLengths;
    PlacedBegins(w.log, w.end);
    WovenLength(w.r.entries, w.log, w.ours);
    var g, h := w.r.entries, ReadHistory(w.log, w.ours);
    ReadIsLater(g, w.log, w.ours);
    ReadIsOrdered(w.log, w.ours, w.end);
    RecordingIsRuns(w.r, w.id);
    RecordingIsHistory(w.r, w.id);
    EarlierIsSame(g, h);
    SameIsHistory(g, h);
    ReadIsValid(g, h);
    SameRuns(g, h);
    ReadIsWoven(g, w.log, w.ours, w.end);
  }

  lemma WovenLength(h: seq<Entry>, log: seq<LogEntry>, ours: seq<bool>)
    requires Woven(h, log, ours)
    ensures |log| == |ours| && Count(ours) == |h|
  {
  }

  lemma PlacedBegins(log: seq<LogEntry>, end: int)
    requires ArePlaced(log, end)
    ensures end >= 0 && forall i :: 0 <= i < |log| ==> log[i].begin == log[i].op.firstOffset
  {
    forall i | 0 <= i < |log| ensures log[i].begin == log[i].op.firstOffset {
      assert IsPlaced(log[i], end);
    }
  }

  lemma EarlierIsSame(g: seq<Entry>, h: seq<Entry>)
    requires IsEarlier(g, h) && |g| == |h|
    ensures SameOps(g, h)
  {
    forall i | 0 <= i < |g| ensures SameEntry(h[i], g[i]) {
      assert SameEntry(g[i], h[i]);
    }
  }

  lemma ReadIsWoven(g: seq<Entry>, log: seq<LogEntry>, ours: seq<bool>, end: int)
    requires Woven(g, log, ours) && ArePlaced(log, end) && SameOps(g, ReadHistory(log, ours))
    ensures Woven(ReadHistory(log, ours), log, ours)
  {
    hide ReadHistory;
    var h := ReadHistory(log, ours);
    forall i | 0 <= i < |log| ensures EntryWoven(h, log[i], ours[i], Count(ours[..i])) {
      var k := Count(ours[..i]);
      assert EntryWoven(g, log[i], ours[i], k);
      if ours[i] {
        ReadAt(log, ours, i);
        assert IsPlaced(log[i], end);
      } else {
        forall n | k <= n < |h| ensures h[n].op.author != log[i].op.author {
          assert SameEntry(h[n], g[n]);
        }
      }
    }
  }

  /** The player's FSM is exactly that of the history as it knows it. */
  lemma ReplayIsExact(w: World, s: Stored)
    requires WorldOk(w) && w.id != 0 && StoredOk(s, w.r.entries) && CanFollow(w, s)
    ensures RecoversAll(w, s) && |w.log| == |w.ours|
    ensures var h := ReadHistory(w.log, w.ours); Replay(w, s).value.fsm == StateAt(h, |h|)
  {
    hide IsHistory, StateAt, OffsetsAreOrdered, AreHintsOf, WritesAreValid, SameOps, Flatten, IsRecording, PlayLog;
    hide AuthorsAreRuns, PropertiesAreSinks, GapsAreHarmless, Woven, BranchesAreHinted, Carries, SingleAuthor;
    hide ArePlaced;
    hide OffsetsAreLengths, NoneForeign, HintsHold, IsEarlier, SameState, ReadHistory, InSync, StoredOk, CanFollow;
    hide RecoversAll, Agrees, Follows, Resumed;
    StoredRecovers(w, s);
    ReadMeaning(w);
    StoredIsHintable(s, w.r, w.id);
    StoredCourse(w, s);
    var g, h := ReadHistory(w.log, w.ours), Resumed(s.r.entries, w.r.entries);
    var c := CourseOf(h, |s.r.entries|, s.hints);
    HintsHoldCourse(h, |s.r.entries|, s.hints);
    StartFollows(c);
    StartAgrees(g, c);
    assert w.ours[..0] == [] && w.log[0..] == w.log;
    PlayedIsRead(c, w.log, w.ours, 0, Start(c));
    ReplayIsPlay(w, s);
    assert InitialState(s.hints) == Some(Start(c)) by { StoredStarts(s, h); }
    RecordingIsHistory(w.r, w.id);
    RecordingIsRuns(w.r, w.id);
    SameHistory(w.r.entries, g);
    SameStateSymmetric(StateAt(g, |g|), StateAt(w.r.entries, |g|));
    SameStateTransitive(Replay(w, s).value.fsm, StateAt(w.r.entries, |g|), StateAt(g, |g|));
    AgreesIsExact(g, Replay(w, s).value.fsm);
  }

  lemma StoredStarts(s: Stored, h: seq<Entry>)
    requires |s.r.entries| <= |h| && AreHintsOf(s.hints, StateAt(h, |s.r.entries|)) && s.hints.log != ""
    requires Flatten(s.hints.liveNodes).Some?
    ensures InitialState(s.hints) == Some(Start(CourseOf(h, |s.r.entries|, s.hints)))
  {
    hide StateAt, Flatten;
  }

  lemma ReplayIsPlay(w: World, s: Stored)
    requires RecoversAll(w, s)
    ensures InitialState(s.hints).Some? && Replay(w, s).Some?
    ensures Replay(w, s).value.fsm == Play(InitialState(s.hints).value, w.log)
  {
    hide InitialState, Directory, PlayLog, FilesMatch;
    PlayLogIsPlay(Playing(InitialState(s.hints).value, map[]), w.log);
  }

  lemma SameStateSymmetric(a: State, b: State)
    requires SameState(a, b)
    ensures SameState(b, a)
  {
    forall f | f in b.liveNodes ensures SameNode(b.liveNodes[f], a.liveNodes[f]) {
      assert SameNode(a.liveNodes[f], b.liveNodes[f]);
      forall i | 0 <= i < |b.liveNodes[f].segments|
        ensures SameSegment(b.liveNodes[f].segments[i], a.liveNodes[f].segments[i])
      {
        assert SameSegment(a.liveNodes[f].segments[i], b.liveNodes[f].segments[i]);
      }
    }
  }

  /** The history with the no-op, as the new Author knows it. */
  lemma TakenOverRecords(w: World, marshal: Marshal, author: nat, ps: Playing)
    requires WorldOk(w) && IsNew(w, author) && |w.log| == |w.ours| && !HasRemainingHints(ps.fsm)
    requires var h := ReadHistory(w.log, w.ours); ps.fsm == StateAt(h, |h|)
    ensures var n := TakenOver(w, marshal, author, ps);
            && IsRecording(n.r, author) && IsEarlier(w.r.entries, n.r.entries)
            && ArePlaced(n.log, n.end) && Woven(n.r.entries, n.log, n.ours) && NoneForeign(n.log, n.ours, author)
            && n.r.fsm.links == ps.fsm.links && n.r.fsm.properties == ps.fsm.properties
            && n.r.fsm.nextSeqNo == ps.fsm.nextSeqNo + 1
  {
    hide IsHistory, StateAt, OffsetsAreOrdered, InSync, StoredOk, Woven, ReadHistory, WritesAreValid, Apply;
    hide SameOps, IsEarlier, AuthorsAreRuns, IsRecordable, OffsetsAreLengths, ArePlaced, AuthorsLeadTo;
    ReadMeaning(w);
    var h, e := ReadHistory(w.log, w.ours), TakeOver(ps.fsm, author, marshal, w.end);
    var x, n := Entry(e.op, e.frame, e.data), TakenOver(w, marshal, author, ps);
    NoOpApplies(ps.fsm, e.op, e.frame);
    HistoryExtends(h, x);
    EndIsPlaced(w.log, w.end);
    PlacedSnoc(w.log, w.end, e, n.end);
    WeaveOurs(h, w.log, w.ours, x, e);
    EarlierGrows(w.r.entries, h, x);
    OrderedSnoc(h, x, w.end);
    NoneIsNew(w, h, author);
    NewAuthorLeads(h, x);
    forall i | 0 <= i < |h + [x]| ensures IsKnown((h + [x])[i].op, author, n.r.writeHead) {
      assert i < |h| ==> IsRead(h[i].op, w.end) && IsRecordable(h[i].op.body);
      NoOpIsRecordable();
    }
  }

  lemma NoOpIsRecordable()
    ensures IsRecordable(NoOp)
  {
  }

  lemma NoOpApplies(m: State, op: RecordedOp, frame: Bytes)
    requires !HasRemainingHints(m) && op.body == NoOp && op.seqNo == m.nextSeqNo && op.checksum == m.nextChecksum
    ensures Apply(m, op, frame) ==
            (m.(nextSeqNo := m.nextSeqNo + 1, nextChecksum := Update(m.nextChecksum, frame)), NoError)
  {
  }

  lemma EarlierGrows(g: seq<Entry>, h: seq<Entry>, x: Entry)
    requires IsEarlier(g, h)
    ensures IsEarlier(g, h + [x])
  {
  }

  /** The new Author is that of no op of the history, and neither is zero. */
  lemma NoneIsNew(w: World, h: seq<Entry>, author: nat)
    requires IsNew(w, author) && |w.log| == |w.ours| && h == ReadHistory(w.log, w.ours) && AuthorsAreRuns(h)
    ensures forall k :: 0 <= k < |h| ==> h[k].op.author != author && h[k].op.author != 0
  {
    hide ReadHistory;
    forall k | 0 <= k < |h| ensures h[k].op.author != author && h[k].op.author != 0 {
      var i := ReadFrom(w.log, w.ours, k);
    }
  }

  lemma {:induction false} ReadFrom(log: seq<LogEntry>, ours: seq<bool>, k: nat) returns (i: nat)
    requires |log| == |ours| && k < |ReadHistory(log, ours)|
    ensures i < |log| && ReadHistory(log, ours)[k].op == log[i].op
    decreases |log|
  {
    var n := |log| - 1;
    if k < |ReadHistory(log[..n], ours[..n])| {
      i := ReadFrom(log[..n], ours[..n], k);
    } else {
      i := n;
    }
  }

  lemma NewAuthorLeads(h: seq<Entry>, x: Entry)
    requires AuthorsAreRuns(h) && forall k :: 0 <= k < |h| ==> h[k].op.author != x.op.author
    ensures AuthorsLeadTo(h + [x], x.op.author)
  {
  }

  /** Links of the player are to files, and properties are apart from them. */
  ghost predicate IsTidy(ps: Playing) {
    && (forall p :: p in ps.fsm.links ==> p !in PropertyFiles && ps.fsm.links[p] in ps.files)
    && (forall p :: p in ps.fsm.properties ==> p in PropertyFiles)
    && (forall f :: f in ps.files ==> f != PropertyInode)
  }

  lemma RecoveredPath(ps: Playing, p: string)
    requires IsTidy(ps)
    ensures var fs := RecoveredFs(ps);
            && (p in fs.paths <==> p in ps.fsm.links || p in ps.fsm.properties)
            && (p in ps.fsm.links ==>
                  && fs.paths[p] == ps.fsm.links[p] && fs.paths[p] in fs.inodes
                  && fs.inodes[fs.paths[p]] == ps.files[ps.fsm.links[p]])
            && (p in ps.fsm.properties ==>
                  && fs.paths[p] == PropertyInode && fs.paths[p] in fs.inodes
                  && fs.inodes[fs.paths[p]] == ps.fsm.properties[p])
  {
  }

  /** Playback leaves the directory which it says it does. */
  lemma RecoveredContents(ps: Playing)
    requires IsTidy(ps)
    ensures IsFileSystem(RecoveredFs(ps)) && Contents(RecoveredFs(ps)) == Directory(ps)
  {
    var fs := RecoveredFs(ps);
    forall p ensures p in fs.paths <==> p in Directory(ps) {
      RecoveredPath(ps, p);
    }
    forall p | p in fs.paths ensures fs.paths[p] in fs.inodes && fs.inodes[fs.paths[p]] == Directory(ps)[p] {
      RecoveredPath(ps, p);
    }
    hide RecoveredFs, Directory;
    assert Contents(fs) == Directory(ps);
  }

  /** After playback, the recording is in sync with the directory which playback leaves. */
  lemma RecoveredIsSynced(r: Recording, ps: Playing)
    requires IsTidy(ps) && r.fsm.links == ps.fsm.links && r.fsm.properties == ps.fsm.properties
    requires r.fsm.nextSeqNo > 0 && forall f :: f in ps.files ==> f < r.fsm.nextSeqNo
    requires forall p :: p in ps.fsm.links ==>
               ps.fsm.links[p] in Recorded(r) && Recorded(r)[ps.fsm.links[p]] == ps.files[ps.fsm.links[p]]
    ensures InSync(r, RecoveredFs(ps)) && OffsetsAreLengths(RecoveredFs(ps), Lengths(RecoveredFs(ps)))
  {
    RecoveredContents(ps);
    RecoveredInodes(ps);
    hide Recorded, RecoveredFs, Directory;
    var fs := RecoveredFs(ps);
    forall p
      ensures p in ps.fsm.links <==> p in fs.paths && p !in PropertyFiles
      ensures p in ps.fsm.properties <==> p in fs.paths && p in PropertyFiles
      ensures p in ps.fsm.links ==> ps.fsm.links[p] == fs.paths[p] && fs.inodes[fs.paths[p]] == ps.files[fs.paths[p]]
      ensures p in ps.fsm.properties ==> ps.fsm.properties[p] == fs.inodes[fs.paths[p]]
    {
      RecoveredPath(ps, p);
    }
  }

  lemma RecoveredInodes(ps: Playing)
    ensures forall f :: f in RecoveredFs(ps).inodes ==> f in ps.files || f == PropertyInode
  {
  }

  /** Files which a player has are those that the history has written. */
  lemma ReplayedFiles(w: World, ps: Playing, h: seq<Entry>)
    requires IsReadOf(w, h) && ps.fsm == StateAt(h, |h|) && FilesMatch(ps)
    requires forall p :: p in ps.fsm.links ==> ps.fsm.links[p] in ps.files
    requires DirectoryAt(h, |h|) == Directory(ps)
    ensures forall p :: p in ps.fsm.links ==>
              ps.fsm.links[p] in FilesAt(h, |h|) && FilesAt(h, |h|)[ps.fsm.links[p]] == ps.files[ps.fsm.links[p]]
    ensures forall f :: f in ps.files ==> 0 < f <= |h|
  {
    hide StateAt, IsHistory, FilesAt, OffsetsAreOrdered, AuthorsAreRuns, IsEarlier, SameOps, Woven;
    StateAtIsValid(h, |h|);
    FilesAtMatch(h, |h|);
    forall p | p in ps.fsm.links
      ensures ps.fsm.links[p] in FilesAt(h, |h|) && FilesAt(h, |h|)[ps.fsm.links[p]] == ps.files[ps.fsm.links[p]]
    {
      assert Directory(ps)[p] == DirectoryAt(h, |h|)[p];
    }
    forall f | f in ps.files ensures 0 < f <= |h| {
      LiveBefore(h, |h|, |h|, f);
    }
  }

  /** A no-op doesn't change files. */
  lemma NoOpKeepsFiles(h: seq<Entry>, x: Entry)
    requires x.op.body == NoOp
    ensures FilesAt(h + [x], |h| + 1) == FilesAt(h, |h|)
  {
    hide Apply;
    FilesAtPrefix(h, x, |h|);
  }

  lemma StoredReplays(w: World, n: nat)
    requires WorldOk(w) && w.id != 0 && n < |w.stored| && CanFollow(w, w.stored[n])
    ensures Replay(w, w.stored[n]).Some? && !HasRemainingHints(Replay(w, w.stored[n]).value.fsm) && |w.log| == |w.ours|
  {
    hide StoredOk, CanFollow, Replay, Directory, FilesMatch, ArePlaced, StateAt, ReadHistory, Synced, OffsetsAreLengths;
    ReplayIsExact(w, w.stored[n]);
  }

  lemma HandoffKeeps(w: World, marshal: Marshal, author: nat, n: nat)
    requires WorldOk(w) && Next(w, marshal, Handoff(author, n)).Some?
    ensures var w' := Next(w, marshal, Handoff(author, n)).value;
            && WorldOk(w') && IsEarlier(w.r.entries, w'.r.entries)
            && IsFileSystem(w.fs) && IsFileSystem(w'.fs) && Contents(w'.fs) == Contents(w.fs)
  {
    hide IsHistory, StateAt, OffsetsAreOrdered, WritesAreValid, SameOps, IsRecording, PlayLog, Replay, TakeOver;
    hide AuthorsAreRuns, Woven, ArePlaced, OffsetsAreLengths, NoneForeign, IsEarlier, ReadHistory, StoredOk;
    hide CanFollow, SameState, Directory, DirectoryAt, FilesAt, FilesMatch, Apply, RecoveredFs, Lengths;
    var s := w.stored[n];
    ReplayIsExact(w, s);
    StoredRecovers(w, s);
    ReadMeaning(w);
    var ps, h := Replay(w, s).value, ReadHistory(w.log, w.ours);
    var w' := TakenOver(w, marshal, author, ps);
    TakenOverRecords(w, marshal, author, ps);
    RecordingIsHistory(w.r, w.id);
    RecordingIsRuns(w.r, w.id);
    SameHistory(w.r.entries, h);
    SyncedDirectory(w.r, w.id, w.fs);
    ReplayedFiles(w, ps, h);
    TakeOverIsNoOp(ps.fsm, author, marshal, w.end);
    NoOpKeepsFiles(h, w'.r.entries[|h|]);
    SameLinksOf(ps.fsm, w.r.fsm);
    StateAtIsValid(h, |h|);
    RecoveredContents(ps);
    RecoveredIsSynced(w'.r, ps);
    forall k | 0 <= k < |w.stored| ensures StoredOk(w.stored[k], w'.r.entries) {
      StoredIsKept(w.stored[k], w.r.entries, w'.r.entries);
    }
  }

  lemma TakeOverIsNoOp(p: State, author: nat, marshal: Marshal, end: int)
    ensures TakeOver(p, author, marshal, end).op.body == NoOp
  {
  }

  lemma SameLinksOf(p: State, m: State)
    requires SameState(p, m)
    ensures p.links == m.links && p.properties == m.properties
  {
  }
}

/**
 * Pruning under older hints: a log which was pruned with the hints of an earlier time, and is then played with
 * those of a later one (cmd/gazctl/cmd/shard_prune_log.go).
 */
module LaterHints {
  import opened Common
  import opened Segments
  import opened Fsm
  import opened Hints
  import opened History
  import opened Playback
  import opened RoundTrip
  import opened Player
  import opened Pruning

  // ---------------------------------------------------------------------------
  // Exactly when the pruned log recovers

  /** A player which waits for the op after the first `k` takes the entry for it. */
  predicate Extends(c: Course, k: nat, e: LogEntry)
    requires k < |c.h|
  {
    && e.op.seqNo == k + 1 && e.op.checksum == c.h[k].op.checksum
    && (k + 1 <= c.Last() ==> e.op.author == c.h[k].op.author)
  }

  /** No op of the history is repeated in the log. */
  ghost predicate IsUnrepeated(c: Course, log: seq<LogEntry>) {
    forall i, j, k :: 0 <= i < j < |log| && 0 <= k < |c.h| && Records(log[i], c.h[k]) ==> !Extends(c, k, log[j])
  }

  /** If only ops are lost which are dead to later hints, these recover. */
  lemma DeadLossRecovers(h: seq<Entry>, cut: nat, hints: FSMHints, segs: seq<Segment>, fragments: seq<Fragment>,
                         log: seq<LogEntry>)
    requires Hintable(h, cut) && hints.log != "" && AreHintsOf(hints, StateAt(h, cut)) && segs != []
    requires forall i :: 0 <= i < |h| ==> WritesAreValid(h[i].op)
    requires Flatten(hints.liveNodes).Some? ==>
               var c := CourseOf(h, cut, hints);
               GapsAreHarmless(c) && Carries(c, 0, log) && LostAreDead(c, segs, fragments, log)
    ensures InitialState(hints).Some?
    ensures Recovers(h, hints, Kept(segs, fragments, log))
  {
    hide StateAt, IsHistory, AuthorsAreRuns, OffsetsAreOrdered, GapsAreHarmless, Carries, Flatten, PropertiesAreSinks;
    hide Kept, PlayLog, SameState, Directory, DirectoryAt, WritesAreValid, LostAreDead;
    HintsHoldCourse(h, cut, hints);
    var c := CourseOf(h, cut, hints);
    KeptCarries(c, segs, fragments, 0, log);
    FilesRoundTrip(h, cut, hints, Kept(segs, fragments, log));
  }

  /** The player waits for an op which is not dead. */
  lemma WaitsForNeeded(c: Course, k: nat, p: State)
    requires IsSegmentSet(c.segs) && k < |c.h| && InStep(c, k, p) && !IsDead(c, k)
    ensures p.nextSeqNo == k + 1
  {
    hide StateAt;
    if p.hintedSegments != [] {
      NextIsHinted(c, k, p);
    }
  }

  /** What doesn't extend the chain doesn't move a player which waits. */
  lemma WaitsThrough(c: Course, k: nat, p: State, e: LogEntry)
    requires IsCourse(c) && k < |c.h| && InStep(c, k, p) && p.nextSeqNo == k + 1 && !Extends(c, k, e)
    ensures PlayOne(p, e) == p
  {
    hide ApplyBody, Advance, StateAt, IsHistory, OffsetsAreOrdered, GapsAreHarmless, PropertiesAreSinks;
    StateAtIsValid(c.h, k);
    if p.hintedSegments != [] {
      NextIsHinted(c, k, p);
      assert p.hintedSegments[0] == c.segs[|c.segs| - |p.hintedSegments|];
      assert Faithful(c.h, p.hintedSegments[0]);
    }
  }

  lemma {:induction false} Waits(c: Course, k: nat, p: State, segs: seq<Segment>, fragments: seq<Fragment>,
                                 log: seq<LogEntry>)
    requires IsCourse(c) && k < |c.h| && InStep(c, k, p) && p.nextSeqNo == k + 1 && segs != []
    requires forall i :: 0 <= i < |log| ==> !Extends(c, k, log[i])
    ensures Play(p, Kept(segs, fragments, log)) == p
  {
    hide IsLost, IsCourse, InStep, Extends, PlayOne;
    if log != [] {
      WaitsThrough(c, k, p, log[0]);
      var rest := Kept(segs, fragments, log[1..]);
      Waits(c, k, p, segs, fragments, log[1..]);
      assert ([log[0]] + rest)[1..] == rest;
    }
  }

  /** The log records each op which isn't dead. */
  lemma {:induction false} NeededIsRecorded(c: Course, j: nat, log: seq<LogEntry>, k: nat) returns (i: nat)
    requires j <= k < |c.h| && Carries(c, j, log) && !IsDead(c, k)
    ensures i < |log| && Records(log[i], c.h[k])
    decreases |log| + |c.h| - j
  {
    hide IsDead, Records, Noise;
    if IsDead(c, j) && Carries(c, j + 1, log) {
      i := NeededIsRecorded(c, j + 1, log, k);
    } else if Records(log[0], c.h[j]) && Carries(c, j + 1, log[1..]) {
      if j == k {
        return 0;
      }
      i := NeededIsRecorded(c, j + 1, log[1..], k);
      i := i + 1;
    } else {
      i := NeededIsRecorded(c, j, log[1..], k);
      i := i + 1;
    }
  }

  lemma RecordExtends(c: Course, k: nat, e: LogEntry)
    requires IsHistory(c.h) && k < |c.h| && Records(e, c.h[k])
    ensures Extends(c, k, e)
  {
    hide IsHistory, StateAt;
    StateAtIsValid(c.h, k);
  }

  lemma UnrepeatedRest(c: Course, log: seq<LogEntry>, k: nat)
    requires IsUnrepeated(c, log) && log != [] && k < |c.h|
    ensures IsUnrepeated(c, log[1..])
    ensures Records(log[0], c.h[k]) ==> forall i :: 0 <= i < |log[1..]| ==> !Extends(c, k, log[1..][i])
  {
    hide Records, Extends;
    assert forall i :: 0 <= i < |log| - 1 ==> log[1..][i] == log[i + 1];
  }

  /** A player which misses an op that isn't dead never gets past it. */
  lemma {:induction false} NeededLossStops(c: Course, j: nat, p: State, segs: seq<Segment>, fragments: seq<Fragment>,
                                           log: seq<LogEntry>, i: nat, k: nat)
    requires IsCourse(c) && segs != [] && j <= k < |c.h| && Follows(c, j, p)
    requires Carries(c, j, log) && IsUnrepeated(c, log)
    requires i < |log| && Records(log[i], c.h[k]) && IsLost(segs, fragments, log[i]) && !IsDead(c, k)
    ensures Play(p, Kept(segs, fragments, log)).nextSeqNo <= |c.h|
    decreases |log| + |c.h| - j
  {
    hide Apply, StateAt, IsHistory, Invariant, OffsetsAreOrdered, GapsAreHarmless, PropertiesAreSinks, AllFaithful;
    hide IsDead, IsLost, Records, PlayOne, Mirrors, FnodesRemain, InStep, Follows, Extends, IsUnrepeated, Noise;
    var rest := Kept(segs, fragments, log[1..]);
    UnrepeatedRest(c, log, j);
    RecordExtends(c, k, log[i]);
    assert ([log[0]] + rest)[1..] == rest;
    if IsDead(c, j) && Carries(c, j + 1, log) {
      FollowDead(c, j, p);
      NeededLossStops(c, j + 1, p, segs, fragments, log, i, k);
    } else if Records(log[0], c.h[j]) && Carries(c, j + 1, log[1..]) {
      if i == 0 {
        SameSeqNo(c.h, log[0], j, k);
      } else {
        assert j < k by { assert log[1..][i - 1] == log[i]; }
      }
      if !IsLost(segs, fragments, log[0]) {
        FollowRecord(c, j, p, log[0]);
        NeededLossStops(c, j + 1, PlayOne(p, log[0]), segs, fragments, log[1..], i - 1, k);
      } else if IsDead(c, j) {
        FollowDead(c, j, p);
        NeededLossStops(c, j + 1, p, segs, fragments, log[1..], i - 1, k);
      } else {
        FollowsInStep(c, j, p);
        WaitsForNeeded(c, j, p);
        Waits(c, j, p, segs, fragments, log[1..]);
      }
    } else {
      FollowNoise(c, j, p, log[0]);
      if i == 0 {
        RecordedOnce(c, j, log, k);
      }
      NeededLossStops(c, j, p, segs, fragments, log[1..], i - 1, k);
    }
  }

  lemma SameSeqNo(h: seq<Entry>, e: LogEntry, j: nat, k: nat)
    requires IsHistory(h) && j < |h| && k < |h| && Records(e, h[j]) && Records(e, h[k])
    ensures j == k
  {
    hide IsHistory, StateAt;
    StateAtIsValid(h, j);
    StateAtIsValid(h, k);
  }

  /** An entry which is skipped as noise isn't the only record of an op which is needed. */
  lemma RecordedOnce(c: Course, j: nat, log: seq<LogEntry>, k: nat)
    requires IsHistory(c.h) && j <= k < |c.h| && !IsDead(c, k) && IsUnrepeated(c, log)
    requires log != [] && Carries(c, j, log[1..])
    ensures !Records(log[0], c.h[k])
  {
    hide IsDead, Records, Noise, Extends, IsHistory, Carries, IsUnrepeated;
    var i := NeededIsRecorded(c, j, log[1..], k);
    RecordExtends(c, k, log[1..][i]);
    UnrepeatedRest(c, log, k);
  }

  lemma NeededLossFails(h: seq<Entry>, cut: nat, hints: FSMHints, segs: seq<Segment>, fragments: seq<Fragment>,
                        log: seq<LogEntry>, i: nat, k: nat)
    requires Hintable(h, cut) && hints.log != "" && AreHintsOf(hints, StateAt(h, cut)) && segs != []
    requires forall i :: 0 <= i < |h| ==> WritesAreValid(h[i].op)
    requires i < |log| && k < |h| && Records(log[i], h[k]) && IsLost(segs, fragments, log[i])
    requires Flatten(hints.liveNodes).Some? ==>
               var c := CourseOf(h, cut, hints);
               GapsAreHarmless(c) && Carries(c, 0, log) && IsUnrepeated(c, log) && !IsDead(c, k)
    ensures InitialState(hints).Some? && !Recovers(h, hints, Kept(segs, fragments, log))
  {
    hide StateAt, IsHistory, AuthorsAreRuns, OffsetsAreOrdered, GapsAreHarmless, Carries, Flatten, PropertiesAreSinks;
    hide Kept, PlayLog, Directory, DirectoryAt, IsDead, IsLost, HintsHold, Follows, Play, IsUnrepeated, Records;
    HintsHoldCourse(h, cut, hints);
    var c := CourseOf(h, cut, hints);
    assert InitialState(hints) == Some(Start(c));
    StartFollows(c);
    NeededLossStops(c, 0, Start(c), segs, fragments, log, i, k);
    PlayLogIsPlay(Playing(Start(c), map[]), Kept(segs, fragments, log));
    StateAtIsValid(h, |h|);
  }

  /**
   * A log which carries the history, no op of it repeated, is pruned under any segments. Then it is recovered by hints
   * exactly if every op which is lost is dead to these hints.
   */
  lemma LaterHintsRecoverIff(h: seq<Entry>, cut: nat, hints: FSMHints, segs: seq<Segment>, fragments: seq<Fragment>,
                             log: seq<LogEntry>)
    requires Hintable(h, cut) && hints.log != "" && AreHintsOf(hints, StateAt(h, cut)) && segs != []
    requires forall i :: 0 <= i < |h| ==> WritesAreValid(h[i].op)
    requires Flatten(hints.liveNodes).Some? ==>
               var c := CourseOf(h, cut, hints);
               GapsAreHarmless(c) && Carries(c, 0, log) && IsUnrepeated(c, log)
    ensures InitialState(hints).Some? && Flatten(hints.liveNodes).Some?
    ensures Recovers(h, hints, Kept(segs, fragments, log)) <==>
            LostAreDead(CourseOf(h, cut, hints), segs, fragments, log)
  {
    hide StateAt, IsHistory, AuthorsAreRuns, OffsetsAreOrdered, GapsAreHarmless, Carries, Flatten, PropertiesAreSinks;
    hide Kept, Recovers, IsDead, IsLost, HintsHold, WritesAreValid, Records, IsUnrepeated;
    HintsHoldCourse(h, cut, hints);
    var c := CourseOf(h, cut, hints);
    if LostAreDead(c, segs, fragments, log) {
      DeadLossRecovers(h, cut, hints, segs, fragments, log);
    } else {
      var i, k :| 0 <= i < |log| && 0 <= k < |h| && Records(log[i], h[k]) && IsLost(segs, fragments, log[i])
                  && !IsDead(c, k);
      NeededLossFails(h, cut, hints, segs, fragments, log, i, k);
    }
  }

  // ---------------------------------------------------------------------------
  // A log of nothing but the history

  ghost predicate IsLogOf(h: seq<Entry>, log: seq<LogEntry>) {
    |log| == |h| && forall i :: 0 <= i < |h| ==> Records(log[i], h[i])
  }

  lemma {:induction false} HistoryCarries(c: Course, k: nat, log: seq<LogEntry>)
    requires k <= |c.h| && IsLogOf(c.h, log)
    ensures Carries(c, k, log[k..])
    decreases |c.h| - k
  {
    hide Records, IsDead, Noise;
    if k < |c.h| {
      HistoryCarries(c, k + 1, log);
      assert log[k..][0] == log[k] && log[k..][1..] == log[k + 1..];
    }
  }

  lemma HistoryIsUnrepeated(c: Course, log: seq<LogEntry>)
    requires IsHistory(c.h) && IsLogOf(c.h, log)
    ensures Carries(c, 0, log) && IsUnrepeated(c, log)
  {
    hide IsHistory, StateAt, Carries;
    HistoryCarries(c, 0, log);
    assert log[0..] == log;
    forall i | 0 <= i < |log| ensures log[i].op.seqNo == i + 1 {
      StateAtIsValid(c.h, i);
      assert Records(log[i], c.h[i]);
    }
    forall i, j, k | 0 <= i < j < |log| && 0 <= k < |c.h| && Records(log[i], c.h[k]) ensures !Extends(c, k, log[j]) {
      StateAtIsValid(c.h, k);
    }
  }

  // ---------------------------------------------------------------------------
  // Hints which are written after recovery: a new Author takes over

  /** The Authors of ops after the first `cut` didn't touch a file before. A hand-off no-op doesn't. */
  ghost predicate AuthorsAreFresh(h: seq<Entry>, cut: nat) {
    forall i, j :: 0 <= i < cut <= j < |h| && !h[i].op.body.NoOp? ==> h[i].op.author != h[j].op.author
  }

  function SegmentsAt(h: seq<Entry>, k: nat, f: Fnode): seq<Segment>
    requires k <= |h|
  {
    if f in StateAt(h, k).liveNodes then StateAt(h, k).liveNodes[f].segments else []
  }

  predicate OldOrLate(cut: nat, old': seq<Segment>, segs: seq<Segment>) {
    forall i :: 0 <= i < |segs| ==> segs[i] in old' || segs[i].firstSeqNo > cut
  }

  /** A fresh Author doesn't extend an old segment. */
  lemma ExtendsLate(h: seq<Entry>, cut: nat, k: nat, old': seq<Segment>, segs: seq<Segment>)
    requires AuthorsAreFresh(h, cut) && cut <= k < |h| && h[k].op.seqNo == k + 1
    requires AllFaithful(h, old') && forall i :: 0 <= i < |old'| ==> old'[i].lastSeqNo <= cut
    requires OldOrLate(cut, old', segs)
    ensures OldOrLate(cut, old', ExtendSegments(segs, h[k].op))
  {
    if segs != [] && segs[|segs| - 1] in old' {
      var i :| 0 <= i < |old'| && old'[i] == segs[|segs| - 1];
      assert Faithful(h, old'[i]);
      assert h[old'[i].lastSeqNo - 1].op.author == old'[i].author;
    }
  }

  lemma {:induction false} SegmentsAreOldOrLate(h: seq<Entry>, cut: nat, k: nat, f: Fnode)
    requires IsHistory(h) && AuthorsAreRuns(h) && AuthorsAreFresh(h, cut) && cut <= k <= |h|
    ensures OldOrLate(cut, SegmentsAt(h, cut, f), SegmentsAt(h, k, f))
    decreases k
  {
    hide Apply, ApplyBody, StateAt, Invariant, IsHistory, ExtendSegments, Faithful, AuthorsAreRuns, AuthorsAreFresh;
    if k > cut && f in StateAt(h, k).liveNodes {
      var m, old' := StateAt(h, k - 1), SegmentsAt(h, cut, f);
      HistoryStep(h, k - 1);
      StateAtIsValid(h, k - 1);
      SegmentsAreOldOrLate(h, cut, k - 1, f);
      ApplyBodyNode(m, h[k - 1].op, f);
      OldAreFaithful(h, cut, f);
      if f in m.liveNodes {
        ExtendsLate(h, cut, k - 1, old', m.liveNodes[f].segments);
      } else {
        ExtendsLate(h, cut, k - 1, old', []);
      }
    }
  }

  lemma OldAreFaithful(h: seq<Entry>, cut: nat, f: Fnode)
    requires IsHistory(h) && AuthorsAreRuns(h) && cut <= |h|
    ensures var segs := SegmentsAt(h, cut, f);
            AllFaithful(h, segs) && forall i :: 0 <= i < |segs| ==> segs[i].lastSeqNo <= cut
  {
    hide StateAt, IsHistory, AuthorsAreRuns, Faithful;
    if f in StateAt(h, cut).liveNodes {
      LiveNodeIsTracked(h, cut, f);
    }
  }

  /** What later hints hold of the earlier ops, the earlier hints hold too. */
  lemma LaterHintsHoldLess(h: seq<Entry>, cut: nat, hints: FSMHints, cut': nat, hints': FSMHints, n: int)
    requires IsHistory(h) && AuthorsAreRuns(h) && AuthorsAreFresh(h, cut) && cut <= cut' <= |h| && n <= cut
    requires AreHintsOf(hints, StateAt(h, cut)) && AreHintsOf(hints', StateAt(h, cut'))
    requires Flatten(hints.liveNodes).Some? && Flatten(hints'.liveNodes).Some?
    requires HoldsSeqNo(Flatten(hints'.liveNodes).value.1, n)
    ensures HoldsSeqNo(Flatten(hints.liveNodes).value.1, n)
  {
    hide StateAt, IsHistory, AuthorsAreRuns, AuthorsAreFresh, Flatten, IsSegmentSet;
    FlattenHolds(hints'.liveNodes, n);
    var i :| 0 <= i < |hints'.liveNodes| && HoldsSeqNo(hints'.liveNodes[i].segments, n);
    var node := hints'.liveNodes[i];
    assert IsNodeOf(node, StateAt(h, cut'));
    SegmentsAreOldOrLate(h, cut, cut', node.fnode);
    var j :| 0 <= j < |node.segments| && Spans(node.segments[j], n);
    assert node.segments[j] in SegmentsAt(h, cut, node.fnode);
    HintsHoldSegment(hints, StateAt(h, cut), node.fnode, node.segments[j], n);
  }

  lemma HintsHoldSegment(hints: FSMHints, m: State, f: Fnode, s: Segment, n: int)
    requires AreHintsOf(hints, m) && Flatten(hints.liveNodes).Some?
    requires f in m.liveNodes && s in m.liveNodes[f].segments && Spans(s, n)
    ensures HoldsSeqNo(Flatten(hints.liveNodes).value.1, n)
  {
    hide Flatten;
    var i :| 0 <= i < |hints.liveNodes| && hints.liveNodes[i] == FnodeSegments(f, m.liveNodes[f].segments);
    assert HoldsSeqNo(hints.liveNodes[i].segments, n);
    FlattenHolds(hints.liveNodes, n);
  }

  /** A dead op lies before the final hinted segment. */
  lemma DeadIsBeforeLast(c: Course, k: nat)
    requires c.segs != [] && IsDead(c, k)
    ensures k + 1 < c.segs[|c.segs| - 1].firstSeqNo
  {
    var last := c.segs[|c.segs| - 1];
    if last.firstSeqNo <= k + 1 {
      assert Spans(last, k + 1);
    }
  }

  /** At a hand-off, an op which is lost is dead to later hints exactly if these reach past it. */
  lemma LostIsDeadIff(h: seq<Entry>, cut: nat, hints: FSMHints, cut': nat, hints': FSMHints, k: nat)
    requires IsHistory(h) && AuthorsAreRuns(h) && AuthorsAreFresh(h, cut) && cut <= cut' <= |h|
    requires AreHintsOf(hints, StateAt(h, cut)) && AreHintsOf(hints', StateAt(h, cut'))
    requires Flatten(hints.liveNodes).Some? && Flatten(hints'.liveNodes).Some?
    requires IsDead(CourseOf(h, cut, hints), k) && CourseOf(h, cut, hints).Last() <= cut
    ensures IsDead(CourseOf(h, cut', hints'), k) <==> k + 1 < CourseOf(h, cut', hints').Last()
  {
    hide StateAt, IsHistory, AuthorsAreRuns, AuthorsAreFresh, Flatten, HoldsSeqNo;
    if HoldsSeqNo(CourseOf(h, cut', hints').segs, k + 1) {
      LaterHintsHoldLess(h, cut, hints, cut', hints', k + 1);
    }
  }

  /** The last SeqNo of `hints` is past every op which is lost, of a log pruned under `segs`. */
  ghost predicate ReachesPastLost(c: Course, segs: seq<Segment>, fragments: seq<Fragment>, log: seq<LogEntry>)
    requires segs != []
  {
    forall i, k :: 0 <= i < |log| && 0 <= k < |c.h| && Records(log[i], c.h[k]) && IsLost(segs, fragments, log[i]) ==>
      k + 1 < c.Last()
  }

  lemma HandoffLossIff(h: seq<Entry>, cut: nat, hints: FSMHints, cut': nat, hints': FSMHints,
                       fragments: seq<Fragment>, log: seq<LogEntry>)
    requires IsHistory(h) && AuthorsAreRuns(h) && OffsetsAreOrdered(h) && AuthorsAreFresh(h, cut) && cut <= cut' <= |h|
    requires AreHintsOf(hints, StateAt(h, cut)) && AreHintsOf(hints', StateAt(h, cut')) && OffsetsBound(h, log)
    requires Flatten(hints.liveNodes).Some? && Flatten(hints'.liveNodes).Some?
    requires HintsHold(CourseOf(h, cut, hints)) && CourseOf(h, cut, hints).segs != []
    ensures var segs, c' := CourseOf(h, cut, hints).segs, CourseOf(h, cut', hints');
            LostAreDead(c', segs, fragments, log) <==> ReachesPastLost(c', segs, fragments, log)
  {
    hide StateAt, IsHistory, AuthorsAreRuns, OffsetsAreOrdered, AreHintsOf, OffsetsBound, Flatten, IsDead, IsLost;
    hide Records, AuthorsAreFresh, IsSegmentSet, AllFaithful;
    var c, c' := CourseOf(h, cut, hints), CourseOf(h, cut', hints');
    OwnLossIsDead(c, fragments, log);
    forall i, k | 0 <= i < |log| && 0 <= k < |h| && Records(log[i], h[k]) && IsLost(c.segs, fragments, log[i])
      ensures IsDead(c', k) <==> k + 1 < c'.Last()
    {
      LostIsDeadIff(h, cut, hints, cut', hints', k);
    }
  }

  /**
   * A log is pruned under hints which are written as a new Author takes over. Hints of any later time recover it
   * exactly if they reach past every op which is lost.
   */
  lemma HandoffRecoversIff(h: seq<Entry>, cut: nat, hints: FSMHints, cut': nat, hints': FSMHints,
                           fragments: seq<Fragment>, log: seq<LogEntry>)
    requires IsHistory(h) && AuthorsAreRuns(h) && OffsetsAreOrdered(h) && AuthorsAreFresh(h, cut) && cut <= cut'
    requires Hintable(h, cut') && hints'.log != "" && AreHintsOf(hints', StateAt(h, cut'))
    requires AreHintsOf(hints, StateAt(h, cut))
    requires forall i :: 0 <= i < |h| ==> WritesAreValid(h[i].op)
    requires OffsetsBound(h, log)
    requires Flatten(hints.liveNodes).Some? ==> CourseOf(h, cut, hints).segs != []
    requires Flatten(hints'.liveNodes).Some? ==>
               var c' := CourseOf(h, cut', hints');
               GapsAreHarmless(c') && Carries(c', 0, log) && IsUnrepeated(c', log)
    ensures InitialState(hints').Some? && Flatten(hints.liveNodes).Some? && Flatten(hints'.liveNodes).Some?
    ensures var segs := CourseOf(h, cut, hints).segs;
            Recovers(h, hints', Kept(segs, fragments, log)) <==>
            ReachesPastLost(CourseOf(h, cut', hints'), segs, fragments, log)
  {
    hide StateAt, IsHistory, AuthorsAreRuns, OffsetsAreOrdered, GapsAreHarmless, Carries, Flatten, PropertiesAreSinks;
    hide OffsetsBound, Kept, Recovers, LostAreDead, WritesAreValid, IsUnrepeated, AuthorsAreFresh, ReachesPastLost;
    hide AreHintsOf, HintsHold;
    HintsHoldCourse(h, cut, hints);
    HintsHoldCourse(h, cut', hints');
    LaterHintsRecoverIff(h, cut', hints', CourseOf(h, cut, hints).segs, fragments, log);
    HandoffLossIff(h, cut, hints, cut', hints', fragments, log);
  }

  /**
   * A log which was pruned under the hints that a consumer wrote after it recovered, and handed off to a new Author,
   * is recovered by the hints of any later time, as long as these reach up to the last segment of the former.
   */
  lemma RecoversAfterHandoff(h: seq<Entry>, cut: nat, hints: FSMHints, cut': nat, hints': FSMHints,
                             fragments: seq<Fragment>, log: seq<LogEntry>)
    requires IsHistory(h) && AuthorsAreRuns(h) && OffsetsAreOrdered(h) && AuthorsAreFresh(h, cut) && cut <= cut'
    requires Hintable(h, cut') && hints'.log != "" && AreHintsOf(hints', StateAt(h, cut'))
    requires AreHintsOf(hints, StateAt(h, cut))
    requires forall i :: 0 <= i < |h| ==> WritesAreValid(h[i].op)
    requires OffsetsBound(h, log)
    requires Flatten(hints.liveNodes).Some? && Flatten(hints'.liveNodes).Some? ==>
               var (c, c') := (CourseOf(h, cut, hints), CourseOf(h, cut', hints'));
               && GapsAreHarmless(c') && Carries(c', 0, log)
               && c.segs != [] && c.segs[|c.segs| - 1].firstSeqNo <= c'.Last()
    ensures InitialState(hints').Some? && Flatten(hints.liveNodes).Some?
    ensures Recovers(h, hints', Kept(CourseOf(h, cut, hints).segs, fragments, log))
  {
    hide StateAt, IsHistory, AuthorsAreRuns, OffsetsAreOrdered, GapsAreHarmless, Carries, Flatten, PropertiesAreSinks;
    hide OffsetsBound, Kept, Recovers, LostAreDead, WritesAreValid, AuthorsAreFresh, AreHintsOf, HintsHold;
    HintsHoldCourse(h, cut, hints);
    HintsHoldCourse(h, cut', hints');
    HandoffLossIff(h, cut, hints, cut', hints', fragments, log);
    LossIsBeforeLast(h, cut, hints, fragments, log);
    DeadLossRecovers(h, cut', hints', CourseOf(h, cut, hints).segs, fragments, log);
  }

  lemma LossIsBeforeLast(h: seq<Entry>, cut: nat, hints: FSMHints, fragments: seq<Fragment>, log: seq<LogEntry>)
    requires OffsetsAreOrdered(h) && cut <= |h| && Flatten(hints.liveNodes).Some? && OffsetsBound(h, log)
    requires HintsHold(CourseOf(h, cut, hints)) && CourseOf(h, cut, hints).segs != []
    ensures var segs := CourseOf(h, cut, hints).segs;
            forall i, k ::
              0 <= i < |log| && 0 <= k < |h| && Records(log[i], h[k]) && IsLost(segs, fragments, log[i]) ==>
                k + 1 < segs[|segs| - 1].firstSeqNo
  {
    hide StateAt, OffsetsAreOrdered, OffsetsBound, Flatten, IsDead, IsLost, Records, IsSegmentSet, AllFaithful;
    var c := CourseOf(h, cut, hints);
    OwnLossIsDead(c, fragments, log);
    forall i, k | 0 <= i < |log| && 0 <= k < |h| && Records(log[i], h[k]) && IsLost(c.segs, fragments, log[i])
      ensures k + 1 < c.segs[|c.segs| - 1].firstSeqNo
    {
      DeadIsBeforeLast(c, k);
    }
  }
}

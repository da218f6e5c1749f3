/**
 * Whole runs of Recorders, which recover from one another's logs and take over, beside other writers; and what hinted
 * playback recovers of them.
 */
module EndToEnd {
  import opened Common
  import opened Fsm
  import opened Hints
  import opened History
  import opened Playback
  import opened RoundTrip
  import opened Player
  import opened Annotations
  import opened Recorder
  import opened Recovery
  import opened RecorderWorld
  import opened Handoffs

  function Begin(head: nat, id: nat): World {
    World(id, Recording(EmptyState, head, []), FileSystem(map[], map[]), map[], [], [], head, [])
  }

  ghost function Run(head: nat, id: nat, marshal: Marshal, evs: seq<Event>): Option<World> {
    if evs == [] then Some(Begin(head, id))
    else match Run(head, id, marshal, evs[..|evs| - 1])
      case None => None
      case Some(w) => Next(w, marshal, evs[|evs| - 1])
  }

  lemma HeadKeeps(w: World, head: int)
    requires WorldOk(w) && w.r.writeHead <= head <= w.end
    ensures WorldOk(w.(r := w.r.(writeHead := head)))
  {
    hide Woven, StateAt, IsHistory, FilesAt, OffsetsAreOrdered, AuthorsLeadTo, ArePlaced, StoredOk, NoneForeign;
    var r := w.r.(writeHead := head);
    assert Recorded(r) == Recorded(w.r);
    forall i | 0 <= i < |r.entries| ensures IsKnown(r.entries[i].op, w.id, r.writeHead) {
      assert IsKnown(w.r.entries[i].op, w.id, w.r.writeHead);
    }
  }

  lemma ForeignKeeps(w: World, x: Entry)
    requires WorldOk(w) && x.op.author != w.id
    ensures WorldOk(w.(log := w.log + [At(w.end, x)], ours := w.ours + [false], end := w.end + Size(x)))
  {
    hide Woven, Synced, ArePlaced, StoredOk, OffsetsAreLengths;
    EndIsPlaced(w.log, w.end);
    WeaveForeign(w.r.entries, w.log, w.ours, At(w.end, x));
    PlacedSnoc(w.log, w.end, At(w.end, x), w.end + Size(x));
  }

  lemma StoreKeeps(w: World, hints: FSMHints)
    requires WorldOk(w) && hints.log != "" && AreHintsOf(hints, w.r.fsm)
    ensures WorldOk(w.(stored := w.stored + [Stored(hints, w.id, w.r)]))
  {
    hide Woven, ArePlaced, OffsetsAreLengths, NoneForeign, IsRecording, IsEarlier, AreHintsOf;
    EarlierSelf(w.r.entries);
    assert StoredOk(Stored(hints, w.id, w.r), w.r.entries);
  }

  lemma EarlierSelf(h: seq<Entry>)
    ensures IsEarlier(h, h)
  {
  }

  lemma NextKeeps(w: World, marshal: Marshal, ev: Event)
    requires WorldOk(w) && Next(w, marshal, ev).Some?
    ensures var n := Next(w, marshal, ev).value; WorldOk(n) && IsEarlier(w.r.entries, n.r.entries)
  {
    EarlierSelf(w.r.entries);
    hide Perform, WorldOk, StateAt, CanFollow, Replay, TakenOver, IsEarlier, AreHintsOf;
    match ev {
      case Do(c, head) =>
        PerformKeeps(w, marshal, c);
        var n := Perform(w, marshal, c).value;
        PrefixIsEarlier(w.r.entries, n.r.entries);
        if head.Some? {
          HeadKeeps(n, head.value);
        }
      case Barrier =>
        HeadIsBounded(w);
        HeadKeeps(w, w.end);
      case Foreign(x) => ForeignKeeps(w, x);
      case Store(hints) => StoreKeeps(w, hints);
      case Handoff(author, n) => HandoffKeeps(w, marshal, author, n);
    }
  }

  lemma HeadIsBounded(w: World)
    requires WorldOk(w)
    ensures w.r.writeHead <= w.end
  {
    hide Woven, ArePlaced, OffsetsAreLengths, NoneForeign, Synced, StoredOk;
  }

  lemma {:induction false} RunKeeps(head: nat, id: nat, marshal: Marshal, evs: seq<Event>)
    requires Run(head, id, marshal, evs).Some?
    ensures WorldOk(Run(head, id, marshal, evs).value)
    ensures id != 0 ==> Run(head, id, marshal, evs).value.id != 0
  {
    hide Next, WorldOk;
    if evs == [] {
      BeginIsOk(head, id);
    } else {
      RunKeeps(head, id, marshal, evs[..|evs| - 1]);
      var w := Run(head, id, marshal, evs[..|evs| - 1]).value;
      NextKeeps(w, marshal, evs[|evs| - 1]);
      NextAuthor(w, marshal, evs[|evs| - 1]);
    }
  }

  lemma {:induction false} EmitKeepsId(w: World, xs: seq<Entry>)
    ensures Emit(w, xs).id == w.id
    decreases xs
  {
    if xs != [] {
      EmitKeepsId(w.(log := w.log + [At(w.end, xs[0])], ours := w.ours + [true], end := w.end + Size(xs[0])), xs[1..]);
    }
  }

  lemma NextAuthor(w: World, marshal: Marshal, ev: Event)
    requires Next(w, marshal, ev).Some?
    ensures w.id != 0 ==> Next(w, marshal, ev).value.id != 0
  {
    hide CanFollow, Replay, Record, Emit, AreHintsOf;
    if ev.Do? && Record(w, marshal, ev.command).Some? {
      var n := Record(w, marshal, ev.command).value;
      if |w.r.entries| <= |n.entries| {
        EmitKeepsId(w, n.entries[|w.r.entries|..]);
      }
    }
  }

  lemma BeginIsOk(head: nat, id: nat)
    ensures WorldOk(Begin(head, id))
  {
    hide Apply;
  }

  /** What was known of the history at any point is still known of it. */
  lemma {:induction false} RunGrows(head: nat, id: nat, marshal: Marshal, evs: seq<Event>, i: nat)
    requires i <= |evs| && Run(head, id, marshal, evs).Some?
    ensures Run(head, id, marshal, evs[..i]).Some?
    ensures IsEarlier(Run(head, id, marshal, evs[..i]).value.r.entries, Run(head, id, marshal, evs).value.r.entries)
    decreases |evs|
  {
    hide Next, WorldOk, IsEarlier;
    if i == |evs| {
      assert evs[..i] == evs;
      EarlierSelf(Run(head, id, marshal, evs).value.r.entries);
    } else {
      var init := evs[..|evs| - 1];
      assert init[..i] == evs[..i];
      RunGrows(head, id, marshal, init, i);
      RunKeeps(head, id, marshal, init);
      NextKeeps(Run(head, id, marshal, init).value, marshal, evs[|evs| - 1]);
      EarlierTransitive(Run(head, id, marshal, evs[..i]).value.r.entries, Run(head, id, marshal, init).value.r.entries,
                        Run(head, id, marshal, evs).value.r.entries);
    }
  }

  /**
   * End-to-end recovery. Let hints be built at any point of any run, in which Recorders may have recovered and taken
   * over from one another, and let a player read the log as it is at the end of the run. No file operation of playback
   * fails, its hints are used up, and the directory it leaves has exactly the paths and contents of the observed file
   * system. Other Authors may have branched off the recorder's chain wherever hinted ops follow. Past those, a player
   * can't tell a branch from the recorder's ops.
   */
  lemma HintsRecoverFileSystem(head: nat, id: nat, marshal: Marshal, evs: seq<Event>, i: nat, hints: FSMHints)
    requires id != 0 && i <= |evs|
    requires Run(head, id, marshal, evs).Some? && Run(head, id, marshal, evs[..i]).Some?
    requires hints.log != "" && AreHintsOf(hints, Run(head, id, marshal, evs[..i]).value.r.fsm)
    requires var w, a := Run(head, id, marshal, evs).value, Run(head, id, marshal, evs[..i]).value;
             CanFollow(w, Stored(hints, a.id, a.r))
    ensures InitialState(hints).Some?
    ensures var w := Run(head, id, marshal, evs).value;
            var r := PlayLog(Playing(InitialState(hints).value, map[]), w.log);
            && IsFileSystem(w.fs)
            && r.Some? && FilesMatch(r.value) && !HasRemainingHints(r.value.fsm)
            && (forall p :: p in r.value.fsm.links ==> r.value.fsm.links[p] in r.value.files)
            && Directory(r.value) == Contents(w.fs)
  {
    RunKeeps(head, id, marshal, evs);
    RunKeeps(head, id, marshal, evs[..i]);
    RunGrows(head, id, marshal, evs, i);
    var w, a := Run(head, id, marshal, evs).value, Run(head, id, marshal, evs[..i]).value;
    hide Run, CanFollow, InitialState, PlayLog, Directory, IsEarlier, AreHintsOf, FilesMatch;
    var s := Stored(hints, a.id, a.r);
    HintsAreStored(a, s, w.r.entries);
    hide WorldOk;
    StoredRecovers(w, s);
  }

  /** Without a hand-off, all ops are of one Author: gaps of its hints are harmless. */
  lemma {:induction false} NoHandoffIsSingle(head: nat, id: nat, marshal: Marshal, evs: seq<Event>)
    requires Run(head, id, marshal, evs).Some? && forall i :: 0 <= i < |evs| ==> !evs[i].Handoff?
    ensures var w := Run(head, id, marshal, evs).value;
            w.id == id && (forall k :: 0 <= k < |w.r.entries| ==> w.r.entries[k].op.author == id)
            && SingleAuthor(w.r.entries)
  {
    hide Next;
    if evs != [] {
      var init, last := evs[..|evs| - 1], evs[|evs| - 1];
      NoHandoffIsSingle(head, id, marshal, init);
      NextIsSingle(Run(head, id, marshal, init).value, marshal, last);
    }
  }

  lemma NextIsSingle(w: World, marshal: Marshal, ev: Event)
    requires Next(w, marshal, ev).Some? && !ev.Handoff?
    requires forall k :: 0 <= k < |w.r.entries| ==> w.r.entries[k].op.author == w.id
    ensures var n := Next(w, marshal, ev).value;
            n.id == w.id && forall k :: 0 <= k < |n.r.entries| ==> n.r.entries[k].op.author == w.id
  {
    hide AreHintsOf, Record, Emit;
    if ev.Do? {
      var n := Record(w, marshal, ev.command).value;
      RecordGrows(w, marshal, ev.command);
      EmitKeepsId(w, n.entries[|w.r.entries|..]);
      forall k | 0 <= k < |n.entries| ensures n.entries[k].op.author == w.id {
        if k < |w.r.entries| {
          assert n.entries[k] == w.r.entries[k];
        } else {
          RecordIssues(w, marshal, ev.command, k);
        }
      }
    }
  }

  /** A new Author can take over with any stored hints which a player can follow. */
  lemma HandoffSucceeds(w: World, marshal: Marshal, author: nat, n: nat)
    requires WorldOk(w) && n < |w.stored| && IsNew(w, author) && CanFollow(w, w.stored[n])
    ensures Next(w, marshal, Handoff(author, n)).Some?
  {
    hide WorldOk, CanFollow, TakenOver, Replay;
    StoredReplays(w, n);
  }

  lemma HintsAreStored(a: World, s: Stored, h: seq<Entry>)
    requires WorldOk(a) && s.r == a.r && s.id == a.id && IsEarlier(a.r.entries, h)
    requires s.hints.log != "" && AreHintsOf(s.hints, a.r.fsm)
    ensures StoredOk(s, h)
  {
    hide Woven, ArePlaced, OffsetsAreLengths, NoneForeign, IsRecording, IsEarlier, AreHintsOf;
  }

  lemma RunLast(head: nat, id: nat, marshal: Marshal, evs: seq<Event>)
    requires evs != [] && Run(head, id, marshal, evs).Some?
    ensures var init := Run(head, id, marshal, evs[..|evs| - 1]);
            init.Some? && Run(head, id, marshal, evs) == Next(init.value, marshal, evs[|evs| - 1])
  {
    hide Next;
  }

  /** A Recorder which takes over has the directory of the one before it. */
  lemma HandoffKeepsDirectory(head: nat, id: nat, marshal: Marshal, evs: seq<Event>)
    requires evs != [] && Run(head, id, marshal, evs).Some? && evs[|evs| - 1].Handoff?
    ensures Run(head, id, marshal, evs[..|evs| - 1]).Some?
    ensures var w, w' := Run(head, id, marshal, evs[..|evs| - 1]).value, Run(head, id, marshal, evs).value;
            && IsFileSystem(w.fs) && IsFileSystem(w'.fs) && Contents(w'.fs) == Contents(w.fs)
            && w'.r.fsm.links == w.r.fsm.links && w'.r.fsm.properties == w.r.fsm.properties
  {
    RunLast(head, id, marshal, evs);
    hide Run, Next, WorldOk, IsEarlier;
    RunKeeps(head, id, marshal, evs[..|evs| - 1]);
    var w, last := Run(head, id, marshal, evs[..|evs| - 1]).value, evs[|evs| - 1];
    HandoffKeeps(w, marshal, last.author, last.n);
    HandoffLinks(w, marshal, last.author, last.n);
  }

  lemma HandoffLinks(w: World, marshal: Marshal, author: nat, n: nat)
    requires WorldOk(w) && Next(w, marshal, Handoff(author, n)).Some?
    ensures var w' := Next(w, marshal, Handoff(author, n)).value;
            w'.r.fsm.links == w.r.fsm.links && w'.r.fsm.properties == w.r.fsm.properties
  {
    hide IsHistory, StateAt, OffsetsAreOrdered, WritesAreValid, SameOps, IsRecording, PlayLog, Replay;
    hide AuthorsAreRuns, Woven, ArePlaced, OffsetsAreLengths, NoneForeign, IsEarlier, ReadHistory, StoredOk;
    hide CanFollow, SameState, Directory, DirectoryAt, FilesMatch, Apply, RecoveredFs, Lengths, InSync;
    var s := w.stored[n];
    ReplayIsExact(w, s);
    StoredRecovers(w, s);
    TakenOverRecords(w, marshal, author, Replay(w, s).value);
    RecordingIsHistory(w.r, w.id);
    SameLinksOf(Replay(w, s).value.fsm, w.r.fsm);
  }
}

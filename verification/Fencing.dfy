/**
 * Hand-off of a recovery log between Recorders (the injected no-op of pkg/recoverylog/playback.go). Several
 * writers may write to one log at once. Readers agree on one history of it, and a hand-off fences off every
 * writer which has not applied it.
 */
module Fencing {
  import opened Common
  import opened Fsm
  import opened History
  import opened Recorder

  /** Frames identify their ops: this is what makes the checksum chain free of collisions. */
  ghost predicate Injective(marshal: Marshal) {
    forall a, b :: marshal(a) == marshal(b) ==> a == b
  }

  /** Ops as entries of a history. The log stores no offsets, and contents do not matter here. */
  function Hist(marshal: Marshal, ops: seq<RecordedOp>): (h: seq<Entry>)
    ensures |h| == |ops| && forall i :: 0 <= i < |h| ==> h[i] == Entry(ops[i], marshal(ops[i]), [])
  {
    seq(|ops|, i requires 0 <= i < |ops| => Entry(ops[i], marshal(ops[i]), []))
  }

  function StateOf(marshal: Marshal, ops: seq<RecordedOp>): State {
    StateAt(Hist(marshal, ops), |ops|)
  }

  /** The FSM of a reader without hints, after `ops`, accepts `op`. */
  predicate Accepts(marshal: Marshal, ops: seq<RecordedOp>, op: RecordedOp) {
    Transitions(Apply(StateOf(marshal, ops), op, marshal(op)).1)
  }

  /** The ops of the log which a reader without hints accepts. */
  function Accepted(marshal: Marshal, log: seq<RecordedOp>): seq<RecordedOp> {
    if log == [] then []
    else
      var ops := Accepted(marshal, log[..|log| - 1]);
      if Accepts(marshal, ops, log[|log| - 1]) then ops + [log[|log| - 1]] else ops
  }

  // ---------------------------------------------------------------------------
  // Writers, and how a log comes about

  /**
   * A log; for each of its ops, the ops which its issuer had applied when it was issued; and for each
   * active writer, the ops it has applied.
   */
  datatype System = System(
    log: seq<RecordedOp>,
    issued: seq<seq<RecordedOp>>,
    writers: map<nat, seq<RecordedOp>>)

  const Initial := System([], [], map[])

  function NextOp(marshal: Marshal, ops: seq<RecordedOp>, author: nat, body: Body): RecordedOp {
    var m := StateOf(marshal, ops);
    RecordedOp(m.nextSeqNo, m.nextChecksum, author, 0, 0, body)
  }

  function Issue(s: System, op: RecordedOp, ops: seq<RecordedOp>): System {
    s.(log := s.log + [op], issued := s.issued + [ops])
  }

  /** Recorder.process: a writer issues an op which its own FSM applies without an error. */
  ghost predicate Writes(marshal: Marshal, s: System, s': System, author: nat, body: Body) {
    && author in s.writers
    && var ops := s.writers[author];
    && var op := NextOp(marshal, ops, author, body);
    && Apply(StateOf(marshal, ops), op, marshal(op)).1 == NoError
    && s' == Issue(s, op, ops).(writers := s.writers[author := ops + [op]])
  }

  /** A player, which is not yet a writer and has read `n` ops of the log, injects a no-op. */
  ghost predicate Injects(marshal: Marshal, s: System, s': System, author: nat, n: nat) {
    && author !in s.writers
    && n <= |s.log|
    && var ops := Accepted(marshal, s.log[..n]);
    && s' == Issue(s, NextOp(marshal, ops, author, NoOp), ops)
  }

  /** attemptCompletion: the player reads its no-op back. If it was applied, the player becomes a writer. */
  ghost predicate TakesOver(marshal: Marshal, s: System, s': System, author: nat, n: nat) {
    && author !in s.writers
    && n < |s.log| && s.log[n].author == author && s.log[n].body.NoOp?
    && Accepts(marshal, Accepted(marshal, s.log[..n]), s.log[n])
    && s' == s.(writers := s.writers[author := Accepted(marshal, s.log[..n + 1])])
  }

  ghost predicate Next(marshal: Marshal, s: System, s': System) {
    || (exists a: nat, body :: Writes(marshal, s, s', a, body))
    || (exists a: nat, n: nat :: Injects(marshal, s, s', a, n))
    || (exists a: nat, n: nat :: TakesOver(marshal, s, s', a, n))
  }

  ghost predicate IsRun(marshal: Marshal, run: seq<System>) {
    run != [] && forall i :: 0 <= i < |run| - 1 ==> Next(marshal, run[i], run[i + 1])
  }

  // ---------------------------------------------------------------------------
  // Chains

  function Chain(marshal: Marshal, ops: seq<RecordedOp>): Checksum {
    if ops == [] then Zero else Update(Chain(marshal, ops[..|ops| - 1]), marshal(ops[|ops| - 1]))
  }

  lemma {:induction false} ChainIsInjective(marshal: Marshal, x: seq<RecordedOp>, y: seq<RecordedOp>)
    requires Injective(marshal) && Chain(marshal, x) == Chain(marshal, y)
    ensures x == y
    decreases |x|
  {
    if x != [] && y != [] {
      ChainIsInjective(marshal, x[..|x| - 1], y[..|y| - 1]);
      assert x == x[..|x| - 1] + [x[|x| - 1]];
      assert y == y[..|y| - 1] + [y[|y| - 1]];
    }
  }

  ghost predicate IsChain(marshal: Marshal, ops: seq<RecordedOp>) {
    IsHistory(Hist(marshal, ops))
  }

  lemma ChainExtends(marshal: Marshal, ops: seq<RecordedOp>, op: RecordedOp)
    requires IsChain(marshal, ops) && Accepts(marshal, ops, op)
    ensures IsChain(marshal, ops + [op])
    ensures op.seqNo == |ops| + 1 && op.checksum == StateOf(marshal, ops).nextChecksum
  {
    hide Apply, StateAt, IsHistory;
    var h := Hist(marshal, ops);
    assert Hist(marshal, ops + [op]) == h + [Entry(op, marshal(op), [])];
    HistoryExtends(h, Entry(op, marshal(op), []));
    StateAtIsValid(h, |h|);
    ApplyWithoutHints(StateOf(marshal, ops), op, marshal(op));
  }

  lemma {:induction false} StateChecksum(marshal: Marshal, ops: seq<RecordedOp>)
    requires IsChain(marshal, ops)
    ensures StateOf(marshal, ops).nextChecksum == Chain(marshal, ops)
    ensures StateOf(marshal, ops).nextSeqNo == |ops| + 1
  {
    hide Apply, StateAt, IsHistory;
    var h := Hist(marshal, ops);
    StateAtIsValid(h, |h|);
    if ops != [] {
      var init := ops[..|ops| - 1];
      var x := h[|ops| - 1];
      assert h == Hist(marshal, init) + [x];
      HistoryPrefix(Hist(marshal, init), x);
      StateChecksum(marshal, init);
      HistoryStep(h, |init|);
      StateAtIsValid(h, |init|);
      StateAtPrefix(Hist(marshal, init), x, |init|);
    }
  }

  lemma HistoryPrefix(h: seq<Entry>, x: Entry)
    requires IsHistory(h + [x])
    ensures IsHistory(h)
  {
    hide Apply;
    forall k | 0 <= k < |h| ensures Transitions(Apply(StateAt(h, k), h[k].op, h[k].frame).1) {
      StateAtPrefix(h, x, k);
      assert (h + [x])[k] == h[k];
    }
  }

  lemma {:induction false} AcceptedIsChain(marshal: Marshal, log: seq<RecordedOp>)
    ensures IsChain(marshal, Accepted(marshal, log))
  {
    hide Accepts, IsChain;
    if log == [] {
      EmptyIsChain(marshal);
    } else {
      AcceptedIsChain(marshal, log[..|log| - 1]);
      if Accepts(marshal, Accepted(marshal, log[..|log| - 1]), log[|log| - 1]) {
        ChainExtends(marshal, Accepted(marshal, log[..|log| - 1]), log[|log| - 1]);
      }
    }
  }

  lemma EmptyIsChain(marshal: Marshal)
    ensures IsChain(marshal, [])
  {
  }

  /** Readers which have read more of the log have accepted more of one history. */
  lemma {:induction false} AcceptedGrows(marshal: Marshal, log: seq<RecordedOp>, n: nat)
    requires n <= |log|
    ensures Accepted(marshal, log[..n]) <= Accepted(marshal, log)
    decreases |log|
  {
    hide Accepts;
    if n == |log| {
      assert log[..n] == log;
    } else {
      assert log[..|log| - 1][..n] == log[..n];
      AcceptedGrows(marshal, log[..|log| - 1], n);
    }
  }

  // ---------------------------------------------------------------------------
  // What every step keeps

  /** The op was issued on the chain of `ops`, and extends it. */
  ghost predicate IssuedOn(marshal: Marshal, op: RecordedOp, ops: seq<RecordedOp>) {
    && IsChain(marshal, ops)
    && op.seqNo == |ops| + 1 && op.checksum == Chain(marshal, ops)
    && Accepts(marshal, ops, op)
  }

  ghost predicate SystemOk(marshal: Marshal, s: System) {
    && |s.issued| == |s.log|
    && (forall i :: 0 <= i < |s.log| ==> IssuedOn(marshal, s.log[i], s.issued[i]))
    && (forall a :: a in s.writers ==> IsChain(marshal, s.writers[a]))
  }

  lemma NoOpIsAccepted(marshal: Marshal, ops: seq<RecordedOp>, author: nat)
    requires IsChain(marshal, ops)
    ensures IssuedOn(marshal, NextOp(marshal, ops, author, NoOp), ops)
  {
    hide IsHistory, StateAt, Apply, Chain;
    StateChecksum(marshal, ops);
    StateAtIsValid(Hist(marshal, ops), |ops|);
    var op := NextOp(marshal, ops, author, NoOp);
    NoOpApplies(StateOf(marshal, ops), op, marshal(op));
  }

  lemma NoOpApplies(m: State, op: RecordedOp, frame: Bytes)
    requires !HasRemainingHints(m) && op.body.NoOp? && op.seqNo == m.nextSeqNo && op.checksum == m.nextChecksum
    ensures Apply(m, op, frame).1 == NoError
  {
  }

  lemma NextKeeps(marshal: Marshal, s: System, s': System)
    requires SystemOk(marshal, s) && Next(marshal, s, s')
    ensures SystemOk(marshal, s')
    ensures s.log <= s'.log && s.issued <= s'.issued
  {
    hide Apply, StateOf, IsChain, Chain, Accepted;
    if a: nat, body :| Writes(marshal, s, s', a, body) {
      var ops := s.writers[a];
      var op := NextOp(marshal, ops, a, body);
      ChainExtends(marshal, ops, op);
      StateChecksum(marshal, ops);
    } else if a: nat, n: nat :| Injects(marshal, s, s', a, n) {
      AcceptedIsChain(marshal, s.log[..n]);
      NoOpIsAccepted(marshal, Accepted(marshal, s.log[..n]), a);
    } else {
      var a: nat, n: nat :| TakesOver(marshal, s, s', a, n);
      AcceptedIsChain(marshal, s.log[..n + 1]);
    }
  }

  lemma {:induction false} RunKeeps(marshal: Marshal, run: seq<System>, i: nat)
    requires IsRun(marshal, run) && run[0] == Initial && i < |run|
    ensures SystemOk(marshal, run[i])
  {
    hide Next, SystemOk;
    if i == 0 {
      InitialIsOk(marshal);
    } else {
      RunKeeps(marshal, run, i - 1);
      assert Next(marshal, run[i - 1], run[i - 1 + 1]);
      NextKeeps(marshal, run[i - 1], run[i]);
    }
  }

  lemma InitialIsOk(marshal: Marshal)
    ensures SystemOk(marshal, Initial)
  {
  }

  // ---------------------------------------------------------------------------
  // Single history and fencing

  ghost predicate AcceptedAt(marshal: Marshal, log: seq<RecordedOp>, j: nat)
    requires j < |log|
  {
    Accepts(marshal, Accepted(marshal, log[..j]), log[j])
  }

  /**
   * A reader accepts an op if and only if its issuer had applied exactly what the reader has accepted.
   */
  lemma AcceptedIffIssuedOnSame(marshal: Marshal, s: System, j: nat)
    requires Injective(marshal) && SystemOk(marshal, s) && j < |s.log|
    ensures AcceptedAt(marshal, s.log, j) <==> s.issued[j] == Accepted(marshal, s.log[..j])
  {
    hide Apply, StateOf, IsChain, Chain, Accepted, Accepts, Injective;
    assert IssuedOn(marshal, s.log[j], s.issued[j]);
    var ops := Accepted(marshal, s.log[..j]);
    AcceptedIsChain(marshal, s.log[..j]);
    if AcceptedAt(marshal, s.log, j) {
      ChainExtends(marshal, ops, s.log[j]);
      StateChecksum(marshal, ops);
      ChainIsInjective(marshal, ops, s.issued[j]);
    }
  }

  lemma AcceptedHolds(marshal: Marshal, log: seq<RecordedOp>, n: nat, j: nat)
    requires n < j <= |log| && AcceptedAt(marshal, log, n)
    ensures var ops := Accepted(marshal, log[..j]);
            && 0 < log[n].seqNo <= |ops| && ops[log[n].seqNo - 1] == log[n]
  {
    hide Apply, StateOf, IsChain, Accepts;
    var before := Accepted(marshal, log[..n]);
    assert log[..n + 1][..n] == log[..n];
    AcceptedIsChain(marshal, log[..n]);
    ChainExtends(marshal, before, log[n]);
    assert log[..j][..n + 1] == log[..n + 1];
    AcceptedGrows(marshal, log[..j], n + 1);
    assert Accepted(marshal, log[..n + 1]) == before + [log[n]];
  }

  /** Whatever is accepted later was issued by a writer or player which had applied what was accepted before. */
  lemma AcceptedOpsAreApplied(marshal: Marshal, s: System, n: nat, j: nat)
    requires Injective(marshal) && SystemOk(marshal, s) && n < j < |s.log|
    requires AcceptedAt(marshal, s.log, n) && AcceptedAt(marshal, s.log, j)
    ensures var op := s.log[n];
            0 < op.seqNo <= |s.issued[j]| && s.issued[j][op.seqNo - 1] == op
  {
    hide Accepted, Accepts;
    AcceptedIffIssuedOnSame(marshal, s, j);
    AcceptedHolds(marshal, s.log, n, j);
  }

  /** The writer has not applied `op`, and never will: its own ops take the place of it. */
  ghost predicate IsFenced(s: System, op: RecordedOp, author: nat) {
    && author in s.writers
    && author != op.author
    && !(0 < op.seqNo <= |s.writers[author]| && s.writers[author][op.seqNo - 1] == op)
  }

  lemma FencedStaysFenced(marshal: Marshal, s: System, s': System, op: RecordedOp, author: nat)
    requires SystemOk(marshal, s) && Next(marshal, s, s') && IsFenced(s, op, author)
    ensures IsFenced(s', op, author)
    ensures forall j :: |s.log| <= j < |s'.log| && s'.log[j].author == author ==>
              !(0 < op.seqNo <= |s'.issued[j]| && s'.issued[j][op.seqNo - 1] == op)
  {
    hide Apply, StateOf, Accepted, IsChain;
    if a: nat, body :| Writes(marshal, s, s', a, body) {
    } else if a: nat, n: nat :| Injects(marshal, s, s', a, n) {
    } else {
      var a: nat, n: nat :| TakesOver(marshal, s, s', a, n);
    }
  }

  lemma {:induction false} FencedInRun(marshal: Marshal, run: seq<System>, i: nat, k: nat, op: RecordedOp, author: nat)
    requires IsRun(marshal, run) && run[0] == Initial && i <= k < |run| && IsFenced(run[i], op, author)
    ensures IsFenced(run[k], op, author) && |run[i].log| <= |run[k].log| && run[i].log <= run[k].log
    ensures SystemOk(marshal, run[k])
    ensures forall j :: |run[i].log| <= j < |run[k].log| && run[k].log[j].author == author ==>
              !(0 < op.seqNo <= |run[k].issued[j]| && run[k].issued[j][op.seqNo - 1] == op)
    decreases k
  {
    hide Next, IsFenced, IssuedOn;
    RunKeeps(marshal, run, k);
    if i < k {
      FencedInRun(marshal, run, i, k - 1, op, author);
      assert Next(marshal, run[k - 1], run[k - 1 + 1]);
      NextKeeps(marshal, run[k - 1], run[k]);
      FencedStaysFenced(marshal, run[k - 1], run[k], op, author);
    }
  }

  /**
   * Fencing. Once a hand-off no-op of Author `b` is accepted, no op which another writer issues after that is
   * ever accepted by any reader, unless that writer had applied the no-op.
   */
  lemma HandoffFencesWriters(marshal: Marshal, run: seq<System>, i: nat, k: nat, n: nat, author: nat, j: nat)
    requires Injective(marshal) && IsRun(marshal, run) && run[0] == Initial && i <= k < |run|
    requires n < |run[i].log| && run[i].log[n].body.NoOp? && AcceptedAt(marshal, run[i].log, n)
    requires IsFenced(run[i], run[i].log[n], author)
    requires |run[i].log| <= j < |run[k].log| && run[k].log[j].author == author
    ensures !AcceptedAt(marshal, run[k].log, j)
  {
    hide IsRun, IsFenced, SystemOk, Accepted, Accepts, Injective;
    var op := run[i].log[n];
    FencedInRun(marshal, run, i, k, op, author);
    assert run[k].log[..n] == run[i].log[..n];
    if AcceptedAt(marshal, run[k].log, j) {
      OpenSystem(marshal, run[k]);
      AcceptedOpsAreApplied(marshal, run[k], n, j);
      assert false;
    }
  }

  lemma OpenSystem(marshal: Marshal, s: System)
    requires SystemOk(marshal, s)
    ensures |s.issued| == |s.log|
  {
  }
}

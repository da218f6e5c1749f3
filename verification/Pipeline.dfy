/**
 * Hand-off of a replication pipeline among append operations (v2/pkg/broker/pipeline.go, replica.go and
 * replicate_api.go), as a state machine over the steps of any number of tasks and of replication peers. Its send side
 * is passed through a channel which holds the pipeline, and its receive side along a chain of barriers. Streams do not
 * fail.
 */
module Pipeline {
  import opened Common

  /** Where a task is. A barrier is named by its position in the chain, and a request by its position in the stream. */
  datatype Phase =
    | Idle
    | Sending(mine: Option<nat>)                       // Owns the send side, and sent acknowledged request `mine`.
    | Waiting(barrier: nat, request: nat)              // Released the send side, and blocks on its barrier.
    | Gathering(barrier: nat, request: nat, got: seq<nat>) // Owns the receive side, and has responses of leading peers.
    | Done(barrier: nat, request: nat, got: seq<nat>)
    | Left                                             // Released the pipeline without an acknowledged request.
    | Closing(barrier: nat)                            // Shuts down the pipeline, and blocks on its barrier.
    | Draining(barrier: nat, eofs: nat)                // Owns the receive side, and has EOFs of leading peers.

  datatype State = State(
    free: bool,                // The pipeline is in its channel.
    log: seq<bool>,            // Requests which were scattered, and whether each is to be acknowledged.
    reached: nat,              // Leading peers which were sent the latest request.
    served: seq<nat>,          // Requests which each peer has applied.
    responses: seq<seq<nat>>,  // Responses which each peer has sent, by request.
    consumed: seq<nat>,        // Responses which were received from each peer.
    next: nat,                 // Position of the barrier which the next release waits for.
    closed: set<nat>,          // Barriers which are closed.
    phases: seq<Phase>,
    // History: the tasks which own either side, the number of completed gathers, and whether the pipeline is shut down.
    sender: Option<nat>, reader: Option<nat>, finished: nat, down: bool)

  datatype Event =
    | Acquire(task: nat) | Scatter(task: nat, ack: bool) | Send(task: nat)
    | Release(task: nat) | ReleaseEarly(task: nat)
    | Pass(task: nat) | Recv(task: nat) | Finish(task: nat)
    | Shutdown(task: nat) | PassClosing(task: nat) | RecvEof(task: nat)
    | Serve(peer: nat)

  function Peers(s: State): nat {
    |s.served|
  }

  /** Requests which a peer was sent. */
  function Sent(s: State, p: nat): nat {
    if p < s.reached || s.log == [] then |s.log| else |s.log| - 1
  }

  function PhaseOf(s: State, t: nat): Phase {
    if t < |s.phases| then s.phases[t] else Left
  }

  predicate IsScattered(s: State) {
    s.reached == Peers(s)
  }

  predicate Enabled(s: State, e: Event) {
    |s.responses| == |s.consumed| == Peers(s) &&
    match e
    case Acquire(t) => s.free && PhaseOf(s, t) == Idle
    case Scatter(t, _) => PhaseOf(s, t) == Sending(None) && IsScattered(s)
    case Send(t) => PhaseOf(s, t).Sending? && s.reached < Peers(s)
    case Release(t) => PhaseOf(s, t).Sending? && PhaseOf(s, t).mine.Some? && IsScattered(s)
    case ReleaseEarly(t) => PhaseOf(s, t) == Sending(None) && IsScattered(s)
    case Pass(t) => PhaseOf(s, t).Waiting? && PhaseOf(s, t).barrier in s.closed
    case Recv(t) =>
      && PhaseOf(s, t).Gathering?
      && var p := |PhaseOf(s, t).got|;
      p < Peers(s) && s.consumed[p] < |s.responses[p]|
    case Finish(t) => PhaseOf(s, t).Gathering? && |PhaseOf(s, t).got| == Peers(s)
    case Shutdown(t) => PhaseOf(s, t) == Sending(None) && IsScattered(s)
    case PassClosing(t) => PhaseOf(s, t).Closing? && PhaseOf(s, t).barrier in s.closed
    case RecvEof(t) =>
      && PhaseOf(s, t).Draining?
      && var p := PhaseOf(s, t).eofs;
      p < Peers(s) && s.served[p] == Sent(s, p) && s.consumed[p] == |s.responses[p]|
    case Serve(p) => p < Peers(s) && s.served[p] < Sent(s, p)
  }

  function Apply(s: State, e: Event): State
    requires Enabled(s, e)
  {
    match e
    case Acquire(t) => s.(free := false, phases := s.phases[t := Sending(None)], sender := Some(t))
    case Scatter(t, ack) =>
      s.(log := s.log + [ack], reached := 0, phases := s.phases[t := Sending(if ack then Some(|s.log|) else None)])
    case Send(t) => s.(reached := s.reached + 1)
    case Release(t) =>
      s.(free := true, sender := None, next := s.next + 1,
      phases := s.phases[t := Waiting(s.next, s.phases[t].mine.value)])
    case ReleaseEarly(t) => s.(free := true, phases := s.phases[t := Left], sender := None)
    case Pass(t) =>
      s.(phases := s.phases[t := Gathering(s.phases[t].barrier, s.phases[t].request, [])], reader := Some(t))
    case Recv(t) =>
      var g := s.phases[t];
      var p := |g.got|;
      s.(phases := s.phases[t := Gathering(g.barrier, g.request, g.got + [s.responses[p][s.consumed[p]]])],
         consumed := s.consumed[p := s.consumed[p] + 1])
    case Finish(t) =>
      var g := s.phases[t];
      s.(phases := s.phases[t := Done(g.barrier, g.request, g.got)], closed := s.closed + {g.barrier + 1},
         reader := None, finished := s.finished + 1)
    case Shutdown(t) => s.(phases := s.phases[t := Closing(s.next)], next := s.next + 1, sender := None, down := true)
    case PassClosing(t) => s.(phases := s.phases[t := Draining(s.phases[t].barrier, 0)], reader := Some(t))
    case RecvEof(t) => s.(phases := s.phases[t := Draining(s.phases[t].barrier, s.phases[t].eofs + 1)])
    case Serve(p) =>
      s.(served := s.served[p := s.served[p] + 1],
         responses := if s.log[s.served[p]] then s.responses[p := s.responses[p] + [s.served[p]]] else s.responses)
  }

  /** A pipeline with `base` acknowledged requests of its synchronization, each gathered already. */
  function Fresh(peers: nat, tasks: nat, base: nat): State {
    State(true, seq(base, _ => true), peers, seq(peers, _ => base), seq(peers, _ => AckIds(seq(base, _ => true))),
          seq(peers, _ => base), 0, {0}, seq(tasks, _ => Idle), None, None, 0, false)
  }

  /** Requests which are to be acknowledged, in order. */
  function AckIds(log: seq<bool>): seq<nat> {
    if log == [] then [] else
      AckIds(log[..|log| - 1]) + if log[|log| - 1] then [|log| - 1] else []
  }

  function Run(s: State, events: seq<Event>): Option<State> {
    if events == [] then Some(s) else
      match Run(s, events[..|events| - 1])
      case None => None
      case Some(s') => if Enabled(s', events[|events| - 1]) then Some(Apply(s', events[|events| - 1])) else None
  }

  // ---------------------------------------------------------------------------
  // Acknowledged requests

  lemma AckIdsSnoc(log: seq<bool>, ack: bool)
    ensures AckIds(log + [ack]) == AckIds(log) + if ack then [|log|] else []
  {
    assert (log + [ack])[..|log|] == log;
  }

  lemma {:induction false} AckIdsPrefix(log: seq<bool>, n: nat)
    requires n <= |log|
    ensures AckIds(log[..n]) <= AckIds(log)
  {
    if n == |log| {
      assert log[..n] == log;
    } else {
      assert log[..|log| - 1][..n] == log[..n];
      AckIdsPrefix(log[..|log| - 1], n);
    }
  }

  lemma {:induction false} AllAcked(n: nat)
    ensures |AckIds(seq(n, _ => true))| == n
  {
    if n > 0 {
      assert seq(n, _ => true)[..n - 1] == seq(n - 1, _ => true);
      AllAcked(n - 1);
    }
  }

  // ---------------------------------------------------------------------------
  // The invariant

  /** Releases of the pipeline by tasks which gather a response. A shutdown uses the last barrier. */
  function Releases(s: State): int {
    if s.down then s.next - 1 else s.next
  }

  /** Each peer has answered, in order, exactly the acknowledged requests which it has applied. */
  ghost predicate StreamsAreOrdered(s: State) {
    && |s.responses| == |s.consumed| == Peers(s) && s.reached <= Peers(s)
    && forall p :: 0 <= p < Peers(s) ==> s.served[p] <= Sent(s, p) && s.responses[p] == AckIds(s.log[..s.served[p]])
  }

  ghost predicate SendSideIsOwned(s: State) {
    && (forall t :: 0 <= t < |s.phases| ==> (s.phases[t].Sending? <==> s.sender == Some(t)))
    && (s.sender.Some? ==> s.sender.value < |s.phases| && !s.free && !s.down)
    && (s.reached < Peers(s) ==> s.sender.Some?)
    && (s.down ==> !s.free && s.next > 0)
  }

  /** The request which the sender wants acknowledged. */
  function Mine(s: State): Option<nat> {
    if s.sender.Some? && PhaseOf(s, s.sender.value).Sending? then PhaseOf(s, s.sender.value).mine else None
  }

  /** Each acknowledged request was sent by a task which has released the pipeline, or is about to. */
  ghost predicate AcksAreReleased(s: State, base: nat) {
    var acks := AckIds(s.log);
    && Releases(s) >= 0
    && |acks| == base + Releases(s) + (if Mine(s).Some? then 1 else 0)
    && (Mine(s).Some? ==> acks[base + Releases(s)] == Mine(s).value)
  }

  ghost predicate ReceiveSideIsOwned(s: State) {
    && (forall i: nat :: i in s.closed <==> i <= s.finished)
    && s.finished <= Releases(s)
    && (forall t :: 0 <= t < |s.phases| ==> (s.phases[t].Gathering? || s.phases[t].Draining? <==> s.reader == Some(t)))
    && (s.reader.Some? ==> s.reader.value < |s.phases|)
  }

  /** A task's place in the chain of barriers is that of its request among acknowledged ones. */
  ghost predicate IsInPlace(s: State, base: nat, t: nat)
    requires t < |s.phases|
  {
    var acks := AckIds(s.log);
    match s.phases[t]
    case Waiting(k, r) => s.finished <= k < Releases(s) && base + k < |acks| && acks[base + k] == r
    case Gathering(k, r, got) =>
      && k == s.finished < Releases(s) && base + k < |acks| && acks[base + k] == r
      && |got| <= Peers(s) && forall p :: 0 <= p < |got| ==> got[p] == r
    case Done(k, r, got) =>
      && k < s.finished && base + k < |acks| && acks[base + k] == r
      && |got| == Peers(s) && forall p :: 0 <= p < |got| ==> got[p] == r
    case Closing(k) => s.down && k == s.next - 1
    case Draining(k, n) => s.down && k == s.next - 1 == s.finished && n <= Peers(s)
    case _ => true
  }

  ghost predicate AllInPlace(s: State, base: nat) {
    forall t :: 0 <= t < |s.phases| ==> IsInPlace(s, base, t)
  }

  predicate HasBarrier(p: Phase) {
    p.Waiting? || p.Gathering? || p.Done? || p.Closing? || p.Draining?
  }

  /** No barrier is shared. */
  ghost predicate BarriersAreDistinct(s: State) {
    && (forall t :: 0 <= t < |s.phases| && HasBarrier(s.phases[t]) ==> s.phases[t].barrier < s.next)
    && (forall t, u :: 0 <= t < u < |s.phases| && HasBarrier(s.phases[t]) && HasBarrier(s.phases[u]) ==>
      s.phases[t].barrier != s.phases[u].barrier)
  }

  /** Whether the task which gathers has a response of peer `p`. */
  predicate HasGot(s: State, p: nat) {
    s.reader.Some? && PhaseOf(s, s.reader.value).Gathering? && p < |PhaseOf(s, s.reader.value).got|
  }

  ghost predicate ConsumedIsCounted(s: State, base: nat) {
    |s.consumed| == Peers(s) && forall p :: 0 <= p < Peers(s) ==>
      s.consumed[p] == base + s.finished + if HasGot(s, p) then 1 else 0
  }

  ghost predicate Invariant(s: State, base: nat) {
    && StreamsAreOrdered(s) && SendSideIsOwned(s) && AcksAreReleased(s, base)
    && ReceiveSideIsOwned(s) && AllInPlace(s, base) && BarriersAreDistinct(s) && ConsumedIsCounted(s, base)
  }

  lemma FreshIsValid(peers: nat, tasks: nat, base: nat)
    ensures Invariant(Fresh(peers, tasks, base), base)
  {
    var s := Fresh(peers, tasks, base);
    AllAcked(base);
    assert s.log[..base] == s.log;
  }

  lemma AcquireKeeps(s: State, base: nat, t: nat)
    requires Invariant(s, base) && Enabled(s, Acquire(t))
    ensures Invariant(Apply(s, Acquire(t)), base)
  {
    hide AckIds;
    var s' := Apply(s, Acquire(t));
    forall u | 0 <= u < |s'.phases|
      ensures IsInPlace(s', base, u)
    {
      assert IsInPlace(s, base, u);
    }
  }

  /** A longer log has the same leading acknowledged requests. */
  lemma LogGrows(s: State, base: nat, ack: bool, t: nat)
    requires StreamsAreOrdered(s) && t < |s.phases| && IsInPlace(s, base, t) && IsScattered(s)
    ensures IsInPlace(s.(log := s.log + [ack], reached := 0), base, t)
    ensures StreamsAreOrdered(s.(log := s.log + [ack], reached := 0))
  {
    AckIdsSnoc(s.log, ack);
    var s' := s.(log := s.log + [ack], reached := 0);
    forall p | 0 <= p < Peers(s)
      ensures s'.served[p] <= Sent(s', p) && s'.responses[p] == AckIds(s'.log[..s'.served[p]])
    {
      assert s'.log[..s.served[p]] == s.log[..s.served[p]];
    }
  }

  lemma ScatterKeeps(s: State, base: nat, t: nat, ack: bool)
    requires Invariant(s, base) && Enabled(s, Scatter(t, ack))
    ensures Invariant(Apply(s, Scatter(t, ack)), base)
  {
    hide AckIds;
    AckIdsSnoc(s.log, ack);
    var s' := Apply(s, Scatter(t, ack));
    LogGrows(s, base, ack, t);
    forall u | 0 <= u < |s'.phases|
      ensures IsInPlace(s', base, u)
    {
      LogGrows(s, base, ack, u);
    }
    assert Mine(s) == None;
  }

  lemma SendKeeps(s: State, base: nat, t: nat)
    requires Invariant(s, base) && Enabled(s, Send(t))
    ensures Invariant(Apply(s, Send(t)), base)
  {
    hide AckIds;
    var s' := Apply(s, Send(t));
    forall u | 0 <= u < |s'.phases|
      ensures IsInPlace(s', base, u)
    {
      assert IsInPlace(s, base, u);
    }
  }

  lemma ReleaseKeeps(s: State, base: nat, t: nat)
    requires Invariant(s, base) && Enabled(s, Release(t))
    ensures Invariant(Apply(s, Release(t)), base)
  {
    hide AckIds;
    var s' := Apply(s, Release(t));
    assert Mine(s) == s.phases[t].mine;
    forall u | 0 <= u < |s'.phases|
      ensures IsInPlace(s', base, u)
    {
      assert IsInPlace(s, base, u);
    }
  }

  lemma ReleaseEarlyKeeps(s: State, base: nat, t: nat)
    requires Invariant(s, base) && Enabled(s, ReleaseEarly(t))
    ensures Invariant(Apply(s, ReleaseEarly(t)), base)
  {
    hide AckIds;
    var s' := Apply(s, ReleaseEarly(t));
    forall u | 0 <= u < |s'.phases|
      ensures IsInPlace(s', base, u)
    {
      assert IsInPlace(s, base, u);
    }
  }

  lemma ShutdownKeeps(s: State, base: nat, t: nat)
    requires Invariant(s, base) && Enabled(s, Shutdown(t))
    ensures Invariant(Apply(s, Shutdown(t)), base)
  {
    hide AckIds;
    var s' := Apply(s, Shutdown(t));
    forall u | 0 <= u < |s'.phases|
      ensures IsInPlace(s', base, u)
    {
      assert IsInPlace(s, base, u);
    }
  }

  /** A task which passes its barrier is alone on the receive side. */
  lemma NoOtherReader(s: State, base: nat, t: nat)
    requires Invariant(s, base) && (Enabled(s, Pass(t)) || Enabled(s, PassClosing(t)))
    ensures s.reader == None && s.phases[t].barrier == s.finished
  {
    hide AckIds;
    assert IsInPlace(s, base, t);
    forall u | 0 <= u < |s.phases|
      ensures s.reader != Some(u)
    {
      assert IsInPlace(s, base, u);
    }
  }

  lemma PassKeeps(s: State, base: nat, t: nat)
    requires Invariant(s, base) && Enabled(s, Pass(t))
    ensures Invariant(Apply(s, Pass(t)), base)
  {
    hide AckIds;
    var s' := Apply(s, Pass(t));
    NoOtherReader(s, base, t);
    forall u | 0 <= u < |s'.phases|
      ensures IsInPlace(s', base, u)
    {
      assert IsInPlace(s, base, u);
    }
  }

  lemma PassClosingKeeps(s: State, base: nat, t: nat)
    requires Invariant(s, base) && Enabled(s, PassClosing(t))
    ensures Invariant(Apply(s, PassClosing(t)), base)
  {
    hide AckIds;
    var s' := Apply(s, PassClosing(t));
    NoOtherReader(s, base, t);
    forall u | 0 <= u < |s'.phases|
      ensures IsInPlace(s', base, u)
    {
      assert IsInPlace(s, base, u);
    }
  }

  /** The response which is received next is that to the task's own request. */
  lemma ReceivesOwnResponse(s: State, base: nat, t: nat)
    requires Invariant(s, base) && Enabled(s, Recv(t))
    ensures var p := |s.phases[t].got|; s.responses[p][s.consumed[p]] == s.phases[t].request
  {
    assert IsInPlace(s, base, t);
    var p := |s.phases[t].got|;
    assert s.reader == Some(t) && !HasGot(s, p);
    assert s.consumed[p] == base + s.phases[t].barrier;
    assert s.served[p] <= |s.log|;
    AckIdsPrefix(s.log, s.served[p]);
  }

  lemma RecvKeeps(s: State, base: nat, t: nat)
    requires Invariant(s, base) && Enabled(s, Recv(t))
    ensures Invariant(Apply(s, Recv(t)), base)
  {
    hide AckIds;
    var s' := Apply(s, Recv(t));
    ReceivesOwnResponse(s, base, t);
    forall u | 0 <= u < |s'.phases|
      ensures IsInPlace(s', base, u)
    {
      assert IsInPlace(s, base, u);
    }
    assert s.reader == Some(t);
    forall p | 0 <= p < Peers(s')
      ensures s'.consumed[p] == base + s'.finished + if HasGot(s', p) then 1 else 0
    {
      assert HasGot(s', p) <==> HasGot(s, p) || p == |s.phases[t].got|;
    }
  }

  lemma FinishKeeps(s: State, base: nat, t: nat)
    requires Invariant(s, base) && Enabled(s, Finish(t))
    ensures Invariant(Apply(s, Finish(t)), base)
  {
    hide AckIds;
    var s' := Apply(s, Finish(t));
    assert s.reader == Some(t) && IsInPlace(s, base, t);
    forall u | 0 <= u < |s'.phases|
      ensures IsInPlace(s', base, u)
    {
      assert IsInPlace(s, base, u);
      if u != t && HasBarrier(s.phases[u]) {
        assert s.phases[u].barrier != s.phases[t].barrier;
      }
    }
    assert forall p :: 0 <= p < Peers(s) ==> HasGot(s, p) && !HasGot(s', p);
  }

  lemma RecvEofKeeps(s: State, base: nat, t: nat)
    requires Invariant(s, base) && Enabled(s, RecvEof(t))
    ensures Invariant(Apply(s, RecvEof(t)), base)
  {
    hide AckIds;
    var s' := Apply(s, RecvEof(t));
    forall u | 0 <= u < |s'.phases|
      ensures IsInPlace(s', base, u)
    {
      assert IsInPlace(s, base, u);
    }
  }

  /** A peer serves its next request, and nothing else changes. */
  lemma ServeEffect(s: State, p: nat)
    requires StreamsAreOrdered(s) && Enabled(s, Serve(p))
    ensures p < Peers(s) && s.served[p] < |s.log| && s.served[p] < Sent(s, p)
    ensures var n, s' := s.served[p], Apply(s, Serve(p));
            && s' == s.(served := s'.served, responses := s'.responses)
            && s'.served == s.served[p := n + 1]
            && s'.responses == s.responses[p := s.responses[p] + if s.log[n] then [n] else []]
  {
    hide AckIds;
    assert s.responses[p] + [] == s.responses[p];
    assert s.responses[p := s.responses[p]] == s.responses;
  }

  lemma AckIdsStep(log: seq<bool>, n: nat)
    requires n < |log|
    ensures AckIds(log[..n + 1]) == AckIds(log[..n]) + if log[n] then [n] else []
  {
    assert log[..n + 1] == log[..n] + [log[n]];
    AckIdsSnoc(log[..n], log[n]);
  }

  lemma ServeKeepsOrder(s: State, p: nat)
    requires StreamsAreOrdered(s) && Enabled(s, Serve(p))
    ensures StreamsAreOrdered(Apply(s, Serve(p)))
  {
    ServeEffect(s, p);
    AckIdsStep(s.log, s.served[p]);
    hide AckIds, Apply, Enabled;
  }

  lemma ServeKeeps(s: State, base: nat, p: nat)
    requires Invariant(s, base) && Enabled(s, Serve(p))
    ensures Invariant(Apply(s, Serve(p)), base)
  {
    ServeKeepsOrder(s, p);
    ServeEffect(s, p);
    hide AckIds, StreamsAreOrdered, Apply, Enabled;
    var s' := Apply(s, Serve(p));
    forall u | 0 <= u < |s'.phases|
      ensures IsInPlace(s', base, u)
    {
      assert IsInPlace(s, base, u);
    }
  }

  lemma StepKeeps(s: State, base: nat, e: Event)
    requires Invariant(s, base) && Enabled(s, e)
    ensures Invariant(Apply(s, e), base)
  {
    hide Invariant, Enabled, Apply;
    match e
    case Acquire(t) => AcquireKeeps(s, base, t);
    case Scatter(t, ack) => ScatterKeeps(s, base, t, ack);
    case Send(t) => SendKeeps(s, base, t);
    case Release(t) => ReleaseKeeps(s, base, t);
    case ReleaseEarly(t) => ReleaseEarlyKeeps(s, base, t);
    case Pass(t) => PassKeeps(s, base, t);
    case Recv(t) => RecvKeeps(s, base, t);
    case Finish(t) => FinishKeeps(s, base, t);
    case Shutdown(t) => ShutdownKeeps(s, base, t);
    case PassClosing(t) => PassClosingKeeps(s, base, t);
    case RecvEof(t) => RecvEofKeeps(s, base, t);
    case Serve(p) => ServeKeeps(s, base, p);
  }

  // ---------------------------------------------------------------------------
  // What holds of every run

  lemma {:induction false} RunKeeps(peers: nat, tasks: nat, base: nat, events: seq<Event>)
    ensures Run(Fresh(peers, tasks, base), events).Some? ==>
            Invariant(Run(Fresh(peers, tasks, base), events).value, base)
  {
    hide Invariant, Enabled, Apply, Fresh;
    if events == [] {
      FreshIsValid(peers, tasks, base);
    } else {
      var init, last := events[..|events| - 1], events[|events| - 1];
      RunKeeps(peers, tasks, base, init);
      var r := Run(Fresh(peers, tasks, base), init);
      if r.Some? && Enabled(r.value, last) {
        StepKeeps(r.value, base, last);
      }
    }
  }

  ghost predicate IsReachable(s: State, peers: nat, tasks: nat, base: nat) {
    exists events :: Run(Fresh(peers, tasks, base), events) == Some(s)
  }

  lemma ReachableIsValid(s: State, peers: nat, tasks: nat, base: nat)
    requires IsReachable(s, peers, tasks, base)
    ensures Invariant(s, base)
  {
    var events :| Run(Fresh(peers, tasks, base), events) == Some(s);
    RunKeeps(peers, tasks, base, events);
  }

  predicate OwnsSend(p: Phase) {
    p.Sending?
  }

  predicate OwnsReceive(p: Phase) {
    p.Gathering? || p.Draining?
  }

  /**
   * At most one task owns the send side, and then the pipeline isn't in its channel; at most one owns the receive side.
   */
  lemma SidesAreOwnedOnce(s: State, peers: nat, tasks: nat, base: nat, t: nat, u: nat)
    requires IsReachable(s, peers, tasks, base) && t < |s.phases| && u < |s.phases|
    ensures OwnsSend(s.phases[t]) ==> !s.free
    ensures OwnsSend(s.phases[t]) && OwnsSend(s.phases[u]) ==> t == u
    ensures OwnsReceive(s.phases[t]) && OwnsReceive(s.phases[u]) ==> t == u
  {
    hide IsReachable, AckIds, StreamsAreOrdered, AcksAreReleased, AllInPlace, BarriersAreDistinct, ConsumedIsCounted;
    ReachableIsValid(s, peers, tasks, base);
  }

  /**
   * The task which released the pipeline as the `k`-th has gathered, from every peer, the response to the `k`-th
   * acknowledged request since synchronization, which is the one it sent.
   */
  lemma ResponsesMatchRequests(s: State, peers: nat, tasks: nat, base: nat, t: nat)
    requires IsReachable(s, peers, tasks, base) && t < |s.phases| && s.phases[t].Done?
    ensures var d := s.phases[t];
      && base + d.barrier < |AckIds(s.log)| && AckIds(s.log)[base + d.barrier] == d.request
      && |d.got| == Peers(s) && forall p :: 0 <= p < Peers(s) ==> d.got[p] == d.request
  {
    hide IsReachable, AckIds, StreamsAreOrdered, SendSideIsOwned, AcksAreReleased, ReceiveSideIsOwned;
    hide BarriersAreDistinct, ConsumedIsCounted;
    ReachableIsValid(s, peers, tasks, base);
    assert IsInPlace(s, base, t);
  }

  /** When a pipeline is shut down and a peer has served all requests, none of its responses is left to be read. */
  lemma ShutdownIsClean(s: State, peers: nat, tasks: nat, base: nat, t: nat, p: nat)
    requires IsReachable(s, peers, tasks, base) && t < |s.phases| && s.phases[t].Draining? && p < Peers(s)
    requires s.served[p] == Sent(s, p)
    ensures |s.consumed| == |s.responses| == Peers(s) && s.consumed[p] == |s.responses[p]| && s.served[p] == |s.log|
  {
    hide IsReachable, BarriersAreDistinct;
    ReachableIsValid(s, peers, tasks, base);
    assert IsInPlace(s, base, t);
    assert s.reader == Some(t) && s.sender == None;
    assert s.log[..|s.log|] == s.log;
  }

  // ---------------------------------------------------------------------------
  // The pipeline is always handed on

  ghost predicate HoldsBarrier(s: State, t: nat, k: nat) {
    t < |s.phases| && HasBarrier(s.phases[t]) && s.phases[t].barrier == k
  }

  ghost predicate IsHeld(s: State, k: nat) {
    exists t :: HoldsBarrier(s, t, k)
  }

  /**
   * The pipeline is in its channel unless a task has it, and each barrier was given to a task. A request which isn't
   * sent to all peers, and is to be acknowledged, is that of the sender.
   */
  ghost predicate IsHandedOn(s: State) {
    && (s.free <==> s.sender == None && !s.down)
    && (forall k: nat :: k < s.next ==> IsHeld(s, k))
    && (s.reached < Peers(s) && s.log != [] && s.log[|s.log| - 1] ==> Mine(s).Some?)
  }

  /** A task keeps the barrier which it was given. */
  lemma BarrierIsKept(s: State, s': State, t: nat)
    requires t < |s.phases| == |s'.phases| && s'.phases == s.phases[t := s'.phases[t]]
    requires HasBarrier(s.phases[t]) ==> HasBarrier(s'.phases[t]) && s'.phases[t].barrier == s.phases[t].barrier
    ensures forall k: nat :: IsHeld(s, k) ==> IsHeld(s', k)
  {
    forall k: nat | IsHeld(s, k)
      ensures IsHeld(s', k)
    {
      var u :| HoldsBarrier(s, u, k);
      assert HoldsBarrier(s', u, k);
    }
  }

  lemma StepHandsOn(s: State, base: nat, e: Event)
    requires Invariant(s, base) && IsHandedOn(s) && Enabled(s, e)
    ensures IsHandedOn(Apply(s, e))
  {
    hide AckIds, IsHeld, StreamsAreOrdered, AcksAreReleased, AllInPlace, ConsumedIsCounted, BarriersAreDistinct;
    hide ReceiveSideIsOwned;
    var s' := Apply(s, e);
    if e.Serve? {
      PhasesKeepBarriers(s, s');
    } else {
      BarrierIsKept(s, s', e.task);
      if e.Release? || e.Shutdown? {
        assert HoldsBarrier(s', e.task, s.next);
        NextIsHeld(s', e.task, s.next);
      }
    }
  }

  lemma NextIsHeld(s: State, t: nat, k: nat)
    requires HoldsBarrier(s, t, k)
    ensures IsHeld(s, k)
  {
  }

  lemma PhasesKeepBarriers(s: State, s': State)
    requires s.phases == s'.phases
    ensures forall k: nat :: IsHeld(s, k) ==> IsHeld(s', k)
  {
    forall k: nat | IsHeld(s, k)
      ensures IsHeld(s', k)
    {
      var u :| HoldsBarrier(s, u, k);
      assert HoldsBarrier(s', u, k);
    }
  }

  lemma {:induction false} RunHandsOn(peers: nat, tasks: nat, base: nat, events: seq<Event>)
    ensures Run(Fresh(peers, tasks, base), events).Some? ==> IsHandedOn(Run(Fresh(peers, tasks, base), events).value)
  {
    if events != [] {
      var init, last := events[..|events| - 1], events[|events| - 1];
      RunHandsOn(peers, tasks, base, init);
      RunKeeps(peers, tasks, base, init);
      hide Invariant, Enabled, Apply, Fresh, IsHandedOn;
      var r := Run(Fresh(peers, tasks, base), init);
      if r.Some? && Enabled(r.value, last) {
        StepHandsOn(r.value, base, last);
      }
    }
  }

  /** Peers were sent every acknowledged request of tasks which have released the pipeline. */
  lemma ReleasedAreSent(s: State, base: nat, p: nat)
    requires Invariant(s, base) && IsHandedOn(s) && p < Peers(s)
    ensures Sent(s, p) <= |s.log| && |AckIds(s.log[..Sent(s, p)])| >= base + Releases(s)
  {
    hide AllInPlace, BarriersAreDistinct, ConsumedIsCounted, ReceiveSideIsOwned, IsHeld;
    if Sent(s, p) == |s.log| {
      assert s.log[..|s.log|] == s.log;
    } else {
      var init, last := s.log[..|s.log| - 1], s.log[|s.log| - 1];
      assert s.log == init + [last];
      AckIdsSnoc(init, last);
    }
  }

  /** The peer which a gathering task waits for has a response to be received, or requests to apply. */
  lemma PeerCanServe(s: State, base: nat, t: nat)
    requires Invariant(s, base) && IsHandedOn(s) && t < |s.phases| && s.phases[t].Gathering?
             && |s.phases[t].got| < Peers(s)
    ensures Enabled(s, Recv(t)) || Enabled(s, Serve(|s.phases[t].got|))
  {
    hide AckIds, AcksAreReleased, BarriersAreDistinct, IsHeld;
    assert IsInPlace(s, base, t);
    var p := |s.phases[t].got|;
    ReleasedAreSent(s, base, p);
    assert s.reader == Some(t) && !HasGot(s, p);
    assert s.consumed[p] == base + s.finished;
  }

  predicate IsBusy(p: Phase, peers: nat) {
    p.Sending? || p.Waiting? || p.Gathering? || p.Closing? || (p.Draining? && p.eofs < peers)
  }

  /** What callers ask of the pipeline: to acquire it, and to send a request which isn't acknowledged. */
  predicate IsInput(e: Event) {
    e.Acquire? || (e.Scatter? && !e.ack)
  }

  /** The task which the chain of barriers has reached can go on, or a peer which it waits for can. */
  lemma ReaderCanStep(s: State, base: nat, t: nat) returns (e: Event)
    requires Invariant(s, base) && IsHandedOn(s) && HoldsBarrier(s, t, s.finished) && IsBusy(s.phases[t], Peers(s))
    ensures Enabled(s, e) && !IsInput(e)
  {
    hide AckIds, IsHeld;
    assert IsInPlace(s, base, t);
    match s.phases[t]
    case Waiting(k, _) => e := Pass(t);
    case Closing(k) => e := PassClosing(t);
    case Gathering(k, _, got) =>
      if |got| == Peers(s) {
        e := Finish(t);
      } else {
        PeerCanServe(s, base, t);
        e := if Enabled(s, Recv(t)) then Recv(t) else Serve(|got|);
      }
    case Draining(k, n) =>
      e := if s.served[n] < Sent(s, n) then Serve(n) else RecvEof(t);
      if s.served[n] == Sent(s, n) {
        DrainedIsConsumed(s, base, t, n);
      }
  }

  lemma DrainedIsConsumed(s: State, base: nat, t: nat, p: nat)
    requires Invariant(s, base) && t < |s.phases| && s.phases[t].Draining? && p < Peers(s) && s.served[p] == Sent(s, p)
    ensures s.consumed[p] == |s.responses[p]|
  {
    assert IsInPlace(s, base, t);
    assert s.reader == Some(t) && s.sender == None;
    assert s.log[..|s.log|] == s.log;
  }

  lemma SenderCanStep(s: State, base: nat, t: nat) returns (e: Event)
    requires Invariant(s, base) && t < |s.phases| && s.phases[t].Sending?
    ensures Enabled(s, e) && !IsInput(e)
  {
    hide AckIds;
    e := if s.reached < Peers(s) then Send(t) else if s.phases[t].mine.Some? then Release(t) else ReleaseEarly(t);
  }

  /** The barrier which the chain has reached is held by a task which isn't done. */
  lemma ReaderIsBusy(s: State, base: nat, t: nat) returns (u: nat)
    requires Invariant(s, base) && IsHandedOn(s) && t < |s.phases| && IsBusy(s.phases[t], Peers(s))
             && !s.phases[t].Sending?
    ensures HoldsBarrier(s, u, s.finished) && IsBusy(s.phases[u], Peers(s))
  {
    hide AckIds, StreamsAreOrdered, AcksAreReleased, ConsumedIsCounted, SendSideIsOwned;
    assert IsInPlace(s, base, t);
    assert IsHeld(s, s.finished);
    u :| HoldsBarrier(s, u, s.finished);
    assert IsInPlace(s, base, u);
    if s.phases[u].Draining? && u != t {
      assert s.phases[t].barrier != s.phases[u].barrier;
    }
  }

  /** No deadlock: while a task is busy, some task or peer can step, without further input. */
  lemma PipelineMakesProgress(s: State, peers: nat, tasks: nat, base: nat, t: nat) returns (e: Event)
    requires IsReachable(s, peers, tasks, base) && t < |s.phases| && IsBusy(s.phases[t], Peers(s))
    ensures Enabled(s, e) && !IsInput(e)
  {
    hide Run, Fresh, Enabled, Invariant, IsHandedOn, HoldsBarrier;
    var events :| Run(Fresh(peers, tasks, base), events) == Some(s);
    RunKeeps(peers, tasks, base, events);
    RunHandsOn(peers, tasks, base, events);
    if s.phases[t].Sending? {
      e := SenderCanStep(s, base, t);
    } else {
      var u := ReaderIsBusy(s, base, t);
      e := ReaderCanStep(s, base, u);
    }
  }

  /** A task which wants the pipeline can have it, unless it's shut down, or until a task which sends releases it. */
  lemma IdleTaskCanAcquire(s: State, peers: nat, tasks: nat, base: nat, t: nat)
    requires IsReachable(s, peers, tasks, base) && t < |s.phases| && s.phases[t] == Idle && !s.down
    ensures Enabled(s, Acquire(t)) || exists u :: 0 <= u < |s.phases| && OwnsSend(s.phases[u])
  {
    var events :| Run(Fresh(peers, tasks, base), events) == Some(s);
    RunKeeps(peers, tasks, base, events);
    RunHandsOn(peers, tasks, base, events);
    hide Run, Fresh;
    if s.sender.Some? {
      assert OwnsSend(s.phases[s.sender.value]);
    }
  }
}

/**
 * Every task of a replication pipeline finishes (v2/pkg/broker/pipeline.go, replica.go and replicate_api.go): steps are
 * bounded by what callers ask of the pipeline, and it can't stop before all is done.
 */
module PipelineWork {
  import opened Common
  import opened Pipeline

  /** Steps which a task has yet to take, and those which it causes. */
  function Rank(p: Phase, peers: nat): nat {
    match p
    case Idle => 0
    case Sending(None) => 3 * peers + 4
    case Sending(Some(_)) => peers + 3
    case Waiting(_, _) => peers + 2
    case Gathering(_, _, got) => 1 + if |got| <= peers then peers - |got| else 0
    case Done(_, _, _) => 0
    case Left => 0
    case Closing(_) => peers + 1
    case Draining(_, n) => if n <= peers then peers - n else 0
  }

  function TaskWork(phases: seq<Phase>, peers: nat): nat {
    if phases == [] then 0 else TaskWork(phases[..|phases| - 1], peers) + Rank(phases[|phases| - 1], peers)
  }

  /** Requests of `n` which peers have yet to serve. */
  function Unserved(served: seq<nat>, n: nat): nat {
    if served == [] then 0 else
      var last := served[|served| - 1];
      Unserved(served[..|served| - 1], n) + if last <= n then n - last else 0
  }

  /** Peers which aren't sent the latest request yet. */
  function Unreached(s: State): nat {
    if s.reached <= Peers(s) then Peers(s) - s.reached else 0
  }

  /** What's left to be done, if nobody asks for more. */
  function Work(s: State): nat {
    TaskWork(s.phases, Peers(s)) + Unserved(s.served, |s.log|) + Unreached(s)
  }

  lemma {:induction false} TaskWorkUpdate(phases: seq<Phase>, peers: nat, t: nat, p: Phase)
    requires t < |phases|
    ensures TaskWork(phases[t := p], peers) + Rank(phases[t], peers) == TaskWork(phases, peers) + Rank(p, peers)
  {
    hide Rank;
    var n := |phases| - 1;
    if t == n {
      assert phases[t := p][..n] == phases[..n];
    } else {
      assert phases[t := p][..n] == phases[..n][t := p];
      TaskWorkUpdate(phases[..n], peers, t, p);
    }
  }

  lemma {:induction false} UnservedServe(served: seq<nat>, n: nat, p: nat)
    requires p < |served| && served[p] < n
    ensures Unserved(served[p := served[p] + 1], n) + 1 == Unserved(served, n)
  {
    var m := |served| - 1;
    if p == m {
      assert served[p := served[p] + 1][..m] == served[..m];
    } else {
      assert served[p := served[p] + 1][..m] == served[..m][p := served[p] + 1];
      UnservedServe(served[..m], n, p);
    }
  }

  lemma {:induction false} UnservedGrows(served: seq<nat>, n: nat)
    requires forall p :: 0 <= p < |served| ==> served[p] <= n
    ensures Unserved(served, n + 1) == Unserved(served, n) + |served|
  {
    if served != [] {
      UnservedGrows(served[..|served| - 1], n);
    }
  }

  lemma ServedIsLogged(s: State, base: nat)
    requires Invariant(s, base)
    ensures s.reached <= Peers(s) && forall p :: 0 <= p < Peers(s) ==> s.served[p] <= |s.log|
  {
    hide AckIds, SendSideIsOwned, AcksAreReleased, ReceiveSideIsOwned, AllInPlace, BarriersAreDistinct;
    hide ConsumedIsCounted;
  }

  lemma PhaseIsBounded(s: State, base: nat, t: nat)
    requires Invariant(s, base) && t < |s.phases|
    ensures s.phases[t].Gathering? ==> |s.phases[t].got| <= Peers(s)
  {
    hide AckIds, SendSideIsOwned, AcksAreReleased, ReceiveSideIsOwned, StreamsAreOrdered, BarriersAreDistinct;
    hide ConsumedIsCounted;
    assert IsInPlace(s, base, t);
  }

  /** What an event adds to the work, itself included. */
  function Added(e: Event, peers: nat): nat {
    match e
    case Acquire(_) => 3 * peers + 5
    case Scatter(_, ack) => if ack then 0 else 2 * peers + 1
    case _ => 0
  }

  /** A step of a task changes just its phase, and lowers its rank by more than it causes of peers. */
  lemma TaskStep(s: State, e: Event)
    requires Enabled(s, e) && !e.Serve? && s.reached <= Peers(s)
    requires PhaseOf(s, e.task).Gathering? ==> |PhaseOf(s, e.task).got| <= Peers(s)
    ensures var s' := Apply(s, e);
            && e.task < |s.phases| && s'.phases == s.phases[e.task := s'.phases[e.task]] && s'.served == s.served
            && |s'.log| == |s.log| + (if e.Scatter? then 1 else 0)
            && Rank(s'.phases[e.task], Peers(s)) + Unreached(s') + (if e.Scatter? then Peers(s) else 0) + 1
               <= Rank(s.phases[e.task], Peers(s)) + Unreached(s) + Added(e, Peers(s))
  {
  }

  lemma ServeStep(s: State, p: nat)
    requires Enabled(s, Serve(p))
    ensures var s' := Apply(s, Serve(p));
            && p < |s.served| && s.served[p] < |s.log| && s'.served == s.served[p := s.served[p] + 1]
            && s'.phases == s.phases && s'.log == s.log && Unreached(s') == Unreached(s)
  {
  }

  /** Each step of a task or peer is work done. Only what callers ask for adds to it. */
  lemma StepIsWork(s: State, base: nat, e: Event)
    requires Invariant(s, base) && Enabled(s, e)
    ensures Work(Apply(s, e)) + 1 <= Work(s) + Added(e, Peers(s))
  {
    hide Invariant, TaskWork, Unserved, Rank, Enabled, Apply, Unreached;
    ServedIsLogged(s, base);
    if e.Serve? {
      ServeStep(s, e.peer);
      UnservedServe(s.served, |s.log|, e.peer);
    } else {
      if e.task < |s.phases| {
        PhaseIsBounded(s, base, e.task);
      }
      TaskStep(s, e);
      hide Added;
      TaskWorkUpdate(s.phases, Peers(s), e.task, Apply(s, e).phases[e.task]);
      UnservedGrows(s.served, |s.log|);
    }
  }

  function AddedBy(events: seq<Event>, peers: nat): nat {
    if events == [] then 0 else AddedBy(events[..|events| - 1], peers) + Added(events[|events| - 1], peers)
  }

  lemma PeersAreKept(s: State, e: Event)
    requires Enabled(s, e)
    ensures Peers(Apply(s, e)) == Peers(s)
  {
  }

  /** The steps of a run, and the work which remains, are no more than what callers have asked for. */
  lemma {:induction false} RunIsBounded(peers: nat, tasks: nat, base: nat, events: seq<Event>)
    ensures var r := Run(Fresh(peers, tasks, base), events);
            r.Some? ==> Peers(r.value) == peers && Work(r.value) + |events| <= AddedBy(events, peers)
  {
    hide Invariant, Enabled, Apply, Work, Added, Fresh;
    if events == [] {
      FreshHasNoWork(peers, tasks, base);
    } else {
      var init, last := events[..|events| - 1], events[|events| - 1];
      RunIsBounded(peers, tasks, base, init);
      RunKeeps(peers, tasks, base, init);
      var r := Run(Fresh(peers, tasks, base), init);
      if r.Some? && Enabled(r.value, last) {
        StepIsWork(r.value, base, last);
        PeersAreKept(r.value, last);
      }
    }
  }

  lemma FreshHasNoWork(peers: nat, tasks: nat, base: nat)
    ensures Peers(Fresh(peers, tasks, base)) == peers && Work(Fresh(peers, tasks, base)) == 0
  {
    NoTaskWork(seq(tasks, _ => Idle), peers);
    AllServed(seq(peers, _ => base), base);
  }

  lemma {:induction false} NoTaskWork(phases: seq<Phase>, peers: nat)
    requires forall t :: 0 <= t < |phases| ==> phases[t] == Idle
    ensures TaskWork(phases, peers) == 0
  {
    if phases != [] {
      NoTaskWork(phases[..|phases| - 1], peers);
    }
  }

  lemma {:induction false} AllServed(served: seq<nat>, n: nat)
    requires forall p :: 0 <= p < |served| ==> served[p] == n
    ensures Unserved(served, n) == 0
  {
    if served != [] {
      AllServed(served[..|served| - 1], n);
    }
  }

  /**
   * Whichever steps tasks and peers take, if nobody asks for more, then they come to an end, and no task is left busy.
   */
  lemma {:induction false} AllFinish(peers: nat, tasks: nat, base: nat, events: seq<Event>, more: seq<Event>)
    requires Run(Fresh(peers, tasks, base), events).Some? && Run(Fresh(peers, tasks, base), events + more).Some?
    requires forall i :: 0 <= i < |more| ==> !IsInput(more[i])
    ensures |more| <= Work(Run(Fresh(peers, tasks, base), events).value)
    ensures var s' := Run(Fresh(peers, tasks, base), events + more).value;
            (forall t :: 0 <= t < |s'.phases| && IsBusy(s'.phases[t], peers) ==> CanStep(s'))
  {
    hide Run, Fresh, Invariant, Enabled, Apply, Work, Added, IsBusy;
    MoreIsWork(peers, tasks, base, events, more);
    var s' := Run(Fresh(peers, tasks, base), events + more).value;
    RunIsBounded(peers, tasks, base, events + more);
    assert IsReachable(s', peers, tasks, base);
    forall t | 0 <= t < |s'.phases| && IsBusy(s'.phases[t], peers) ensures CanStep(s') {
      var e := PipelineMakesProgress(s', peers, tasks, base, t);
    }
  }

  /** Some task or peer can step without further input. */
  ghost predicate CanStep(s: State) {
    exists e :: Enabled(s, e) && !IsInput(e)
  }

  lemma {:induction false} MoreIsWork(peers: nat, tasks: nat, base: nat, events: seq<Event>, more: seq<Event>)
    requires Run(Fresh(peers, tasks, base), events).Some? && Run(Fresh(peers, tasks, base), events + more).Some?
    requires forall i :: 0 <= i < |more| ==> !IsInput(more[i])
    ensures Work(Run(Fresh(peers, tasks, base), events + more).value) + |more|
         <= Work(Run(Fresh(peers, tasks, base), events).value)
    decreases |more|
  {
    hide Fresh, Invariant, Enabled, Apply, Work;
    if more == [] {
      assert events + more == events;
    } else {
      var init, last := more[..|more| - 1], more[|more| - 1];
      assert (events + more)[..|events + more| - 1] == events + init && (events + more)[|events + more| - 1] == last;
      MoreIsWork(peers, tasks, base, events, init);
      RunKeeps(peers, tasks, base, events + init);
      StepIsWork(Run(Fresh(peers, tasks, base), events + init).value, base, last);
    }
  }

  /** From every reachable state there's a run, without further input, after which no task is busy. */
  lemma {:induction false} CanFinish(s: State, peers: nat, tasks: nat, base: nat, events: seq<Event>)
    returns (more: seq<Event>, s': State)
    requires Run(Fresh(peers, tasks, base), events) == Some(s)
    ensures Run(Fresh(peers, tasks, base), events + more) == Some(s') && |more| <= Work(s)
    ensures forall i :: 0 <= i < |more| ==> !IsInput(more[i])
    ensures forall t :: 0 <= t < |s'.phases| ==> !IsBusy(s'.phases[t], peers)
    decreases Work(s)
  {
    hide Fresh, Invariant, Enabled, Apply, Work, IsBusy;
    RunIsBounded(peers, tasks, base, events);
    if t :| 0 <= t < |s.phases| && IsBusy(s.phases[t], peers) {
      assert IsReachable(s, peers, tasks, base);
      var e := PipelineMakesProgress(s, peers, tasks, base, t);
      RunKeeps(peers, tasks, base, events);
      StepIsWork(s, base, e);
      assert (events + [e])[..|events|] == events;
      var rest;
      rest, s' := CanFinish(Apply(s, e), peers, tasks, base, events + [e]);
      more := [e] + rest;
      assert events + more == events + [e] + rest;
    } else {
      more, s' := [], s;
      assert events + more == events;
    }
  }
}

/**
 * Batched transactions of the allocator (v2/pkg/allocator/allocator.go): checkpoints are queued, and flushed
 * together in as few transactions as their size allows. What keys hold does not matter here.
 */
module BatchedTxn {
  import DeadAssignments
  import ItemPlan
  import ItemState

  /** A comparison of the Item at an index, of a dead Assignment, or a fixed one: that a Member's key is unchanged. */
  datatype Cmp = CmpOf(item: nat, cmp: ItemState.Cmp) | CmpOfDead(dead: DeadAssignments.Cmp) | Leader(member: int)

  /** An operation on an Assignment of the Item at an index, or the deletion of a dead one. */
  datatype Op = OpOf(item: nat, op: ItemPlan.Op) | DeleteDead(index: nat)

  /** Etcd's limit on the comparisons, and on the operations, of a transaction. */
  const MaxTxnOps := 128

  /** The comparisons and operations between two calls of Checkpoint, which must stay together. */
  datatype Check = Check(cmps: seq<Cmp>, ops: seq<Op>)

  datatype Txn = Txn(cmps: seq<Cmp>, ops: seq<Op>)

  function CmpsOf(group: seq<Check>): seq<Cmp> {
    if group == [] then [] else CmpsOf(group[..|group| - 1]) + group[|group| - 1].cmps
  }

  function OpsOf(group: seq<Check>): seq<Op> {
    if group == [] then [] else OpsOf(group[..|group| - 1]) + group[|group| - 1].ops
  }

  /** The transaction which issues a group of checkpoints. */
  function TxnOf(fixed: seq<Cmp>, group: seq<Check>): Txn {
    Txn(fixed + CmpsOf(group), OpsOf(group))
  }

  /** Every transaction with operations carries the fixed comparisons; one without any checkpoint may not. */
  predicate IssuedAs(fixed: seq<Cmp>, txn: Txn, group: seq<Check>) {
    txn == TxnOf(fixed, group) || (group == [] && txn == Txn([], []))
  }

  ghost predicate AreIssued(fixed: seq<Cmp>, txns: seq<Txn>, groups: seq<seq<Check>>) {
    |txns| == |groups| && forall g :: 0 <= g < |txns| ==> IssuedAs(fixed, txns[g], groups[g])
  }

  lemma IssuedSnoc(fixed: seq<Cmp>, txns: seq<Txn>, groups: seq<seq<Check>>, txn: Txn, group: seq<Check>)
    requires AreIssued(fixed, txns, groups) && IssuedAs(fixed, txn, group)
    ensures AreIssued(fixed, txns + [txn], groups + [group])
  {
    hide IssuedAs;
  }

  // ---------------------------------------------------------------------------
  // How checkpoints are grouped

  /** Groups which were flushed, and the one being filled. */
  datatype Batches = Batches(done: seq<seq<Check>>, current: seq<Check>)

  predicate Overflows(fixed: seq<Cmp>, group: seq<Check>, next: Check) {
    |fixed| + |CmpsOf(group)| + |next.cmps| > MaxTxnOps || |OpsOf(group)| + |next.ops| > MaxTxnOps
  }

  function Add(fixed: seq<Cmp>, b: Batches, next: Check): Batches {
    if Overflows(fixed, b.current, next) then Batches(b.done + [b.current], [next])
    else b.(current := b.current + [next])
  }

  function Batch(fixed: seq<Cmp>, checks: seq<Check>): Batches {
    if checks == [] then Batches([], [])
    else Add(fixed, Batch(fixed, checks[..|checks| - 1]), checks[|checks| - 1])
  }

  function Flatten<T>(groups: seq<seq<T>>): seq<T> {
    if groups == [] then [] else Flatten(groups[..|groups| - 1]) + groups[|groups| - 1]
  }

  lemma FlattenEmpty<T>()
    ensures Flatten<T>([]) == []
  {
  }

  lemma FlattenSnoc<T>(groups: seq<seq<T>>, g: seq<T>)
    ensures Flatten(groups + [g]) == Flatten(groups) + g
  {
    assert (groups + [g])[..|groups|] == groups;
  }

  /** No checkpoint is lost, split, or reordered. */
  lemma {:induction false} BatchKeepsChecks(fixed: seq<Cmp>, checks: seq<Check>)
    ensures var b := Batch(fixed, checks); Flatten(b.done) + b.current == checks
  {
    hide CmpsOf, OpsOf, Flatten, Overflows;
    if checks == [] {
      FlattenEmpty<Check>();
    } else {
      var init, last := checks[..|checks| - 1], checks[|checks| - 1];
      BatchKeepsChecks(fixed, init);
      var b := Batch(fixed, init);
      assert checks == init + [last];
      if Overflows(fixed, b.current, last) {
        FlattenSnoc(b.done, b.current);
      } else {
        assert Flatten(b.done) + (b.current + [last]) == Flatten(b.done) + b.current + [last];
      }
    }
  }

  /** A checkpoint fits if it can be issued alone, beside the fixed comparisons. */
  predicate Fits(fixed: seq<Cmp>, c: Check) {
    |fixed| + |c.cmps| <= MaxTxnOps && |c.ops| <= MaxTxnOps
  }

  predicate IsWithin(fixed: seq<Cmp>, group: seq<Check>) {
    |TxnOf(fixed, group).cmps| <= MaxTxnOps && |TxnOf(fixed, group).ops| <= MaxTxnOps
  }

  lemma WithinStep(fixed: seq<Cmp>, group: seq<Check>, c: Check)
    ensures !Overflows(fixed, group, c) ==> IsWithin(fixed, group + [c])
    ensures Fits(fixed, c) ==> IsWithin(fixed, [c])
  {
    GroupSnoc(group, c);
    GroupSnoc([], c);
    assert [] + [c] == [c];
  }

  /** If each checkpoint fits, every transaction stays within the limit. */
  lemma {:induction false} BatchIsWithin(fixed: seq<Cmp>, checks: seq<Check>)
    requires |fixed| < MaxTxnOps && forall i :: 0 <= i < |checks| ==> Fits(fixed, checks[i])
    ensures var b := Batch(fixed, checks);
            && IsWithin(fixed, b.current)
            && forall g :: 0 <= g < |b.done| ==> IsWithin(fixed, b.done[g])
  {
    if checks != [] {
      var init, last := checks[..|checks| - 1], checks[|checks| - 1];
      BatchIsWithin(fixed, init);
      WithinStep(fixed, Batch(fixed, init).current, last);
    }
  }

  /** The group after `g` could not have been started earlier. */
  predicate IsForced(fixed: seq<Cmp>, all: seq<seq<Check>>, g: nat)
    requires g + 1 < |all|
  {
    all[g + 1] != [] && Overflows(fixed, all[g], all[g + 1][0])
  }

  predicate AllForced(fixed: seq<Cmp>, b: Batches) {
    forall g: nat :: g < |b.done| ==> IsForced(fixed, b.done + [b.current], g)
  }

  /** Only the first flush can be empty, and batching is greedy: each flush was forced. */
  lemma {:induction false} BatchIsGreedy(fixed: seq<Cmp>, checks: seq<Check>)
    ensures AllForced(fixed, Batch(fixed, checks))
  {
    if checks != [] {
      var init, last := checks[..|checks| - 1], checks[|checks| - 1];
      BatchIsGreedy(fixed, init);
      var p, b := Batch(fixed, init), Batch(fixed, checks);
      var before, after := p.done + [p.current], b.done + [b.current];
      hide CmpsOf, OpsOf, Batch, Overflows;
      forall g: nat | g < |b.done| ensures IsForced(fixed, after, g) {
        if g < |p.done| {
          assert IsForced(fixed, before, g);
          assert before[g] == after[g];
        }
      }
    }
  }

  lemma GroupSnoc(group: seq<Check>, c: Check)
    ensures CmpsOf(group + [c]) == CmpsOf(group) + c.cmps
    ensures OpsOf(group + [c]) == OpsOf(group) + c.ops
    ensures group == [] ==> CmpsOf(group) == [] && OpsOf(group) == []
  {
    assert (group + [c])[..|group|] == group;
  }

  /** All operations of the transactions, in order. */
  function OpsIssued(txns: seq<Txn>): seq<Op> {
    if txns == [] then [] else OpsIssued(txns[..|txns| - 1]) + txns[|txns| - 1].ops
  }

  lemma OpsIssuedSnoc(txns: seq<Txn>, t: Txn)
    ensures OpsIssued(txns + [t]) == OpsIssued(txns) + t.ops
  {
    assert (txns + [t])[..|txns|] == txns;
  }

  lemma {:induction false} OpsOfConcat(x: seq<Check>, y: seq<Check>)
    ensures OpsOf(x + y) == OpsOf(x) + OpsOf(y)
  {
    if y == [] {
      assert x + y == x;
    } else {
      var init, last := y[..|y| - 1], y[|y| - 1];
      assert x + y == (x + init) + [last] && y == init + [last];
      OpsOfConcat(x, init);
      GroupSnoc(x + init, last);
      GroupSnoc(init, last);
    }
  }

  /** Operations are committed in the order of the checkpoints. */
  lemma {:induction false} OpsAreInOrder(fixed: seq<Cmp>, txns: seq<Txn>, groups: seq<seq<Check>>)
    requires AreIssued(fixed, txns, groups)
    ensures OpsIssued(txns) == OpsOf(Flatten(groups))
  {
    if txns != [] {
      var n := |txns| - 1;
      OpsAreInOrder(fixed, txns[..n], groups[..n]);
      OpsOfConcat(Flatten(groups[..n]), groups[n]);
      assert IssuedAs(fixed, txns[n], groups[n]);
    }
  }

  // ---------------------------------------------------------------------------
  // What guards an operation

  lemma {:induction false} OpOfGroup(group: seq<Check>, op: Op) returns (c: Check)
    requires op in OpsOf(group)
    ensures c in group && op in c.ops
  {
    var last := group[|group| - 1];
    if op in last.ops {
      c := last;
    } else {
      c := OpOfGroup(group[..|group| - 1], op);
    }
  }

  lemma {:induction false} CmpsOfGroup(group: seq<Check>, c: Check, cmp: Cmp)
    requires c in group && cmp in c.cmps
    ensures cmp in CmpsOf(group)
  {
    if c != group[|group| - 1] {
      CmpsOfGroup(group[..|group| - 1], c, cmp);
    }
  }

  /** An operation is issued together with all comparisons of its checkpoint. */
  lemma IssuedWithCmps(fixed: seq<Cmp>, txn: Txn, group: seq<Check>, op: Op) returns (c: Check)
    requires IssuedAs(fixed, txn, group) && op in txn.ops
    ensures c in group && op in c.ops && forall cmp :: cmp in c.cmps ==> cmp in txn.cmps
  {
    c := OpOfGroup(group, op);
    forall cmp | cmp in c.cmps ensures cmp in txn.cmps {
      CmpsOfGroup(group, c, cmp);
    }
  }

  lemma {:induction false} FlattenHas<T>(groups: seq<seq<T>>, t: nat, c: T)
    requires t < |groups| && c in groups[t]
    ensures c in Flatten(groups)
  {
    if t < |groups| - 1 {
      FlattenHas(groups[..|groups| - 1], t, c);
    }
  }

  // ---------------------------------------------------------------------------
  // The transaction builder

  /** What is queued of a group, once the fixed comparisons are. */
  predicate IsQueue(fixed: seq<Cmp>, cmps: seq<Cmp>, ops: seq<Op>, group: seq<Check>) {
    cmps == fixed + CmpsOf(group) && ops == OpsOf(group)
  }

  lemma QueueBegin(fixed: seq<Cmp>)
    ensures IsQueue(fixed, fixed, [], []) && CmpsOf([]) == [] && OpsOf([]) == []
  {
  }

  lemma QueueMeaning(fixed: seq<Cmp>, cmps: seq<Cmp>, ops: seq<Op>, group: seq<Check>, c: Check)
    requires IsQueue(fixed, cmps, ops, group)
    ensures Overflows(fixed, group, c) <==> |cmps| + |c.cmps| > MaxTxnOps || |ops| + |c.ops| > MaxTxnOps
    ensures Txn(cmps, ops) == TxnOf(fixed, group) && IssuedAs(fixed, Txn(cmps, ops), group)
  {
    hide CmpsOf, OpsOf;
  }

  lemma QueueGrows(fixed: seq<Cmp>, cmps: seq<Cmp>, ops: seq<Op>, group: seq<Check>, c: Check)
    requires IsQueue(fixed, cmps, ops, group)
    ensures IsQueue(fixed, cmps + c.cmps, ops + c.ops, group + [c])
  {
    GroupSnoc(group, c);
    hide CmpsOf, OpsOf;
  }

  /** What etcd answers: an error, a failed comparison, or success. */
  datatype Outcome = IoError | NotSucceeded | Succeeded

  class Batcher {
    const fixed: seq<Cmp>
    var cmps: seq<Cmp>
    var ops: seq<Op>
    var nextCmps: seq<Cmp>
    var nextOps: seq<Op>
    var noop: bool
    var committed: seq<Txn>  // What Etcd has committed.
    ghost var batches: Batches

    /** What is queued is the current group; all groups before it were committed, in order. */
    ghost predicate Valid()
      reads this
    {
      && |fixed| < MaxTxnOps
      && (if batches.current == [] then cmps == [] && ops == [] else IsQueue(fixed, cmps, ops, batches.current))
      && AreIssued(fixed, committed, batches.done)
      && (noop <==> OpsIssued(committed) == [])
    }

    constructor (fixed: seq<Cmp>)
      requires |fixed| < MaxTxnOps
      ensures Valid() && batches == Batches([], []) && noop && nextCmps == [] && nextOps == [] && this.fixed == fixed
    {
      this.fixed := fixed;
      cmps, ops, nextCmps, nextOps, noop := [], [], [], [], true;
      batches, committed := Batches([], []), [];
    }

    method If(c: seq<Cmp>)
      modifies this`nextCmps
      ensures nextCmps == old(nextCmps) + c
    {
      nextCmps := nextCmps + c;
    }

    method Then(o: seq<Op>)
      modifies this`nextOps
      ensures nextOps == old(nextOps) + o
    {
      nextOps := nextOps + o;
    }

    /** Ends the checkpoint being built. It may flush those before it, and then fails if etcd does. */
    method Checkpoint(outcome: Outcome) returns (ok: bool)
      requires Valid()
      modifies this
      ensures nextCmps == [] && nextOps == []
      ensures ok <==> !Overflows(fixed, old(batches.current), Check(old(nextCmps), old(nextOps))) || outcome.Succeeded?
      ensures ok ==> Valid() && batches == Add(fixed, old(batches), Check(old(nextCmps), old(nextOps)))
      ensures committed == old(committed) || (ok && committed == old(committed) + [TxnOf(fixed, old(batches.current))])
    {
      hide CmpsOf, OpsOf, OpsIssued, IssuedAs, AreIssued, Overflows;
      ghost var c := Check(nextCmps, nextOps);
      if |cmps| == 0 {
        cmps := cmps + fixed;
      }
      QueueBegin(fixed);
      assert IsQueue(fixed, cmps, ops, batches.current);
      hide IsQueue;
      var nc, no := nextCmps, nextOps;
      nextCmps, nextOps := [], [];
      QueueMeaning(fixed, cmps, ops, batches.current, c);
      if |cmps| + |nc| > MaxTxnOps || |ops| + |no| > MaxTxnOps {
        ok := Commit(outcome);
        if !ok {
          return;
        }
        assert cmps + fixed == fixed;
        cmps := cmps + fixed;
      }
      QueueGrows(fixed, cmps, ops, batches.current, c);
      cmps := cmps + nc;
      ops := ops + no;
      batches := batches.(current := batches.current + [c]);
      return true;
    }

    /** Flushes what is queued as one transaction. */
    method Commit(outcome: Outcome) returns (ok: bool)
      requires |fixed| < MaxTxnOps && nextCmps == [] && nextOps == []
      requires IssuedAs(fixed, Txn(cmps, ops), batches.current)
      requires AreIssued(fixed, committed, batches.done)
      requires noop <==> OpsIssued(committed) == []
      modifies this`cmps, this`ops, this`noop, this`batches, this`committed
      ensures ok <==> outcome.Succeeded?
      ensures ok ==> Valid() && batches == Batches(old(batches.done) + [old(batches.current)], [])
      ensures ok ==> committed == old(committed) + [Txn(old(cmps), old(ops))]
      ensures !ok ==> batches == old(batches) && committed == old(committed) && cmps == old(cmps) && ops == old(ops)
    {
      hide OpsIssued, IssuedAs, AreIssued, IsQueue;
      if !outcome.Succeeded? {
        return false;
      }
      OpsIssuedSnoc(committed, Txn(cmps, ops));
      IssuedSnoc(fixed, committed, batches.done, Txn(cmps, ops), batches.current);
      if |ops| > 0 {
        noop := false;
      }
      committed := committed + [Txn(cmps, ops)];
      batches := Batches(batches.done + [batches.current], []);
      cmps, ops := [], [];
      return true;
    }
  }

  // ---------------------------------------------------------------------------
  // A run

  /** Transactions which issue groups of checkpoints, each of them whole, in order. */
  ghost predicate IsIssue(fixed: seq<Cmp>, txns: seq<Txn>, groups: seq<seq<Check>>, checks: seq<Check>, n: nat) {
    && n <= |checks| && Flatten(groups) == checks[..n] && AreIssued(fixed, txns, groups)
    && (AllFit(fixed, checks) ==> forall g :: 0 <= g < |groups| ==> IsWithin(fixed, groups[g]))
  }

  predicate AllFit(fixed: seq<Cmp>, checks: seq<Check>) {
    forall i :: 0 <= i < |checks| ==> Fits(fixed, checks[i])
  }

  /** An issued transaction has the comparisons and operations of its group, so it's within the limit. */
  lemma IssuedIsWithin(fixed: seq<Cmp>, txn: Txn, group: seq<Check>)
    requires IssuedAs(fixed, txn, group)
    ensures IsWithin(fixed, group) ==> |txn.cmps| <= MaxTxnOps && |txn.ops| <= MaxTxnOps
    ensures txn.ops != [] ==> fixed <= txn.cmps
  {
  }

  /**
   * Build and flush all checkpoints, up to the first transaction which fails. What is committed are the leading
   * checkpoints, each whole, in order and beside the fixed comparisons. If each checkpoint fits, so do transactions.
   */
  method Issue(fixed: seq<Cmp>, checks: seq<Check>, outcome: nat -> Outcome)
    returns (ok: bool, txns: seq<Txn>, ghost groups: seq<seq<Check>>, ghost n: nat)
    requires |fixed| < MaxTxnOps
    ensures IsIssue(fixed, txns, groups, checks, n) && OpsIssued(txns) == OpsOf(checks[..n])
    ensures ok ==> n == |checks|
    ensures (forall i :: outcome(i) == Succeeded) ==> ok
  {
    hide CmpsOf, OpsOf, OpsIssued, Overflows, Flatten, IssuedAs, AreIssued, IsWithin, AllFit, IsIssue, Batch, Add;
    var b := new Batcher(fixed);
    BatchBegin(fixed, checks);
    for i := 0 to |checks|
      invariant fresh(b) && b.Valid() && b.fixed == fixed && b.nextCmps == [] && b.nextOps == []
      invariant b.batches == Batch(fixed, checks[..i])
    {
      b.If(checks[i].cmps);
      b.Then(checks[i].ops);
      assert Check(b.nextCmps, b.nextOps) == checks[i];
      DoneIsIssued(fixed, checks, i, b.committed, b.batches);
      groups, n := b.batches.done, |Flatten(b.batches.done)|;
      ok := b.Checkpoint(outcome(i));
      if !ok {
        return ok, b.committed, groups, n;
      }
      BatchNext(fixed, checks, i);
    }
    assert checks[..|checks|] == checks;
    DoneIsIssued(fixed, checks, |checks|, b.committed, b.batches);
    AllIsIssued(fixed, checks, b.committed, b.batches);
    groups, n := b.batches.done, |Flatten(b.batches.done)|;
    QueueIsIssued(fixed, b.cmps, b.ops, b.batches.current);
    ghost var queued := Txn(b.cmps, b.ops);
    ok := b.Commit(outcome(|checks|));
    txns := b.committed;
    if ok {
      groups, n := b.batches.done, |checks|;
    }
  }

  lemma BatchBegin(fixed: seq<Cmp>, checks: seq<Check>)
    ensures Batch(fixed, checks[..0]) == Batches([], [])
  {
  }

  lemma BatchNext(fixed: seq<Cmp>, checks: seq<Check>, i: nat)
    requires i < |checks|
    ensures Batch(fixed, checks[..i + 1]) == Add(fixed, Batch(fixed, checks[..i]), checks[i])
  {
    assert checks[..i + 1][..i] == checks[..i];
  }

  lemma QueueIsIssued(fixed: seq<Cmp>, cmps: seq<Cmp>, ops: seq<Op>, current: seq<Check>)
    requires if current == [] then cmps == [] && ops == [] else IsQueue(fixed, cmps, ops, current)
    ensures IssuedAs(fixed, Txn(cmps, ops), current)
  {
  }

  /** What was committed, when the first `i` checkpoints are built, are leading ones of those. */
  lemma DoneIsIssued(fixed: seq<Cmp>, checks: seq<Check>, i: nat, txns: seq<Txn>, b: Batches)
    requires |fixed| < MaxTxnOps && i <= |checks|
    requires b == Batch(fixed, checks[..i]) && AreIssued(fixed, txns, b.done)
    ensures IsIssue(fixed, txns, b.done, checks, |Flatten(b.done)|)
    ensures |Flatten(b.done)| <= |checks| && OpsIssued(txns) == OpsOf(checks[..|Flatten(b.done)|])
    ensures Flatten(b.done) + b.current == checks[..i] && (AllFit(fixed, checks) ==> IsWithin(fixed, b.current))
  {
    hide CmpsOf, OpsOf, OpsIssued, Overflows, Flatten, IssuedAs, IsWithin, Fits;
    BatchKeepsChecks(fixed, checks[..i]);
    if AllFit(fixed, checks) {
      BatchIsWithin(fixed, checks[..i]);
    }
    OpsAreInOrder(fixed, txns, b.done);
    var n := |Flatten(b.done)|;
    assert checks[..i][..n] == checks[..n];
  }

  lemma AllIsIssued(fixed: seq<Cmp>, checks: seq<Check>, txns: seq<Txn>, b: Batches)
    requires IsIssue(fixed, txns, b.done, checks, |Flatten(b.done)|)
             && (AllFit(fixed, checks) ==> IsWithin(fixed, b.current))
    requires Flatten(b.done) + b.current == checks
    ensures forall t: Txn :: IssuedAs(fixed, t, b.current) ==>
              && IsIssue(fixed, txns + [t], b.done + [b.current], checks, |checks|)
              && OpsIssued(txns + [t]) == OpsOf(checks[..|checks|])
  {
    hide CmpsOf, OpsOf, OpsIssued, Flatten, IssuedAs, IsWithin, AllFit;
    forall t: Txn | IssuedAs(fixed, t, b.current)
      ensures IsIssue(fixed, txns + [t], b.done + [b.current], checks, |checks|)
      ensures OpsIssued(txns + [t]) == OpsOf(checks[..|checks|])
    {
      FlattenSnoc(b.done, b.current);
      assert checks[..|checks|] == checks;
      OpsAreInOrder(fixed, txns + [t], b.done + [b.current]);
    }
  }
}

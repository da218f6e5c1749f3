/**
 * The Broker of a journal (pkg/journal/broker.go): it opens a transaction with every replica, streams appends
 * to all of them, and commits. Replicas may be unreachable, fail, or lose a reply at any point.
 */
module Broker {
  import opened Common
  import opened Replication

  const SpoolRollSize := 0x4000_0000
  const CommitThreshold := 0x10_0000

  // ---------------------------------------------------------------------------
  // What the network may do

  /** A replication request. If only its reply is lost, the replica aborts the transaction it has opened. */
  datatype OpenNet = Reached(diskOk: bool) | Unreachable | OpenReplyLost(diskOk_: bool, abort: CommitFault)

  /** A write. It may fail at the replica without the broker noticing. */
  datatype WriteNet = Written | WriteFails(n: nat) | WriteFailsUnseen(n_: nat)

  /** A commit. If it is not delivered, the replica aborts; if its reply is lost, the broker sees an error. */
  datatype CommitNet =
    | Delivered(fault: CommitFault) | CommitReplyLost(fault_: CommitFault) | NotDelivered(abort_: CommitFault)

  function OpenReplica(r: Replica, at: int, newSpool: bool, net: OpenNet): (Replica, ReplicateResult)
    requires ReplicaOk(r) && !r.open
  {
    OnWriteAny(r, at, newSpool);
    match net
    case Reached(diskOk) => OnWrite(r, at, newSpool, diskOk)
    case Unreachable => (r, ReplicateFailed)
    case OpenReplyLost(diskOk, abort) =>
      var (n, result) := OnWrite(r, at, newSpool, diskOk);
      if result.Accepted? then (TxCommit(n, 0, abort).0, ReplicateFailed) else (n, ReplicateFailed)
  }

  lemma OnWriteAny(r: Replica, at: int, newSpool: bool)
    requires ReplicaOk(r) && !r.open
    ensures forall d :: var (n, result) := OnWrite(r, at, newSpool, d); ReplicaOk(n) && (n.open <==> result.Accepted?)
  {
    OnWriteMeaning(r, at, newSpool, true);
    OnWriteMeaning(r, at, newSpool, false);
  }

  function WriteReplica(r: Replica, buf: Bytes, net: WriteNet): (Replica, bool)
    requires ReplicaOk(r) && r.open
  {
    match net
    case Written => TxWrite(r, buf, None)
    case WriteFails(n) => (TxWrite(r, buf, Some(n)).0, false)
    case WriteFailsUnseen(n) => (TxWrite(r, buf, Some(n)).0, true)
  }

  function CommitReplica(r: Replica, delta: nat, net: CommitNet): (Replica, bool)
    requires ReplicaOk(r) && r.open
  {
    match net
    case Delivered(fault) => TxCommit(r, delta, fault)
    case CommitReplyLost(fault) => (TxCommit(r, delta, fault).0, false)
    case NotDelivered(abort) => (TxCommit(r, 0, abort).0, false)
  }

  lemma OpenReplicaMeaning(r: Replica, at: int, newSpool: bool, net: OpenNet)
    requires ReplicaOk(r) && !r.open
    ensures var (n, result) := OpenReplica(r, at, newSpool, net);
            && ReplicaOk(n) && n.committed == r.committed
            && (result.Accepted? ==> InTransaction(n, at, []) && IsSound(n))
            && (!result.Accepted? ==> !n.open)
            && (result.WrongWriteHead? <==> IsHeard(r, net, at))
            && (result.WrongWriteHead? ==> result.head == r.writeHead)
            && (result.Accepted? ==> r.writeHead <= at && IsRolled(r, n, at, newSpool))
            && (n.writeHead == r.writeHead || n.writeHead == at)
            && (net == Reached(true) && r.writeHead <= at ==> result.Accepted?)
  {
    hide ReplicaOk, OnWrite, TxCommit, InTransaction, IsRolled;
    match net {
      case Reached(diskOk) => OnWriteMeaning(r, at, newSpool, diskOk);
      case Unreachable =>
      case OpenReplyLost(diskOk, abort) =>
        OnWriteMeaning(r, at, newSpool, diskOk);
        var (n, result) := OnWrite(r, at, newSpool, diskOk);
        if result.Accepted? {
          AbortKeeps(n, at, [], abort);
        }
    }
  }

  /** A replica which is ahead refuses a transaction at `at`, and the broker hears of its write head. */
  predicate IsHeard(r: Replica, net: OpenNet, at: int) {
    net.Reached? && r.writeHead > at
  }

  /** `head` is the greatest of `at` and of the write heads which the broker hears of from the first `n` replicas. */
  ghost predicate IsGreatestHeard(rs: seq<Replica>, net: seq<OpenNet>, n: nat, at: int, head: int)
    requires n <= |rs| == |net|
  {
    && at <= head
    && (forall i :: 0 <= i < n && IsHeard(rs[i], net[i], at) ==> rs[i].writeHead <= head)
    && (head == at || exists i :: 0 <= i < n && IsHeard(rs[i], net[i], at) && rs[i].writeHead == head)
  }

  lemma NextHeard(rs: seq<Replica>, net: seq<OpenNet>, n: nat, at: int, head: int)
    requires n < |rs| == |net| && IsGreatestHeard(rs, net, n, at, head)
    ensures var h := rs[n].writeHead;
            IsGreatestHeard(rs, net, n + 1, at, if IsHeard(rs[n], net[n], at) && h > head then h else head)
  {
    if head != at {
      var i :| 0 <= i < n && IsHeard(rs[i], net[i], at) && rs[i].writeHead == head;
    }
  }

  lemma NoneHeard(rs: seq<Replica>, net: seq<OpenNet>, at: int)
    requires |net| == |rs|
    ensures IsGreatestHeard(rs, net, 0, at, at)
  {
  }

  /** No replica moves its write head, other than to `at`. */
  ghost predicate HeadsStay(rs: seq<Replica>, ns: seq<Replica>, at: int) {
    |rs| == |ns| && forall i :: 0 <= i < |rs| ==> ns[i].writeHead == rs[i].writeHead || ns[i].writeHead == at
  }

  ghost predicate AllRolled(rs: seq<Replica>, ns: seq<Replica>, at: int, newSpool: bool) {
    |rs| == |ns| && forall i :: 0 <= i < |rs| ==> IsRolled(rs[i], ns[i], at, newSpool)
  }

  /** If all replicas are reached, then none is ahead of the greatest write head which is heard. */
  lemma NoneIsAhead(rs: seq<Replica>, ns: seq<Replica>, net: seq<OpenNet>, at: int, head: int)
    requires |net| == |rs| && AllReached(net) && IsGreatestHeard(rs, net, |rs|, at, head) && HeadsStay(rs, ns, at)
    ensures AllBehind(ns, head)
  {
    forall i | 0 <= i < |ns| ensures ns[i].writeHead <= head {
      assert net[i] == Reached(true) && (IsHeard(rs[i], net[i], at) ==> rs[i].writeHead <= head);
    }
  }

  /** The replica's spool hasn't failed. */
  predicate IsSound(r: Replica) {
    r.spool.Some? && !r.spool.value.failed
  }

  ghost predicate AllSound(rs: seq<Replica>) {
    forall i :: 0 <= i < |rs| ==> IsSound(rs[i])
  }

  /** An abort commits nothing. */
  lemma AbortKeeps(r: Replica, at: int, bytes: Bytes, fault: CommitFault)
    requires InTransaction(r, at, bytes)
    ensures var n := TxCommit(r, 0, fault).0;
            ReplicaOk(n) && !n.open && n.committed == r.committed && n.writeHead == at
  {
    hide ReplicaOk, TxCommit;
    TxCommitMeaning(r, at, bytes, 0, fault);
    BlockKeys(at, bytes[..0]);
  }

  lemma WriteReplicaMeaning(r: Replica, at: int, bytes: Bytes, buf: Bytes, net: WriteNet)
    requires InTransaction(r, at, bytes)
    ensures var (n, ok) := WriteReplica(r, buf, net);
            && InTransaction(n, at, bytes + buf) && n.committed == r.committed
            && (net == Written && IsSound(r) ==> ok && IsSound(n))
  {
    if IsSound(r) {
      SoundWrites(r, buf);
    }
    hide ReplicaOk, TxWrite;
    TxWriteMeaning(r, at, bytes, buf, None);
    match net {
      case Written =>
      case WriteFails(n) => TxWriteMeaning(r, at, bytes, buf, Some(n));
      case WriteFailsUnseen(n) => TxWriteMeaning(r, at, bytes, buf, Some(n));
    }
  }

  lemma CommitReplicaMeaning(r: Replica, at: int, bytes: Bytes, delta: nat, net: CommitNet)
    requires InTransaction(r, at, bytes) && delta <= |bytes|
    ensures var (n, ok) := CommitReplica(r, delta, net);
            && ReplicaOk(n) && !n.open
            && (n.committed == r.committed || n.committed == r.committed + Block(at, bytes[..delta]))
            && (ok ==> n.committed == r.committed + Block(at, bytes[..delta]))
            && (n.writeHead == at || n.writeHead == at + delta)
            && (net == Delivered(NoFault) && IsSound(r) ==> ok)
  {
    if IsSound(r) {
      SoundCommits(r, at, bytes, delta);
    }
    hide ReplicaOk, TxCommit, Block;
    match net {
      case Delivered(fault) => TxCommitMeaning(r, at, bytes, delta, fault);
      case CommitReplyLost(fault) => TxCommitMeaning(r, at, bytes, delta, fault);
      case NotDelivered(abort) => AbortKeeps(r, at, bytes, abort);
    }
  }

  // ---------------------------------------------------------------------------
  // Agreement of replicas

  ghost predicate Agree(a: Replica, b: Replica) {
    forall o :: o in a.committed && o in b.committed ==> a.committed[o] == b.committed[o]
  }

  ghost predicate Agreement(rs: seq<Replica>) {
    forall i, j :: 0 <= i < |rs| && 0 <= j < |rs| ==> Agree(rs[i], rs[j])
  }

  ghost predicate AllClosed(rs: seq<Replica>) {
    forall i :: 0 <= i < |rs| ==> ReplicaOk(rs[i]) && !rs[i].open
  }

  ghost predicate AllIn(rs: seq<Replica>, at: int, bytes: Bytes) {
    forall i :: 0 <= i < |rs| ==> InTransaction(rs[i], at, bytes)
  }

  ghost predicate SameCommitted(rs: seq<Replica>, ns: seq<Replica>) {
    |rs| == |ns| && forall i :: 0 <= i < |rs| ==> ns[i].committed == rs[i].committed
  }

  ghost predicate Committed(r: Replica, n: Replica, at: int, bytes: Bytes) {
    n.committed == r.committed + Block(at, bytes)
  }

  /** Each replica committed all of `bytes`, or none of it. */
  ghost predicate CommittedSome(rs: seq<Replica>, ns: seq<Replica>, at: int, bytes: Bytes) {
    |rs| == |ns| && forall i :: 0 <= i < |rs| ==>
      ns[i].committed == rs[i].committed || ns[i].committed == rs[i].committed + Block(at, bytes)
  }

  /** What is committed beyond every write head cannot disagree with what was committed before. */
  lemma AgreementIsKept(rs: seq<Replica>, ns: seq<Replica>, at: int, bytes: Bytes)
    requires Agreement(rs) && CommittedSome(rs, ns, at, bytes)
    requires forall i, o :: 0 <= i < |rs| && o in rs[i].committed ==> o < at
    ensures Agreement(ns)
  {
    BlockKeys(at, bytes);
    hide Block;
    forall i, j | 0 <= i < |ns| && 0 <= j < |ns| ensures Agree(ns[i], ns[j]) {
      assert Agree(rs[i], rs[j]);
      forall o | o in ns[i].committed && o in ns[j].committed ensures ns[i].committed[o] == ns[j].committed[o] {
      }
    }
  }

  lemma SameCommittedAgree(rs: seq<Replica>, ns: seq<Replica>)
    requires Agreement(rs) && SameCommitted(rs, ns)
    ensures Agreement(ns)
  {
    forall i, j | 0 <= i < |ns| && 0 <= j < |ns| ensures Agree(ns[i], ns[j]) {
      assert Agree(rs[i], rs[j]);
    }
  }

  ghost predicate OpenAt(r: Replica, at: int) {
    ReplicaOk(r) && r.open && r.writeHead == at
  }

  ghost predicate AllOpen(rs: seq<Replica>, at: int) {
    forall i :: 0 <= i < |rs| ==> OpenAt(rs[i], at)
  }

  /** A replica in a transaction can commit a prefix of `bytes`; or it can abort, whatever it has written. */
  ghost predicate CanCommit(r: Replica, at: int, bytes: Bytes, delta: nat) {
    delta <= |bytes| && OpenAt(r, at) && (delta == 0 || InTransaction(r, at, bytes))
  }

  lemma CommitAny(r: Replica, at: int, bytes: Bytes, delta: nat, net: CommitNet)
    requires CanCommit(r, at, bytes, delta)
    ensures var (n, ok) := CommitReplica(r, delta, net);
            && ReplicaOk(n) && !n.open
            && (n.committed == r.committed || n.committed == r.committed + Block(at, bytes[..delta]))
            && (ok ==> n.committed == r.committed + Block(at, bytes[..delta]))
            && (net == Delivered(NoFault) && IsSound(r) ==> ok)
  {
    if delta == 0 {
      assert InTransaction(r, at, if r.spool.value.failed then [] else Pending(r.spool.value)) by { SpoolIsOk(r); }
      hide ReplicaOk, InTransaction, CommitReplica;
      var own := if r.spool.value.failed then [] else Pending(r.spool.value);
      CommitReplicaMeaning(r, at, own, 0, net);
      BlockKeys(at, own[..0]);
      BlockKeys(at, bytes[..0]);
    } else {
      CommitReplicaMeaning(r, at, bytes, delta, net);
    }
  }

  // ---------------------------------------------------------------------------
  // Appends

  /**
   * The content of an append: the chunks which its reader returns, and whether it then fails rather than
   * ends. The last status may come together with the last chunk.
   */
  datatype Reader = Reader(chunks: seq<Bytes>, fails: bool, together: bool)

  datatype AppendResult = Success(writeHead: int) | Failure

  function Concat(chunks: seq<Bytes>): Bytes {
    if chunks == [] then [] else Concat(chunks[..|chunks| - 1]) + chunks[|chunks| - 1]
  }

  function ReaderBytes(r: Reader): Bytes {
    Concat(r.chunks)
  }

  /** The bytes of several appends, one after the other. */
  function AppendBytes(appends: seq<Reader>): Bytes {
    if appends == [] then [] else AppendBytes(appends[..|appends| - 1]) + ReaderBytes(appends[|appends| - 1])
  }

  /**
   * The first `pending` appends were read, and another at most was begun. Without an error, an append is left out only
   * if reading it fails, or if the commit threshold was reached before.
   */
  ghost predicate AreConsumed(
    appends: seq<Reader>, results: seq<Option<AppendResult>>, pending: nat, writeErr: bool)
  {
    && pending <= |appends| == |results|
    && (forall j :: 0 <= j < |appends| && j != pending ==> results[j] == None)
    && (pending == 0 && appends != [] ==> results[0] == Some(Failure))
    && (forall j :: 0 <= j < pending ==> |AppendBytes(appends[..j])| < CommitThreshold)
    && (pending < |appends| ==> IsLeftOut(appends, results[pending], pending, writeErr))
  }

  ghost predicate IsLeftOut(appends: seq<Reader>, result: Option<AppendResult>, pending: nat, failed: bool)
    requires pending < |appends|
  {
    && (result == None || result == Some(Failure))
    && (result == Some(Failure) ==> |AppendBytes(appends[..pending])| < CommitThreshold)
    && (!failed ==>
          if |AppendBytes(appends[..pending])| < CommitThreshold then appends[pending].fails && result == Some(Failure)
          else result == None)
  }

  lemma NoBytes(appends: seq<Reader>)
    ensures AppendBytes(appends[..0]) == []
  {
  }

  lemma NextBytes(appends: seq<Reader>, n: nat)
    requires n < |appends|
    ensures AppendBytes(appends[..n + 1]) == AppendBytes(appends[..n]) + ReaderBytes(appends[n])
  {
    assert appends[..n + 1][..n] == appends[..n];
  }

  lemma EndsConsumed(
    appends: seq<Reader>, results: seq<Option<AppendResult>>, consumed: nat, pending: nat, readErr: bool,
    writeErr: bool)
    requires 0 < consumed <= |appends| == |results| && pending == (if readErr then consumed - 1 else consumed)
    requires forall j :: 0 <= j < |appends| ==> results[j] == if readErr && j == pending then Some(Failure) else None
    requires forall j :: 0 <= j < consumed ==> |AppendBytes(appends[..j])| < CommitThreshold
    requires readErr && !writeErr ==> appends[pending].fails
    requires consumed == |appends| || readErr || writeErr || |AppendBytes(appends[..pending])| >= CommitThreshold
    ensures AreConsumed(appends, results, pending, writeErr)
  {
    hide AppendBytes;
  }

  /** Of the appends, those which were read are answered alike, and the first always has an answer. */
  ghost predicate AreAnswered(
    appends: seq<Reader>, results: seq<Option<AppendResult>>, pending: nat, ok: bool, head: int)
  {
    && pending <= |appends| == |results|
    && (forall j :: 0 <= j < pending ==> results[j] == Some(if ok then Success(head) else Failure))
    && (forall j :: pending < j < |appends| ==> results[j] == None)
    && (appends != [] ==> results[0].Some?)
    && (forall j :: 0 <= j < pending ==> |AppendBytes(appends[..j])| < CommitThreshold)
    && (pending < |appends| ==> IsLeftOut(appends, results[pending], pending, !ok))
  }

  class JournalBroker {
    var replicas: seq<Replica>
    var writeHead: int
    var writtenSinceRoll: int

    /** Between transactions: no transaction is open, and no two replicas disagree on a committed byte. */
    ghost predicate Valid()
      reads this
    {
      AllClosed(replicas) && Agreement(replicas)
    }

    constructor (replicas: seq<Replica>, writeHead: int)
      requires AllClosed(replicas) && Agreement(replicas)
      ensures Valid() && this.replicas == replicas && this.writeHead == writeHead && writtenSinceRoll == 0
    {
      this.replicas, this.writeHead, this.writtenSinceRoll := replicas, writeHead, 0;
    }

    /** onConfigUpdate, with an unchanged set of replicas: the write head never moves back. */
    method OnConfigUpdate(head: int)
      modifies this`writeHead, this`writtenSinceRoll
      ensures writeHead == (if head > old(writeHead) then head else old(writeHead)) && writtenSinceRoll == 0
    {
      if head > writeHead {
        writeHead := head;
      }
      writtenSinceRoll := 0;
    }

    /**
     * All replicas accept the transaction at the write head, or all are closed again. The broker catches up with the
     * replica which is furthest ahead, of those it hears of: if all are reached, then none is ahead afterwards.
     */
    method PhaseOne(net: seq<OpenNet>, aborts: seq<CommitNet>) returns (ok: bool)
      requires Valid() && |net| == |aborts| == |replicas|
      modifies this`replicas, this`writeHead
      ensures SameCommitted(old(replicas), replicas) && Agreement(replicas)
      ensures ok ==> replicas != [] && writeHead == old(writeHead) && AllIn(replicas, writeHead, [])
      ensures !ok ==> AllClosed(replicas) && writeHead >= old(writeHead)
      ensures ok ==> AllSound(replicas) && AllBehind(old(replicas), writeHead)
      ensures ok ==> AllRolled(old(replicas), replicas, writeHead, writtenSinceRoll == 0)
      ensures IsGreatestHeard(old(replicas), net, |old(replicas)|, old(writeHead), writeHead)
      ensures HeadsStay(old(replicas), replicas, old(writeHead))
      ensures AllReached(net) ==> AllBehind(replicas, writeHead)
      ensures replicas != [] && AllReached(net) && AllBehind(old(replicas), old(writeHead)) ==> ok
    {
      hide ReplicaOk, OpenReplica, InTransaction, CommitReplica, IsSound, IsRolled, IsHeard, IsGreatestHeard, Agreement;
      assert IsGreatestHeard(replicas, net, 0, writeHead, writeHead) by { NoneHeard(replicas, net, writeHead); }
      if |replicas| == 0 {
        return false;
      }
      var at, newSpool := writeHead, writtenSinceRoll == 0;
      var accepted: seq<bool> := [];
      ok := true;
      for i := 0 to |net|
        invariant |replicas| == |net| && |accepted| == i && SameCommitted(old(replicas), replicas)
        invariant writeHead >= at && (ok ==> writeHead == at)
        invariant IsGreatestHeard(old(replicas), net, i, at, writeHead) && HeadsStay(old(replicas), replicas, at)
        invariant forall k :: 0 <= k < i && accepted[k] ==>
                    old(replicas)[k].writeHead <= at && IsRolled(old(replicas)[k], replicas[k], at, newSpool)
        invariant forall k :: i <= k < |net| ==> replicas[k] == old(replicas)[k]
        invariant forall k :: 0 <= k < i ==>
                    if accepted[k] then InTransaction(replicas[k], at, [])
                    else ReplicaOk(replicas[k]) && !replicas[k].open
        invariant forall k :: 0 <= k < i && accepted[k] ==> IsSound(replicas[k])
        invariant AllReached(net) && AllBehind(old(replicas), at) ==> ok
        invariant ok <==> forall k :: 0 <= k < i ==> accepted[k]
      {
        OpenReplicaMeaning(replicas[i], at, newSpool, net[i]);
        NextHeard(old(replicas), net, i, at, writeHead);
        var (n, result) := OpenReplica(replicas[i], at, newSpool, net[i]);
        replicas := replicas[i := n];
        accepted := accepted + [result.Accepted?];
        if !result.Accepted? {
          ok := false;
          if result.WrongWriteHead? && result.head > writeHead {
            writeHead := result.head;
          }
        }
      }
      SameCommittedAgree(old(replicas), replicas);
      if !ok {
        Abort(at, accepted, aborts);
        SameCommittedAgree(old(replicas), replicas);
      }
      if AllReached(net) {
        NoneIsAhead(old(replicas), replicas, net, at, writeHead);
      }
    }

    /** Tells replicas which accepted the transaction to abort it. */
    method Abort(at: int, accepted: seq<bool>, aborts: seq<CommitNet>)
      requires |accepted| == |aborts| == |replicas|
      requires forall k :: 0 <= k < |replicas| ==>
                 if accepted[k] then InTransaction(replicas[k], at, []) else ReplicaOk(replicas[k]) && !replicas[k].open
      modifies this`replicas
      ensures SameCommitted(old(replicas), replicas) && AllClosed(replicas) && HeadsStay(old(replicas), replicas, at)
    {
      hide ReplicaOk, InTransaction, CommitReplica;
      for i := 0 to |aborts|
        invariant |replicas| == |aborts| && SameCommitted(old(replicas), replicas)
        invariant forall k :: i <= k < |aborts| ==> replicas[k] == old(replicas)[k]
        invariant forall k :: 0 <= k < i ==> ReplicaOk(replicas[k]) && !replicas[k].open
        invariant HeadsStay(old(replicas), replicas, at)
      {
        if accepted[i] {
          OpenOf(replicas[i], at, []);
          CommitReplicaMeaning(replicas[i], at, [], 0, aborts[i]);
          BlockKeys(at, [][..0]);
          replicas := replicas[i := CommitReplica(replicas[i], 0, aborts[i]).0];
        }
      }
    }

    /** The inner loop of streamToWriters: writes one chunk to each replica, up to the first failure. */
    method WriteChunk(ghost at: int, ghost bytes: Bytes, buf: Bytes, net: seq<WriteNet>) returns (ok: bool)
      requires AllIn(replicas, at, bytes) && |net| == |replicas|
      modifies this`replicas
      ensures SameCommitted(old(replicas), replicas) && AllOpen(replicas, at)
      ensures ok ==> AllIn(replicas, at, bytes + buf)
      ensures AllSound(old(replicas)) && AllWritten(net) ==> ok && AllSound(replicas)
    {
      hide ReplicaOk, InTransaction, WriteReplica, OpenAt, IsSound;
      for i := 0 to |net|
        invariant |replicas| == |net| && SameCommitted(old(replicas), replicas)
        invariant forall k :: 0 <= k < i ==> InTransaction(replicas[k], at, bytes + buf)
        invariant forall k :: i <= k < |net| ==> InTransaction(replicas[k], at, bytes)
        invariant AllSound(old(replicas)) && AllWritten(net) ==> AllSound(replicas)
      {
        OpenAll(replicas, at, bytes, bytes + buf);
        InTransactionIsOpen(replicas[i], at, bytes);
        WriteReplicaMeaning(replicas[i], at, bytes, buf, net[i]);
        var (n, fine) := WriteReplica(replicas[i], buf, net[i]);
        replicas := replicas[i := n];
        ok := fine;
        if !ok {
          OpenAll(replicas, at, bytes, bytes + buf);
          return;
        }
      }
      OpenAll(replicas, at, bytes, bytes + buf);
      return true;
    }

    /**
     * streamToWriters: unless a write fails, all replicas have written what was read. The `k`-th write since
     * the transaction began is subject to `net(k)`.
     */
    method StreamToWriters(ghost at: int, ghost bytes: Bytes, src: Reader, first: nat, net: nat -> seq<WriteNet>)
      returns (written: nat, readErr: bool, writeErr: bool, last: nat)
      requires AllIn(replicas, at, bytes) && forall k :: |net(k)| == |replicas|
      modifies this`replicas
      ensures SameCommitted(old(replicas), replicas) && AllOpen(replicas, at)
      ensures !writeErr ==> AllIn(replicas, at, bytes + ReaderBytes(src)) && written == |ReaderBytes(src)|
      ensures !writeErr ==> readErr == src.fails
      ensures AllSound(old(replicas)) && (forall k :: AllWritten(net(k))) ==> !writeErr && AllSound(replicas)
    {
      hide ReplicaOk, InTransaction, OpenAt, AllSound, AllWritten;
      written, last := 0, first;
      assert bytes + Concat(src.chunks[..0]) == bytes;
      OpenAll(replicas, at, bytes, bytes);
      for i := 0 to |src.chunks|
        invariant SameCommitted(old(replicas), replicas) && AllOpen(replicas, at)
        invariant AllIn(replicas, at, bytes + Concat(src.chunks[..i])) && written == |Concat(src.chunks[..i])|
        invariant AllSound(old(replicas)) && (forall k :: AllWritten(net(k))) ==> AllSound(replicas)
      {
        var buf := src.chunks[i];
        assert src.chunks[..i + 1][..i] == src.chunks[..i];
        assert Concat(src.chunks[..i + 1]) == Concat(src.chunks[..i]) + buf;
        assert bytes + Concat(src.chunks[..i]) + buf == bytes + Concat(src.chunks[..i + 1]);
        if |buf| > 0 {
          var ok := WriteChunk(at, bytes + Concat(src.chunks[..i]), buf, net(last));
          last := last + 1;
          if !ok {
            return written, src.together && i == |src.chunks| - 1, true, last;
          }
          written := written + |buf|;
        } else {
          assert Concat(src.chunks[..i + 1]) == Concat(src.chunks[..i]);
        }
      }
      assert src.chunks[..|src.chunks|] == src.chunks;
      return written, src.fails, false, last;
    }

    /** scatterCommit, and gathering of the replies. */
    method CommitAll(ghost at: int, ghost bytes: Bytes, delta: nat, net: seq<CommitNet>)
      returns (sawError: bool, sawSuccess: bool)
      requires |net| == |replicas| && forall k :: 0 <= k < |replicas| ==> CanCommit(replicas[k], at, bytes, delta)
      requires delta <= |bytes|
      modifies this`replicas
      ensures AllClosed(replicas) && CommittedSome(old(replicas), replicas, at, bytes[..delta])
      ensures !sawError ==> forall k :: 0 <= k < |replicas| ==>
              Committed(old(replicas)[k], replicas[k], at, bytes[..delta])
      ensures sawSuccess ==>
              exists k :: 0 <= k < |replicas| && Committed(old(replicas)[k], replicas[k], at, bytes[..delta])
      ensures !sawError && replicas != [] ==> sawSuccess
      ensures AllSound(old(replicas)) && AllDelivered(net) ==> !sawError
      ensures AllSound(old(replicas)) && AnyDelivered(net) ==> sawSuccess
    {
      hide ReplicaOk, InTransaction, CommitReplica, OpenAt, Block, IsSound;
      sawError, sawSuccess := false, false;
      ghost var block := Block(at, bytes[..delta]);
      for i := 0 to |net|
        invariant |replicas| == |net| == |old(replicas)|
        invariant forall k :: i <= k < |net| ==> replicas[k] == old(replicas)[k]
        invariant forall k :: 0 <= k < i ==> ReplicaOk(replicas[k]) && !replicas[k].open
        invariant forall k :: 0 <= k < i ==>
                    replicas[k].committed == old(replicas)[k].committed
                      || replicas[k].committed == old(replicas)[k].committed + block
        invariant !sawError ==> forall k :: 0 <= k < i ==> Committed(old(replicas)[k], replicas[k], at, bytes[..delta])
        invariant sawSuccess ==> exists k :: 0 <= k < i && Committed(old(replicas)[k], replicas[k], at, bytes[..delta])
        invariant !sawError && i > 0 ==> sawSuccess
        invariant AllSound(old(replicas)) && AllDelivered(net) ==> !sawError
        invariant forall k :: 0 <= k < i && AllSound(old(replicas)) && net[k] == Delivered(NoFault) ==> sawSuccess
      {
        CommitAny(replicas[i], at, bytes, delta, net[i]);
        CanCommitIsOpen(replicas[i], at, bytes, delta);
        var (n, ok) := CommitReplica(replicas[i], delta, net[i]);
        replicas := replicas[i := n];
        if ok {
          assert Committed(old(replicas)[i], replicas[i], at, bytes[..delta]);
          sawSuccess := true;
        } else {
          sawError := true;
        }
      }
    }

    /**
     * The loop of phaseTwo which streams the first of `appends`, and those which are found waiting, to all replicas.
     * The first `pending` of `appends` are read completely; the first `commitDelta` of all streamed `bytes` are theirs.
     */
    method Consume(appends: seq<Reader>, net: nat -> seq<WriteNet>)
      returns (commitDelta: nat, pending: nat, writeErr: bool, results: seq<Option<AppendResult>>, ghost bytes: Bytes)
      requires appends != [] && AllIn(replicas, writeHead, []) && forall k :: |net(k)| == |replicas|
      modifies this`replicas
      ensures SameCommitted(old(replicas), replicas) && AllOpen(replicas, writeHead)
      ensures AreConsumed(appends, results, pending, writeErr)
      ensures !writeErr ==>
                && AllIn(replicas, writeHead, bytes) && commitDelta <= |bytes|
                && AppendBytes(appends[..pending]) == bytes[..commitDelta]
      ensures AllSound(old(replicas)) && (forall k :: AllWritten(net(k))) ==> !writeErr && AllSound(replicas)
    {
      hide ReplicaOk, InTransaction, OpenAt, AllSound, AllWritten, AppendBytes, ReaderBytes, AreConsumed, Agreement;
      ghost var at := writeHead;
      var readErr, k := false, 0;
      var consumed := 0;
      commitDelta, pending, writeErr, bytes := 0, 0, false, [];
      results := seq(|appends|, _ => None);
      OpenAll(replicas, at, bytes, bytes);
      NoBytes(appends);
      while consumed < |appends| && !readErr && !writeErr && commitDelta < CommitThreshold
        invariant consumed <= |appends| == |results|
        invariant SameCommitted(old(replicas), replicas) && AllOpen(replicas, at)
        invariant pending == (if readErr then consumed - 1 else consumed) && 0 <= pending
        invariant !writeErr ==>
          AllIn(replicas, at, bytes) && commitDelta <= |bytes|
          && AppendBytes(appends[..pending]) == bytes[..commitDelta]
        invariant !writeErr && !readErr ==> |bytes| == commitDelta
        invariant writeHead == at
        invariant AllSound(old(replicas)) && (forall k :: AllWritten(net(k))) ==> !writeErr && AllSound(replicas)
        invariant forall j :: 0 <= j < consumed ==> |AppendBytes(appends[..j])| < CommitThreshold
        invariant consumed == 0 ==> commitDelta == 0 && !writeErr
        invariant readErr && !writeErr ==> appends[pending].fails
        invariant forall j :: 0 <= j < |appends| ==>
                  results[j] == if readErr && j == pending then Some(Failure) else None
      {
        ghost var before := bytes;
        var written;
        assert |AppendBytes(appends[..consumed])| == commitDelta;
        written, readErr, writeErr, k := StreamToWriters(at, bytes, appends[consumed], k, net);
        if readErr {
          results := results[consumed := Some(Failure)];
        } else {
          commitDelta := commitDelta + written;
          pending := pending + 1;
        }
        NextBytes(appends, consumed);
        if !writeErr {
          bytes := bytes + ReaderBytes(appends[consumed]);
          assert before[..|before|] == before && bytes[..|bytes|] == bytes;
          assert bytes[..|before|] == before;
        }
        consumed := consumed + 1;
      }
      EndsConsumed(appends, results, consumed, pending, readErr, writeErr);
    }

    /** Answers appends which share the outcome of the transaction. */
    method Answer(
      ghost appends: seq<Reader>, consumed: seq<Option<AppendResult>>, pending: nat, ghost writeErr: bool, ok: bool)
      returns (results: seq<Option<AppendResult>>)
      requires AreConsumed(appends, consumed, pending, writeErr) && (ok ==> !writeErr)
      ensures AreAnswered(appends, results, pending, ok, writeHead)
    {
      hide AppendBytes;
      results := consumed;
      for j := 0 to pending
        invariant |results| == |consumed|
        invariant forall i :: 0 <= i < |results| ==>
                    results[i] == if i < j then Some(if ok then Success(writeHead) else Failure) else consumed[i]
      {
        results := results[j := Some(if ok then Success(writeHead) else Failure)];
      }
    }

    /**
     * Streams the first of `appends`, and those which are found waiting, to all replicas, and commits what was
     * read completely. The first `pending` of `appends` share one outcome.
     *
     * Success means that every replica has committed every one of them, one after the other, right below the
     * returned write head; otherwise each is answered with a failure. Whatever happens, replicas agree, and nothing
     * which was committed is lost. If all have written everything, then the write head moves past what was read if just
     * one replica commits.
     */
    method PhaseTwo(appends: seq<Reader>, net: nat -> seq<WriteNet>, commits: seq<CommitNet>)
      returns (ok: bool, pending: nat, results: seq<Option<AppendResult>>)
      requires appends != [] && replicas != [] && |commits| == |replicas| && forall k :: |net(k)| == |replicas|
      requires AllIn(replicas, writeHead, []) && Agreement(replicas)
      modifies this
      ensures Valid() && |replicas| == |old(replicas)|
      ensures forall i :: 0 <= i < |replicas| ==> Includes(replicas[i].committed, old(replicas)[i].committed)
      ensures AreAnswered(appends, results, pending, ok, writeHead)
      ensures ok ==> writeHead == old(writeHead) + |AppendBytes(appends[..pending])|
      ensures ok ==> forall i, j :: 0 <= i < |replicas| && 0 <= j < pending ==>
                AppendIsCommitted(replicas[i], old(writeHead), appends, j)
      ensures writeHead != old(writeHead) ==>
                var bytes := AppendBytes(appends[..pending]);
                && writeHead == old(writeHead) + |bytes|
                && exists i :: 0 <= i < |replicas| && Committed(old(replicas)[i], replicas[i], old(writeHead), bytes)
      ensures AllSound(old(replicas)) && (forall k :: AllWritten(net(k))) && AnyDelivered(commits) ==>
                writeHead == old(writeHead) + |AppendBytes(appends[..pending])|
      ensures writtenSinceRoll - old(writtenSinceRoll) == writeHead - old(writeHead)
      ensures AllSound(old(replicas)) && (forall k :: AllWritten(net(k))) && AllDelivered(commits) ==>
                ok && (appends[0].fails || pending > 0)
    {
      hide ReplicaOk, InTransaction, OpenAt, Block, AppendIsCommitted, Agreement, Includes, AllSound, AllWritten;
      hide AllDelivered, AnyDelivered, AreAnswered;
      ghost var at := writeHead;
      var commitDelta, writeErr, consumed;
      ghost var bytes;
      commitDelta, pending, writeErr, consumed, bytes := Consume(appends, net);
      if writeErr {
        commitDelta, bytes := 0, [];
      }
      CanCommitAll(replicas, at, bytes, commitDelta, writeErr);
      ghost var mid := replicas;
      var sawError, sawSuccess := CommitAll(at, bytes, commitDelta, commits);
      CommittedFromOpen(old(replicas), mid, replicas, at, bytes[..commitDelta]);
      assert forall i :: 0 <= i < |replicas| && Committed(mid[i], replicas[i], at, bytes[..commitDelta]) ==>
          Committed(old(replicas)[i], replicas[i], at, bytes[..commitDelta]);
      if sawSuccess {
        writeHead := writeHead + commitDelta;
        writtenSinceRoll := writtenSinceRoll + commitDelta;
      }
      ok := !sawError && !writeErr;
      results := Answer(appends, consumed, pending, writeErr, ok);
      if ok {
        CommittedAppends(old(replicas), replicas, at, appends, pending);
      }
    }

    /** One iteration of the broker's loop which takes an append. */
    method Transact(tx: Transaction) returns (ok: bool, pending: nat, results: seq<Option<AppendResult>>)
      requires Valid() && Fits(tx, |replicas|)
      modifies this
      ensures Valid() && |replicas| == |old(replicas)| && writeHead >= old(writeHead)
      ensures forall i :: 0 <= i < |replicas| ==> Includes(replicas[i].committed, old(replicas)[i].committed)
      ensures AreAnswered(tx.appends, results, pending, ok, writeHead)
      ensures ok ==> writeHead == old(writeHead) + |AppendBytes(tx.appends[..pending])|
      ensures ok ==> forall j :: 0 <= j < pending ==> IsReplicated(replicas, old(writeHead), tx.appends, j)
      ensures ok ==> var since := if old(writtenSinceRoll) > SpoolRollSize then 0 else old(writtenSinceRoll);
                     writtenSinceRoll - since == writeHead - old(writeHead)
      ensures IsRefused(old(replicas), old(writeHead), tx) ==> !ok && AllBehind(replicas, writeHead)
      ensures Prospers(old(replicas), old(writeHead), tx) ==> ok && pending > 0
    {
      hide ReplicaOk, InTransaction, Agreement, AllIn, AppendIsCommitted, AllSound, AllWritten, AllDelivered;
      hide AllReached, AllBehind, HeadsStay, AllRolled, IsGreatestHeard, AppendBytes;
      if writtenSinceRoll > SpoolRollSize {
        writtenSinceRoll := 0;
      }
      ghost var before := replicas;
      var accepted := PhaseOne(tx.opens, tx.aborts);
      if !accepted {
        results := seq(|tx.appends|, _ => None)[0 := Some(Failure)];
        NoBytes(tx.appends);
        return false, 0, results;
      }
      ok, pending, results := PhaseTwo(tx.appends, tx.writes, tx.commits);
    }

    /**
     * A run of the broker: config updates and transactions in any order. Throughout, no two replicas ever commit
     * different bytes at one offset, and what was committed stays committed. Each append which is reported
     * as a success is at that time, and remains to the end, committed by every replica: at its own offset, in
     * line with the other appends of its transaction, right below the write head which was returned.
     */
    method Serve(events: seq<BrokerEvent>)
      returns (results: seq<seq<Option<AppendResult>>>, ghost trace: seq<(seq<Replica>, int)>)
      requires Valid() && forall i :: 0 <= i < |events| && events[i].Append? ==> Fits(events[i].tx, |replicas|)
      modifies this
      ensures Valid() && |replicas| == |old(replicas)| && writeHead >= old(writeHead)
      ensures forall i :: 0 <= i < |replicas| ==> Includes(replicas[i].committed, old(replicas)[i].committed)
      ensures |results| == |events|
      ensures forall e :: 0 <= e < |events| ==> AreTrue(replicas, writeHead, events[e], results[e])
      ensures |trace| == |events| + 1 && trace[0] == (old(replicas), old(writeHead))
              && trace[|events|] == (replicas, writeHead)
      ensures forall e :: 0 <= e < |events| ==> IsReported(trace[e], trace[e + 1], events[e], results[e])
      ensures forall d: nat, e: nat :: IsRetried(trace, events, d, e) ==>
                e < |events| && results[e] != [] && results[e][0] == Some(Success(trace[e + 1].1))
    {
      hide ReplicaOk, Agreement, Block, AreTrue, MeetsNoFailure, AllBehind, IsRefused, AppendBytes, IsLeftOut;
      hide IsRetried;
      results := [];
      trace := [(replicas, writeHead)];
      for e := 0 to |events|
        invariant Valid() && |replicas| == |old(replicas)| && writeHead >= old(writeHead)
        invariant forall i :: 0 <= i < |replicas| ==> Includes(replicas[i].committed, old(replicas)[i].committed)
        invariant |results| == e && |trace| == e + 1 && trace[0] == (old(replicas), old(writeHead))
                  && trace[e] == (replicas, writeHead)
        invariant forall d :: 0 <= d < e ==> IsReported(trace[d], trace[d + 1], events[d], results[d])
        invariant forall d :: 0 <= d < e ==> AreTrue(replicas, writeHead, events[d], results[d])
      {
        ghost var at, before := writeHead, replicas;
        match events[e] {
          case ConfigUpdate(head) =>
            OnConfigUpdate(head);
            NothingIsTrue(replicas, writeHead, head);
            results := results + [[]];
          case Append(tx) =>
            var ok, pending, outcome := Transact(tx);
            OutcomeIsTrue(replicas, at, writeHead, tx, ok, pending, outcome);
            results := results + [outcome];
        }
        trace := trace + [(replicas, writeHead)];
        forall d | 0 <= d < e
          ensures AreTrue(replicas, writeHead, events[d], results[d])
        {
          StaysTrue(before, at, replicas, writeHead, events[d], results[d]);
        }
      }
      forall d: nat, e: nat | IsRetried(trace, events, d, e)
        ensures e < |events| && results[e] != [] && results[e][0] == Some(Success(trace[e + 1].1))
      {
        RetriedIsEvent(trace, events, d, e);
        RetrySucceeds(trace, events, results, d, e);
      }
    }
  }

  /** `p` appends of a transaction at `at` end at `head`, and every replica has committed the `j`-th in its place. */
  ghost predicate IsInPlace(rs: seq<Replica>, appends: seq<Reader>, j: nat, at: int, p: nat, head: int) {
    && j < p <= |appends| && head == at + |AppendBytes(appends[..p])|
    && IsReplicated(rs, at, appends, j)
  }

  /**
   * The results of an event are true of the replicas: for each success there's a number of appends, which all are
   * successes, whose bytes end at the returned write head, and of which every replica has committed this one.
   */
  ghost predicate IsTrue(rs: seq<Replica>, writeHead: int,
                         appends: seq<Reader>, results: seq<Option<AppendResult>>, j: nat)
    requires j < |results|
  {
    results[j].Some? && results[j].value.Success? ==>
      var head := results[j].value.writeHead;
      && head <= writeHead
      && exists at, p ::
        && IsInPlace(rs, appends, j, at, p, head)
        && forall k :: 0 <= k < |results| ==> (results[k] == Some(Success(head)) <==> k < p)
  }

  ghost predicate AreTrue(rs: seq<Replica>, writeHead: int, event: BrokerEvent, results: seq<Option<AppendResult>>) {
    match event
    case ConfigUpdate(_) => results == []
    case Append(tx) =>
      |results| == |tx.appends| && forall j :: 0 <= j < |results| ==> IsTrue(rs, writeHead, tx.appends, results, j)
  }

  /**
   * An event takes replicas and the write head from one state to the next, in which nothing is lost. Appends are
   * answered. One which meets no failure is reported as a success; if one is refused by replicas which are ahead, then
   * none is ahead afterwards.
   */
  ghost predicate IsReported(
    before: (seq<Replica>, int), after: (seq<Replica>, int), event: BrokerEvent, results: seq<Option<AppendResult>>)
  {
    && |before.0| == |after.0| && before.1 <= after.1 && AreTrue(after.0, after.1, event, results)
    && (forall i :: 0 <= i < |before.0| ==> Includes(after.0[i].committed, before.0[i].committed))
    && match event
       case ConfigUpdate(head) => after.0 == before.0
       case Append(tx) =>
         && (exists pending, ok :: AreAnswered(tx.appends, results, pending, ok, after.1))
         && (Prospers(before.0, before.1, tx) ==> results != [] && results[0] == Some(Success(after.1)))
         && (IsRefused(before.0, before.1, tx) ==> AllBehind(after.0, after.1))
  }

  /** Replicas refuse event `d`, only config updates follow it, and event `e` is an append which meets no failure. */
  ghost predicate IsRetried(trace: seq<(seq<Replica>, int)>, events: seq<BrokerEvent>, d: nat, e: nat) {
    && d < e < |events| < |trace| && events[d].Append? && events[e].Append?
    && IsRefused(trace[d].0, trace[d].1, events[d].tx) && MeetsNoFailure(events[e].tx)
    && forall k :: d < k < e ==> events[k].ConfigUpdate?
  }

  lemma RetriedIsEvent(trace: seq<(seq<Replica>, int)>, events: seq<BrokerEvent>, d: nat, e: nat)
    requires IsRetried(trace, events, d, e)
    ensures e < |events|
  {
  }

  lemma {:induction false} StaysBehind(
    trace: seq<(seq<Replica>, int)>, events: seq<BrokerEvent>, results: seq<seq<Option<AppendResult>>>, d: nat, e: nat)
    requires |trace| == |events| + 1 && |results| == |events|
    requires forall k :: 0 <= k < |events| ==> IsReported(trace[k], trace[k + 1], events[k], results[k])
    requires d < e < |events| && events[d].Append? && IsRefused(trace[d].0, trace[d].1, events[d].tx)
    requires forall k :: d < k < e ==> events[k].ConfigUpdate?
    ensures trace[e].0 != [] && AllBehind(trace[e].0, trace[e].1)
    decreases e
  {
    hide AreTrue, AreAnswered, Prospers, Includes;
    assert IsReported(trace[e - 1], trace[e], events[e - 1], results[e - 1]);
    if d < e - 1 {
      StaysBehind(trace, events, results, d, e - 1);
    }
  }

  /** After replicas which are ahead refuse an append, the next which meets no failure is a success. */
  lemma RetrySucceeds(
    trace: seq<(seq<Replica>, int)>, events: seq<BrokerEvent>, results: seq<seq<Option<AppendResult>>>, d: nat, e: nat)
    requires |trace| == |events| + 1 && |results| == |events|
    requires forall k :: 0 <= k < |events| ==> IsReported(trace[k], trace[k + 1], events[k], results[k])
    requires IsRetried(trace, events, d, e)
    ensures results[e] != [] && results[e][0] == Some(Success(trace[e + 1].1))
  {
    StaysBehind(trace, events, results, d, e);
    hide AreTrue, AreAnswered, AllBehind, MeetsNoFailure, Includes;
    assert IsReported(trace[e], trace[e + 1], events[e], results[e]);
  }

  lemma NothingIsTrue(rs: seq<Replica>, writeHead: int, head: int)
    ensures AreTrue(rs, writeHead, ConfigUpdate(head), [])
  {
  }

  lemma OutcomeIsTrue(
    rs: seq<Replica>, at: int, writeHead: int, tx: Transaction, ok: bool, pending: nat,
    results: seq<Option<AppendResult>>)
    requires AreAnswered(tx.appends, results, pending, ok, writeHead)
    requires ok ==> writeHead == at + |AppendBytes(tx.appends[..pending])|
    requires ok ==> forall j :: 0 <= j < pending ==> IsReplicated(rs, at, tx.appends, j)
    ensures AreTrue(rs, writeHead, Append(tx), results)
  {
    hide IsReplicated, AppendBytes;
    forall j | 0 <= j < |results|
      ensures IsTrue(rs, writeHead, tx.appends, results, j)
    {
      if results[j].Some? && results[j].value.Success? {
        assert IsInPlace(rs, tx.appends, j, at, pending, writeHead);
      }
    }
  }

  /** What replicas have committed stays committed, so results stay true. */
  lemma StaysTrue(
    before: seq<Replica>, head: int, after: seq<Replica>, head': int, event: BrokerEvent,
    results: seq<Option<AppendResult>>)
    requires |before| == |after| && head <= head' && AreTrue(before, head, event, results)
    requires forall i :: 0 <= i < |before| ==> Includes(after[i].committed, before[i].committed)
    ensures AreTrue(after, head', event, results)
  {
    hide IsReplicated, AppendBytes, Includes;
    if event.Append? {
      var appends := event.tx.appends;
      forall j | 0 <= j < |results|
        ensures IsTrue(after, head', appends, results, j)
      {
        assert IsTrue(before, head, appends, results, j);
        if results[j].Some? && results[j].value.Success? {
          var h := results[j].value.writeHead;
          var at, p :| && IsInPlace(before, appends, j, at, p, h)
                       && forall k :: 0 <= k < |results| ==> (results[k] == Some(Success(h)) <==> k < p);
          StaysReplicated(before, after, at, appends, j);
          assert IsInPlace(after, appends, j, at, p, h);
        }
      }
    }
  }

  lemma StaysReplicated(before: seq<Replica>, after: seq<Replica>, at: int, appends: seq<Reader>, j: nat)
    requires j < |appends| && |before| == |after| && IsReplicated(before, at, appends, j)
    requires forall i :: 0 <= i < |before| ==> Includes(after[i].committed, before[i].committed)
    ensures IsReplicated(after, at, appends, j)
  {
    hide Block, AppendBytes, ReaderBytes;
    forall i | 0 <= i < |after|
      ensures AppendIsCommitted(after[i], at, appends, j)
    {
      assert AppendIsCommitted(before[i], at, appends, j);
      IncludesTransitive(
        after[i].committed, before[i].committed, Block(at + |AppendBytes(appends[..j])|, ReaderBytes(appends[j])));
    }
  }

  /** An append, those which are found waiting behind it, and what happens to their transaction. */
  datatype Transaction = Transaction(
    appends: seq<Reader>,
    opens: seq<OpenNet>,
    aborts: seq<CommitNet>,
    writes: nat -> seq<WriteNet>,
    commits: seq<CommitNet>)

  ghost predicate Fits(tx: Transaction, n: nat) {
    tx.appends != [] && |tx.opens| == |tx.aborts| == |tx.commits| == n && forall k :: |tx.writes(k)| == n
  }

  predicate AllReached(net: seq<OpenNet>) {
    forall i :: 0 <= i < |net| ==> net[i] == Reached(true)
  }

  predicate AllWritten(net: seq<WriteNet>) {
    forall i :: 0 <= i < |net| ==> net[i] == Written
  }

  predicate AllDelivered(net: seq<CommitNet>) {
    forall i :: 0 <= i < |net| ==> net[i] == Delivered(NoFault)
  }

  predicate AnyDelivered(net: seq<CommitNet>) {
    exists i :: 0 <= i < |net| && net[i] == Delivered(NoFault)
  }

  predicate AllBehind(rs: seq<Replica>, head: int) {
    forall i :: 0 <= i < |rs| ==> rs[i].writeHead <= head
  }

  /** Nothing fails, and the first append can be read. */
  ghost predicate MeetsNoFailure(tx: Transaction) {
    && tx.appends != [] && !tx.appends[0].fails
    && AllReached(tx.opens) && (forall k :: AllWritten(tx.writes(k))) && AllDelivered(tx.commits)
  }

  /** There are replicas, none is ahead, and nothing fails. */
  ghost predicate Prospers(rs: seq<Replica>, head: int, tx: Transaction) {
    rs != [] && AllBehind(rs, head) && MeetsNoFailure(tx)
  }

  /** All replicas are reached, but some is ahead, and refuses. */
  ghost predicate IsRefused(rs: seq<Replica>, head: int, tx: Transaction) {
    AllReached(tx.opens) && !AllBehind(rs, head)
  }

  datatype BrokerEvent = ConfigUpdate(head: int) | Append(tx: Transaction)

  lemma IncludesTransitive(a: map<int, byte>, b: map<int, byte>, c: map<int, byte>)
    requires Includes(a, b) && Includes(b, c)
    ensures Includes(a, c)
  {
  }

  ghost predicate IsReplicated(rs: seq<Replica>, at: int, appends: seq<Reader>, j: nat)
    requires j < |appends|
  {
    forall i :: 0 <= i < |rs| ==> AppendIsCommitted(rs[i], at, appends, j)
  }

  lemma InTransactionIsOpen(r: Replica, at: int, bytes: Bytes)
    requires InTransaction(r, at, bytes)
    ensures ReplicaOk(r) && r.open
  {
    hide ReplicaOk;
  }

  lemma CanCommitIsOpen(r: Replica, at: int, bytes: Bytes, delta: nat)
    requires CanCommit(r, at, bytes, delta)
    ensures ReplicaOk(r) && r.open
  {
    hide ReplicaOk;
  }

  /** Replicas which have written `x` or `y` are in the transaction. */
  lemma OpenAll(rs: seq<Replica>, at: int, x: Bytes, y: Bytes)
    requires forall i :: 0 <= i < |rs| ==> InTransaction(rs[i], at, x) || InTransaction(rs[i], at, y)
    ensures AllOpen(rs, at)
  {
    hide ReplicaOk;
  }

  lemma CanCommitAll(rs: seq<Replica>, at: int, bytes: Bytes, delta: nat, writeErr: bool)
    requires AllOpen(rs, at) && delta <= |bytes| && (writeErr ==> delta == 0) && (!writeErr ==> AllIn(rs, at, bytes))
    ensures forall i :: 0 <= i < |rs| ==> CanCommit(rs[i], at, bytes, delta)
  {
    hide ReplicaOk, OpenAt, InTransaction;
  }

  /** `j` of `appends` stands where it was streamed to, in a transaction which began at `at`. */
  ghost predicate AppendIsCommitted(r: Replica, at: int, appends: seq<Reader>, j: nat)
    requires j < |appends|
  {
    Includes(r.committed, Block(at + |AppendBytes(appends[..j])|, ReaderBytes(appends[j])))
  }

  lemma OpenOf(r: Replica, at: int, bytes: Bytes)
    requires InTransaction(r, at, bytes)
    ensures OpenAt(r, at)
  {
    hide ReplicaOk;
  }

  /** Commits which follow a transaction keep replicas in agreement, and keep what was committed. */
  lemma CommittedFromOpen(rs: seq<Replica>, mid: seq<Replica>, ns: seq<Replica>, at: int, bytes: Bytes)
    requires Agreement(rs) && SameCommitted(rs, mid) && AllOpen(mid, at) && CommittedSome(mid, ns, at, bytes)
    ensures Agreement(ns)
    ensures forall i :: 0 <= i < |rs| ==> Includes(ns[i].committed, rs[i].committed)
  {
    forall i, o | 0 <= i < |rs| && o in rs[i].committed ensures o < at {
      assert OpenAt(mid[i], at);
    }
    AgreementIsKept(rs, ns, at, bytes);
    BlockKeys(at, bytes);
    hide Block, Agreement, ReplicaOk;
  }

  lemma {:induction false} AppendIsInBlock(at: int, appends: seq<Reader>, p: nat, j: nat)
    requires j < p <= |appends|
    ensures Includes(Block(at, AppendBytes(appends[..p])),
            Block(at + |AppendBytes(appends[..j])|, ReaderBytes(appends[j])))
    decreases p
  {
    var init, last := AppendBytes(appends[..p - 1]), ReaderBytes(appends[p - 1]);
    assert appends[..p][..p - 1] == appends[..p - 1];
    BlockOfConcat(at, init, last);
    BlockKeys(at, init);
    BlockKeys(at + |init|, last);
    if j < p - 1 {
      AppendIsInBlock(at, appends, p - 1, j);
    }
    assert AppendBytes(appends[..p]) == init + last;
    hide Block, AppendBytes;
  }

  lemma CommittedAppends(rs: seq<Replica>, ns: seq<Replica>, at: int, appends: seq<Reader>, p: nat)
    requires |rs| == |ns| && p <= |appends|
    requires forall i :: 0 <= i < |ns| ==> Committed(rs[i], ns[i], at, AppendBytes(appends[..p]))
    ensures forall i, j :: 0 <= i < |ns| && 0 <= j < p ==> AppendIsCommitted(ns[i], at, appends, j)
  {
    hide Block;
    forall i, j | 0 <= i < |ns| && 0 <= j < p ensures AppendIsCommitted(ns[i], at, appends, j) {
      AppendIsInBlock(at, appends, p, j);
    }
  }
}

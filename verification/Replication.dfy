/**
 * The replica side of a journal transaction (pkg/journal/spool.go and pkg/journal/head.go): a Spool holds
 * bytes which are written but not committed yet, and a Head serves one transaction at a time. Failures of
 * the disk are parameters.
 */
module Replication {
  import opened Common

  // ---------------------------------------------------------------------------
  // Spool

  /**
   * The fragment [begin, end) is committed. Its file may hold more bytes than that: `delta` of them are
   * written by the current transaction, and what is behind the file position `pos` is left-over.
   */
  datatype SpoolState = SpoolState(begin: int, end: int, file: Bytes, pos: nat, delta: nat, failed: bool)

  /** Where a Commit fails, if it does. A failing rename comes after the commit was recorded. */
  datatype CommitFault = NoFault | SyncFails | RenameFails

  ghost predicate SpoolOk(s: SpoolState) {
    && s.begin <= s.end
    && s.end - s.begin <= |s.file|
    && (!s.failed ==> s.pos == s.end - s.begin + s.delta <= |s.file|)
  }

  function NewSpool(at: int): SpoolState {
    SpoolState(at, at, [], 0, 0, false)
  }

  /** The committed bytes of the fragment. */
  function Content(s: SpoolState): Bytes
    requires s.begin <= s.end && s.end - s.begin <= |s.file|
  {
    s.file[..s.end - s.begin]
  }

  /** The bytes which the current transaction has written. */
  function Pending(s: SpoolState): Bytes
    requires s.begin <= s.end && s.end - s.begin <= s.pos <= |s.file|
  {
    s.file[s.end - s.begin..s.pos]
  }

  function Overwrite(file: Bytes, pos: nat, buf: Bytes): Bytes
    requires pos <= |file|
  {
    file[..pos] + buf + if pos + |buf| <= |file| then file[pos + |buf|..] else []
  }

  /** Spool.Write: the number of bytes which reach the file is all of `buf`, or `fault` if writing fails. */
  function SpoolWrite(s: SpoolState, buf: Bytes, fault: Option<nat>): (SpoolState, bool)
    requires !s.failed ==> s.pos <= |s.file|
  {
    if s.failed then (s, false)
    else if fault.Some? then
      var n := if fault.value <= |buf| then fault.value else |buf|;
      (s.(file := Overwrite(s.file, s.pos, buf[..n]), pos := s.pos + n, failed := true), false)
    else
      (s.(file := Overwrite(s.file, s.pos, buf), pos := s.pos + |buf|, delta := s.delta + |buf|), true)
  }

  /** Spool.Commit of the first `delta` written bytes. What else was written is rolled back. */
  function SpoolCommit(s: SpoolState, delta: nat, fault: CommitFault): (SpoolState, bool)
    requires SpoolOk(s)
  {
    if s.failed then (s, false)
    else if delta > s.delta then (s, false)
    else if s.delta == 0 then (s, true)
    else if fault.SyncFails? then (s.(failed := true), false)
    else
      var next := s.(end := s.end + delta, pos := s.end - s.begin + delta, delta := 0);
      if fault.RenameFails? then (next.(failed := true), false) else (next, true)
  }

  lemma SpoolWriteMeaning(s: SpoolState, buf: Bytes, fault: Option<nat>)
    requires SpoolOk(s)
    ensures var (n, ok) := SpoolWrite(s, buf, fault);
            && SpoolOk(n) && n.begin == s.begin && n.end == s.end && Content(n) == Content(s)
            && (ok <==> !n.failed)
            && (ok ==> !s.failed && Pending(n) == Pending(s) + buf)
  {
  }

  /** A commit appends a prefix of the pending bytes, or fails; either way nothing is pending afterwards. */
  lemma SpoolCommitMeaning(s: SpoolState, delta: nat, fault: CommitFault)
    requires SpoolOk(s) && (!s.failed ==> delta <= s.delta)
    ensures var (n, ok) := SpoolCommit(s, delta, fault);
            && SpoolOk(n) && n.begin == s.begin
            && (!n.failed ==> n.delta == 0 && Pending(n) == [])
            && (n.end == s.end || n.end == s.end + delta)
            && (n.end == s.end ==> Content(n) == Content(s))
            && (n.end != s.end ==> !s.failed && Content(n) == Content(s) + Pending(s)[..delta])
            && (ok ==> !s.failed && !n.failed && n.end == s.end + delta)
  {
    var (n, ok) := SpoolCommit(s, delta, fault);
    if n.end != s.end {
      var a := s.end - s.begin;
      SliceOfSlice(s.file, a, s.pos, delta);
      assert s.file[..a + delta] == s.file[..a] + s.file[a..a + delta];
    }
  }

  // ---------------------------------------------------------------------------
  // Head

  /**
   * A replica: its write head, its current spool, whether a transaction is open, and every byte which it has
   * ever committed, by journal offset.
   */
  datatype Replica = Replica(writeHead: int, spool: Option<SpoolState>, open: bool, committed: map<int, byte>)

  datatype ReplicateResult = Accepted | WrongWriteHead(head: int) | ReplicateFailed

  function ByteAt(bytes: Bytes, at: int, o: int): byte
    requires at <= o < at + |bytes|
  {
    bytes[o - at]
  }

  /** `bytes` at the journal offsets from `at` on. */
  function Block(at: int, bytes: Bytes): map<int, byte> {
    map o | at <= o < at + |bytes| :: ByteAt(bytes, at, o)
  }

  ghost predicate Includes(all: map<int, byte>, part: map<int, byte>) {
    forall o :: o in part ==> o in all && all[o] == part[o]
  }

  lemma BlockOfConcat(at: int, x: Bytes, y: Bytes)
    ensures Block(at, x + y) == Block(at, x) + Block(at + |x|, y)
  {
  }

  ghost predicate ReplicaOk(r: Replica) {
    && (r.spool.Some? ==>
          && SpoolOk(r.spool.value)
          && r.spool.value.end <= r.writeHead
          && (!r.open && !r.spool.value.failed ==> r.spool.value.delta == 0))
    && (r.open ==> r.spool.Some? && r.spool.value.end == r.writeHead)
    && (forall o :: o in r.committed ==> o < r.writeHead)
    && (r.spool.Some? ==> Includes(r.committed, Block(r.spool.value.begin, Content(r.spool.value))))
  }

  /** Head.onWrite. `diskOk` is whether a new spool can be created. */
  function OnWrite(r: Replica, writeHead: int, newSpool: bool, diskOk: bool): (Replica, ReplicateResult) {
    if writeHead < r.writeHead then (r, WrongWriteHead(r.writeHead))
    else
      var at := r.(writeHead := writeHead);
      if r.spool.None? || r.spool.value.failed || r.spool.value.end != writeHead || newSpool then
        if diskOk then (at.(spool := Some(NewSpool(writeHead)), open := true), Accepted)
        else (at, ReplicateFailed)
      else (at.(open := true), Accepted)
  }

  /** headTransaction.Write. */
  function TxWrite(r: Replica, buf: Bytes, fault: Option<nat>): (Replica, bool)
    requires r.open && ReplicaOk(r)
  {
    var (s, ok) := SpoolWrite(r.spool.value, buf, fault);
    (r.(spool := Some(s)), ok)
  }

  /** headTransaction.Commit, which ends the transaction. */
  function TxCommit(r: Replica, delta: nat, fault: CommitFault): (Replica, bool)
    requires r.open && ReplicaOk(r)
  {
    var s := r.spool.value;
    var (n, ok) := SpoolCommit(s, delta, fault);
    var bytes := n.file[s.end - s.begin..n.end - s.begin];
    (Replica(n.end, Some(n), false, r.committed + Block(s.end, bytes)), ok)
  }

  /** The replica is in a transaction at `head`, and has written `bytes`, unless its spool failed. */
  ghost predicate InTransaction(r: Replica, head: int, bytes: Bytes) {
    && ReplicaOk(r) && r.open && r.writeHead == head
    && (!r.spool.value.failed ==> Pending(r.spool.value) == bytes)
  }

  lemma OnWriteMeaning(r: Replica, writeHead: int, newSpool: bool, diskOk: bool)
    requires ReplicaOk(r) && !r.open
    ensures var (n, result) := OnWrite(r, writeHead, newSpool, diskOk);
            && ReplicaOk(n) && n.committed == r.committed
            && (result.WrongWriteHead? <==> writeHead < r.writeHead)
            && (result.WrongWriteHead? ==> result.head == r.writeHead && n == r)
            && (result.Accepted? ==> InTransaction(n, writeHead, []) && n.spool.Some? && !n.spool.value.failed)
            && (!result.Accepted? ==> !n.open)
            && (diskOk && r.writeHead <= writeHead ==> result.Accepted?)
            && (n.writeHead == r.writeHead || n.writeHead == writeHead)
            && (result.Accepted? ==> IsRolled(r, n, writeHead, newSpool))
  {
    NewSpoolIsEmpty(writeHead);
    BlockKeys(writeHead, []);
    IncludesNone(r.committed);
    SpoolHasNothingPending(r);
    hide Block, Content, Pending, SpoolOk, Includes, NewSpool;
  }

  lemma IncludesNone(all: map<int, byte>)
    ensures Includes(all, map[])
  {
  }

  lemma NewSpoolIsEmpty(at: int)
    ensures SpoolOk(NewSpool(at)) && Content(NewSpool(at)) == [] && Pending(NewSpool(at)) == []
    ensures NewSpool(at).begin == NewSpool(at).end == at && !NewSpool(at).failed
  {
  }

  lemma SpoolHasNothingPending(r: Replica)
    requires ReplicaOk(r) && !r.open
    ensures r.spool.Some? ==> SpoolOk(r.spool.value)
    ensures r.spool.Some? && !r.spool.value.failed ==> Pending(r.spool.value) == []
  {
    hide Includes, Block, Content;
  }

  /** The replica writes to a new spool if asked to, or if its last one can't be continued; else to its last one. */
  ghost predicate IsRolled(r: Replica, n: Replica, head: int, newSpool: bool) {
    if newSpool || r.spool.None? || r.spool.value.failed || r.spool.value.end != head
    then n.spool == Some(NewSpool(head))
    else n.spool == r.spool
  }

  lemma TxWriteMeaning(r: Replica, head: int, bytes: Bytes, buf: Bytes, fault: Option<nat>)
    requires InTransaction(r, head, bytes)
    ensures var (n, ok) := TxWrite(r, buf, fault);
            && InTransaction(n, head, bytes + buf) && n.committed == r.committed
            && (ok <==> !n.spool.value.failed)
            && (n.spool.value.failed || !r.spool.value.failed)
  {
    SpoolWriteMeaning(r.spool.value, buf, fault);
    hide SpoolWrite;
  }

  ghost predicate HasCommitted(r: Replica, n: Replica, head: int, bytes: Bytes, delta: nat) {
    delta <= |bytes| && n.committed == r.committed + Block(head, bytes[..delta]) && n.writeHead == head + delta
  }

  /** All of the first `delta` bytes are committed, or none; success means all, and an advanced write head. */
  lemma TxCommitMeaning(r: Replica, head: int, bytes: Bytes, delta: nat, fault: CommitFault)
    requires InTransaction(r, head, bytes) && (!r.spool.value.failed ==> delta <= |bytes|)
    ensures var (n, ok) := TxCommit(r, delta, fault);
            && ReplicaOk(n) && !n.open
            && ((n.committed == r.committed && n.writeHead == head) || HasCommitted(r, n, head, bytes, delta))
            && (ok ==> HasCommitted(r, n, head, bytes, delta))
  {
    hide SpoolCommit, Block, Content, Pending, Includes, SpoolOk;
    var s := r.spool.value;
    SpoolIsOk(r);
    SpoolCommitMeaning(s, delta, fault);
    AddedBytes(s, delta, fault);
    var (n, ok) := SpoolCommit(s, delta, fault);
    var added := n.file[s.end - s.begin..n.end - s.begin];
    BlockKeys(s.end, added);
    assert n.end == s.end && delta == 0 && !s.failed ==> bytes[..delta] == [];
    IncludesAdded(r.committed, s, n, added);
  }

  /**
   * A commit of more than was written is refused, but leaves the written bytes pending, where the next
   * transaction would commit them. The replica is fit for another transaction exactly when that is excluded.
   */
  lemma CommitKeepsReplicaIff(r: Replica, delta: nat, fault: CommitFault)
    requires ReplicaOk(r) && r.open
    ensures var s := r.spool.value;
            ReplicaOk(TxCommit(r, delta, fault).0) <==> s.failed || s.delta == 0 || delta <= s.delta
  {
    var s := r.spool.value;
    SpoolIsOk(r);
    if s.failed || delta <= s.delta {
      TxCommitMeaning(r, r.writeHead, if s.failed then [] else Pending(s), delta, fault);
    } else if s.delta == 0 {
      BlockKeys(s.end, []);
      assert s.file[s.end - s.begin..s.end - s.begin] == [];
    }
  }

  /**
   * Bytes which a refused commit leaves pending are committed by the next transaction, in front of its own. It commits
   * as many bytes as it has written, but not those.
   */
  lemma StaleBytesAreCommitted(r: Replica, head: int, stale: Bytes, delta: nat, bytes: Bytes)
    requires InTransaction(r, head, stale) && !r.spool.value.failed && stale != [] && delta > |stale|
    ensures var (refused, ok) := TxCommit(r, delta, NoFault);
            var (next, result) := OnWrite(refused, head, false, true);
            && !ok && refused.committed == r.committed && result == Accepted && ReplicaOk(next)
            && var (written, wrote) := TxWrite(next, bytes, None);
            && wrote && ReplicaOk(written) && written.open && next.open
            && var (after, committed) := TxCommit(written, |bytes|, NoFault);
            committed && after.committed == r.committed + Block(head, (stale + bytes)[..|bytes|])
  {
    SpoolIsOk(r);
    var (refused, ok) := TxCommit(r, delta, NoFault);
    var s := r.spool.value;
    BlockKeys(s.end, []);
    assert s.file[s.end - s.begin..s.end - s.begin] == [];
    assert refused == r.(open := false);
    var (next, result) := OnWrite(refused, head, false, true);
    assert next == r;
    TxWriteMeaning(next, head, stale, bytes, None);
    var (written, wrote) := TxWrite(next, bytes, None);
    SoundWrites(next, bytes);
    TxCommitMeaning(written, head, stale + bytes, |bytes|, NoFault);
    SoundCommits(written, head, stale + bytes, |bytes|);
  }

  lemma SoundWrites(r: Replica, bytes: Bytes)
    requires ReplicaOk(r) && r.open && !r.spool.value.failed
    ensures TxWrite(r, bytes, None).1 && !TxWrite(r, bytes, None).0.spool.value.failed
  {
    hide Includes, Block, Content, Overwrite;
  }

  lemma SoundCommits(r: Replica, head: int, bytes: Bytes, delta: nat)
    requires InTransaction(r, head, bytes) && !r.spool.value.failed && delta <= |bytes|
    ensures TxCommit(r, delta, NoFault).1
  {
    hide Includes, Block, Content, Pending;
    SpoolIsOk(r);
  }

  /**
   * A replica which has written `x` is told to commit two bytes. The next transaction writes `y`, commits one byte, and
   * has committed `x`.
   */
  lemma StaleByteExample(x: byte, y: byte)
    returns (r: Replica, refused: Replica, next: Replica, written: Replica, after: Replica)
    ensures ReplicaOk(r) && r.open && (refused, false) == TxCommit(r, 2, NoFault)
    ensures (next, Accepted) == OnWrite(refused, 0, false, true) && ReplicaOk(next) && next.open
    ensures (written, true) == TxWrite(next, [y], None) && ReplicaOk(written) && written.open
    ensures (after, true) == TxCommit(written, 1, NoFault) && 0 in after.committed && after.committed[0] == x
  {
    hide TxCommit, OnWrite, TxWrite, InTransaction, ReplicaOk, Block;
    NewIsInTransaction(0, [x]);
    r := NewTransaction(0, [x]);
    InTransactionIsOk(r, 0, [x]);
    StaleBytesAreCommitted(r, 0, [x], 2, [y]);
    refused := TxCommit(r, 2, NoFault).0;
    next := OnWrite(refused, 0, false, true).0;
    written := TxWrite(next, [y], None).0;
    after := TxCommit(written, 1, NoFault).0;
    assert ([x] + [y])[..1] == [x];
    FirstOfBlock(0, x);
  }

  lemma InTransactionIsOk(r: Replica, head: int, bytes: Bytes)
    requires InTransaction(r, head, bytes)
    ensures ReplicaOk(r) && r.open
  {
    hide ReplicaOk;
  }

  lemma FirstOfBlock(at: int, x: byte)
    ensures at in Block(at, [x]) && Block(at, [x])[at] == x
  {
  }

  /** A replica which has committed nothing, and has written `bytes` in a transaction. */
  function NewTransaction(head: int, bytes: Bytes): Replica {
    Replica(head, Some(SpoolState(head, head, bytes, |bytes|, |bytes|, false)), true, map[])
  }

  lemma NewIsInTransaction(head: int, bytes: Bytes)
    ensures InTransaction(NewTransaction(head, bytes), head, bytes) && ReplicaOk(NewTransaction(head, bytes))
  {
    var s := NewTransaction(head, bytes).spool.value;
    assert SpoolOk(s) && Content(s) == [] && Pending(s) == bytes;
    BlockKeys(head, []);
  }

  lemma SpoolIsOk(r: Replica)
    requires ReplicaOk(r) && r.open
    ensures var s := r.spool.value;
            SpoolOk(s) && s.begin <= s.end && s.end - s.begin <= |s.file|
              && (!s.failed ==> s.end - s.begin <= s.pos <= |s.file|)
    ensures !r.spool.value.failed ==> |Pending(r.spool.value)| == r.spool.value.delta
  {
    hide Includes, Block, Content;
  }

  lemma BlockKeys(at: int, bytes: Bytes)
    ensures forall o :: o in Block(at, bytes) <==> at <= o < at + |bytes|
    ensures bytes == [] ==> Block(at, bytes) == map[]
  {
  }

  /** The bytes which a commit adds to the fragment. */
  lemma AddedBytes(s: SpoolState, delta: nat, fault: CommitFault)
    requires SpoolOk(s) && (!s.failed ==> delta <= s.delta)
    ensures var n := SpoolCommit(s, delta, fault).0;
            && s.end <= n.end && n.end - s.begin <= |n.file|
            && var added := n.file[s.end - s.begin..n.end - s.begin];
            && Content(n) == Content(s) + added
            && (n.end == s.end ==> added == [])
            && (n.end != s.end ==> added == Pending(s)[..delta])
  {
    var n := SpoolCommit(s, delta, fault).0;
    var a := s.end - s.begin;
    assert n.file == s.file && n.begin == s.begin;
    assert s.file[..n.end - s.begin] == s.file[..a] + s.file[a..n.end - s.begin];
    if n.end != s.end {
      SliceOfSlice(s.file, a, s.pos, delta);
    }
  }

  lemma SliceOfSlice(file: Bytes, a: nat, b: nat, n: nat)
    requires a + n <= b <= |file|
    ensures file[a..b][..n] == file[a..a + n]
  {
  }

  lemma IncludesAdded(committed: map<int, byte>, s: SpoolState, n: SpoolState, added: Bytes)
    requires s.begin == n.begin && SpoolOk(s) && SpoolOk(n) && Content(n) == Content(s) + added
    requires Includes(committed, Block(s.begin, Content(s)))
    ensures Includes(committed + Block(s.end, added), Block(n.begin, Content(n)))
  {
    BlockOfConcat(s.begin, Content(s), added);
    BlockKeys(s.begin, Content(s));
    BlockKeys(s.end, added);
    hide Block;
  }

  // ---------------------------------------------------------------------------
  // Spool and Head, which change in place

  class Spool {
    const begin: int
    var end: int
    var file: Bytes
    var pos: nat
    var delta: nat
    var failed: bool

    function View(): SpoolState
      reads this
    {
      SpoolState(begin, end, file, pos, delta, failed)
    }

    constructor (at: int)
      ensures View() == NewSpool(at)
    {
      begin, end, file, pos, delta, failed := at, at, [], 0, 0, false;
    }

    method Write(buf: Bytes, fault: Option<nat>) returns (ok: bool)
      requires SpoolOk(View())
      modifies this
      ensures SpoolOk(View())
      ensures (View(), ok) == SpoolWrite(old(View()), buf, fault)
      ensures ok ==> Pending(View()) == old(Pending(View())) + buf
    {
      SpoolWriteMeaning(View(), buf, fault);
      if failed {
        return false;
      }
      if fault.Some? {
        var n := if fault.value <= |buf| then fault.value else |buf|;
        file := Overwrite(file, pos, buf[..n]);
        pos, failed := pos + n, true;
        return false;
      }
      file := Overwrite(file, pos, buf);
      pos, delta := pos + |buf|, delta + |buf|;
      return true;
    }

    method Commit(commitDelta: nat, fault: CommitFault) returns (ok: bool)
      requires SpoolOk(View())
      modifies this
      ensures SpoolOk(View())
      ensures (View(), ok) == SpoolCommit(old(View()), commitDelta, fault)
      ensures ok ==> Content(View()) == old(Content(View())) + old(Pending(View()))[..commitDelta]
    {
      if !failed && commitDelta <= delta {
        SpoolCommitMeaning(View(), commitDelta, fault);
        assert commitDelta == 0 ==> Pending(View())[..commitDelta] == [];
      }
      if failed {
        return false;
      } else if commitDelta > delta {
        return false;
      } else if delta == 0 {
        return true;
      }
      if fault.SyncFails? {
        failed := true;
        return false;
      }
      pos := end - begin + commitDelta;
      delta := 0;
      end := end + commitDelta;
      if fault.RenameFails? {
        failed := true;
        return false;
      }
      return true;
    }
  }

  class Head {
    var writeHead: int
    var spool: Spool?
    var open: bool
    ghost var committed: map<int, byte>

    ghost function View(): Replica
      reads this, spool
    {
      Replica(writeHead, if spool == null then None else Some(spool.View()), open, committed)
    }

    constructor (writeHead: int)
      ensures View() == Replica(writeHead, None, false, map[]) && ReplicaOk(View())
    {
      this.writeHead, this.spool, this.open, this.committed := writeHead, null, false, map[];
    }

    method Replicate(at: int, newSpool: bool, diskOk: bool) returns (result: ReplicateResult)
      requires ReplicaOk(View()) && !open
      modifies this
      ensures ReplicaOk(View()) && (spool == old(spool) || fresh(spool))
      ensures (View(), result) == OnWrite(old(View()), at, newSpool, diskOk)
    {
      hide ReplicaOk, InTransaction, IsRolled;
      OnWriteMeaning(View(), at, newSpool, diskOk);
      if at < writeHead {
        return WrongWriteHead(writeHead);
      } else if at > writeHead {
        writeHead := at;
      }
      if spool == null || spool.failed || spool.end != writeHead || newSpool {
        if !diskOk {
          return ReplicateFailed;
        }
        spool := new Spool(writeHead);
      }
      open := true;
      return Accepted;
    }

    method Write(buf: Bytes, fault: Option<nat>) returns (ok: bool)
      requires ReplicaOk(View()) && open
      modifies spool
      ensures ReplicaOk(View())
      ensures (View(), ok) == TxWrite(old(View()), buf, fault)
    {
      hide Includes, Block, Content, SpoolOk, SpoolWrite;
      SpoolIsOk(View());
      ghost var s := spool.View();
      TxWriteMeaning(View(), writeHead, if s.failed then [] else Pending(s), buf, fault);
      ok := spool.Write(buf, fault);
    }

    method Commit(delta: nat, fault: CommitFault) returns (ok: bool)
      requires ReplicaOk(View()) && open && (!spool.failed ==> delta <= spool.delta)
      modifies this, spool
      ensures ReplicaOk(View()) && !open && spool == old(spool)
      ensures (View(), ok) == TxCommit(old(View()), delta, fault)
    {
      hide Includes, Block, Content, SpoolOk, SpoolCommit;
      SpoolIsOk(View());
      ghost var s := spool.View();
      AddedBytes(s, delta, fault);
      TxCommitMeaning(View(), writeHead, if s.failed then [] else Pending(s), delta, fault);
      ok := spool.Commit(delta, fault);
      committed := committed + Block(s.end, spool.file[s.end - s.begin..spool.end - s.begin]);
      writeHead := spool.end;
      open := false;
    }
  }
}

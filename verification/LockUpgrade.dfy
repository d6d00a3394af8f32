/** Two readers of one file, one of which asks to write it, on the server itself: which record the search returns
    is then not left open. */
module LockUpgrade {
  import opened Basics
  import opened Storage
  import opened Protocol
  import opened Waiting
  import L = LockList
  import S = LockServer
  import V = Service

  /** A transaction that has just begun may share the file. */
  ghost predicate MayShare(s: State, t: TxnId, f: File) {
    && s.backup.Inactive? && f in s.disk && f in s.bits && f in s.walked && f !in s.waits && !s.IsExclusive(f)
    && t in s.live && t != BACKUP_TXN && s.live[t] == Txn(false, [], Running, map[], [])
  }

  /** It becomes a reader of the file, and the list grows by its record at most. */
  method Share(server: V.Server, t: TxnId, f: File)
    requires server.Valid() && MayShare(server.Abs(), t, f)
    modifies server`trace, server.locking, server.locking.locks, server.locking.locks.list, server.locking.waits
    modifies server.locking.pauses, server.locking.pauses.entries
    ensures server.Valid() && server.locking.OnlyNewRecords(old(server.locking.locks.list))
    ensures L.Grown(old(server.locking.locks.list), server.locking.locks.list, f)
    ensures var s := old(server.Abs()); server.Abs() == s.(live := s.live[t := Reader(s.bits[f], f)])
  {
    ghost var s := server.Abs();
    NoRecords(server.locking.live[t]);
    var overrun;
    ghost var owner;
    overrun, owner := server.Request(t, f, Shared);
    Shares(s, t, f, owner);
  }

  lemma NoRecords(n: S.Node)
    requires S.TxnOf(n).held == []
    ensures n.chain == []
  {
    assert |S.LocksOf(n.chain)| == |n.chain|;
  }

  /** The list holds one record of each of the transactions, all of the file. */
  ghost predicate RecordsOf(list: seq<L.FileLock>, f: File, txns: seq<TxnId>) {
    |list| == |txns| && forall i :: 0 <= i < |list| ==> list[i].inode == f && list[i].parentTxn == txns[i]
  }

  lemma AtEnd(list: seq<L.FileLock>, f: File, p: nat)
    requires p <= |list| && forall i :: 0 <= i < |list| ==> list[i].inode == f
    ensures (forall i :: p <= i < |list| ==> list[i].inode > f) ==> p == |list|
  {
    if p < |list| { assert !(list[p].inode > f); }
  }

  /** The record of a new reader stands behind those of the others. */
  lemma ReaderLast(was: seq<L.FileLock>, list: seq<L.FileLock>, live: map<TxnId, S.Node>, f: File, bit: bool,
                   txns: seq<TxnId>, t: TxnId)
    requires RecordsOf(was, f, txns) && t !in txns && L.Grown(was, list, f) && S.Owned(list, live)
    requires t in live && S.LiveOf(live)[t] == Reader(bit, f)
    ensures RecordsOf(list, f, txns + [t])
  {
    assert [Lock(f, Shared)][0] == Lock(f, Shared);
    var r := S.HeldIsRecord(list, live, t, f, Shared);
    forall i | 0 <= i < |was| ensures was[i] != r {
      assert txns[i] in txns;
    }
    assert r !in was;
    var p: nat :| p <= |was| && L.GrownAt(was, list, f, p);
    AtEnd(was, f, p);
    forall i | 0 <= i < p ensures list[i] == was[i] && list[i] != r {}
  }

  /** The search returns the second of two records. */
  lemma SecondFound(list: seq<L.FileLock>, f: File, owner: TxnId)
    requires RecordsOf(list, f, [1, 2]) && L.OwnerFound(list, f, 1, owner)
    ensures owner == 2
  {
    assert list[0] in list;
  }

  /** The server as it is when two transactions have read the file and done nothing else. */
  ghost predicate TwoRead(server: V.Server, f: File)
    reads server.locking, server.locking.locks
  {
    var s := server.Abs();
    && f in s.disk && f in s.bits && f in s.walked
    && s.live == map[1 := Reader(s.bits[f], f), 2 := Reader(s.bits[f], f)]
    && RecordsOf(server.locking.locks.list, f, [1, 2])
  }

  /** One more reader. */
  method ReadBy(server: V.Server, t: TxnId, f: File, ghost txns: seq<TxnId>)
    requires server.Valid() && MayShare(server.Abs(), t, f)
    requires RecordsOf(server.locking.locks.list, f, txns) && t !in txns
    modifies server`trace, server.locking, server.locking.locks, server.locking.locks.list, server.locking.waits
    modifies server.locking.pauses, server.locking.pauses.entries
    ensures server.Valid() && server.locking.OnlyNewRecords(old(server.locking.locks.list))
    ensures RecordsOf(server.locking.locks.list, f, txns + [t])
    ensures var s := old(server.Abs()); server.Abs() == s.(live := s.live[t := Reader(s.bits[f], f)])
  {
    ghost var was, bit := server.locking.locks.list, server.Abs().bits[f];
    Share(server, t, f);
    assert server.Abs().live[t] == Reader(bit, f);
    ReaderLast(was, server.locking.locks.list, server.locking.live, f, bit, txns, t);
  }

  /** Nothing is going on, and the file is one that the backup comes to. */
  ghost predicate Quiet(server: V.Server, f: File)
    reads server.locking, server.locking.locks
  {
    && server.locking.locks.list == []
    && MayBegin(server.Abs(), f)
  }

  ghost predicate MayBegin(s: State, f: File) {
    s.live == map[] && s.waits == map[] && s.backup.Inactive? && f in s.disk && f in s.bits && f in s.walked
  }

  const IDLE := Txn(false, [], Running, map[], [])

  /** Two transactions begin. */
  method BeginTwice(server: V.Server, f: File)
    requires server.Valid() && MayBegin(server.Abs(), f)
    modifies server`trace, server.locking`live
    ensures server.Valid() && server.Abs() == old(server.Abs()).(live := map[1 := IDLE, 2 := IDLE])
  {
    server.Begin(1);
    server.Begin(2);
  }

  lemma FirstReads(s: State, r: State, q: State, f: File)
    requires MayBegin(s, f) && r == s.(live := map[1 := IDLE, 2 := IDLE])
    requires q == r.(live := r.live[1 := Reader(r.bits[f], f)])
    ensures q == s.(live := map[1 := Reader(s.bits[f], f), 2 := IDLE]) && MayShare(q, 2, f)
  {
    assert q.live == map[1 := Reader(s.bits[f], f), 2 := IDLE];
  }

  lemma SecondReads(s: State, r: State, q: State, f: File)
    requires MayBegin(s, f) && r == s.(live := map[1 := Reader(s.bits[f], f), 2 := IDLE])
    requires q == r.(live := r.live[2 := Reader(r.bits[f], f)])
    ensures q == s.(live := map[1 := Reader(s.bits[f], f), 2 := Reader(s.bits[f], f)])
  {
    assert q.live == map[1 := Reader(s.bits[f], f), 2 := Reader(s.bits[f], f)];
  }

  /** The first one reads the file. */
  method ReadOnce(server: V.Server, f: File)
    requires server.Valid() && Quiet(server, f)
    modifies server`trace, server.locking, server.locking.locks, server.locking.locks.list, server.locking.waits
    modifies server.locking.pauses, server.locking.pauses.entries
    ensures server.Valid() && server.locking.OnlyNewRecords(old(server.locking.locks.list))
    ensures RecordsOf(server.locking.locks.list, f, [1]) && MayShare(server.Abs(), 2, f)
    ensures var s := old(server.Abs()); server.Abs() == s.(live := map[1 := Reader(s.bits[f], f), 2 := IDLE])
  {
    ghost var s := server.Abs();
    BeginTwice(server, f);
    ghost var r := server.Abs();
    ReadBy(server, 1, f, []);
    FirstReads(s, r, server.Abs(), f);
    assert [] + [1] == [1];
  }

  /** Both read the file. */
  method ReadTwice(server: V.Server, f: File)
    requires server.Valid() && Quiet(server, f)
    modifies server`trace, server.locking, server.locking.locks, server.locking.locks.list, server.locking.waits
    modifies server.locking.pauses, server.locking.pauses.entries
    ensures server.Valid() && TwoRead(server, f) && server.Abs().bits == old(server.Abs()).bits
    ensures server.locking.OnlyNewRecords(old(server.locking.locks.list))
  {
    ghost var s := server.Abs();
    ReadOnce(server, f);
    ghost var r := server.Abs();
    ReadBy(server, 2, f, [1]);
    SecondReads(s, r, server.Abs(), f);
    assert [1] + [2] == [1, 2];
  }

  /** The first reader asks to write the file. */
  method Upgrade(server: V.Server, f: File)
    requires server.Valid() && TwoRead(server, f)
    modifies server`trace, server.locking, server.locking.locks, server.locking.locks.list, server.locking.waits
    modifies server.locking.pauses, server.locking.pauses.entries
    ensures server.Valid() && server.locking.OnlyNewRecords(old(server.locking.locks.list))
    ensures server.Abs() == Block(old(server.Abs()), 1, f, Exclusive)
  {
    ghost var s, list := server.Abs(), server.locking.locks.list;
    assert s.live[1].Holds(f);
    var overrun;
    ghost var owner;
    overrun, owner := server.Request(1, f, Exclusive);
    SecondFound(list, f, owner);
    UpgradeBlocks(s, f, s.bits[f]);
  }

  /** The second reader commits. */
  method SecondCommits(server: V.Server, f: File, ghost bit: bool)
    requires server.Valid() && server.Abs().live.Keys == {1, 2} && server.Abs().live[2] == Reader(bit, f)
    requires server.Abs().live[1] == Reader(bit, f).(phase := Waiting(f, Exclusive, false))
    modifies server, server.locking, server.locking.locks, server.locking.locks.list
    ensures server.Valid() && Waiting.Stuck(server.Abs(), 1, f)
  {
    LeavesStuck(server.Abs(), f, bit);
    server.Commit(2);
  }

  lemma Sleeps(s: State, r: State, f: File, bit: bool)
    requires s.live == map[1 := Reader(bit, f), 2 := Reader(bit, f)] && r == Block(s, 1, f, Exclusive)
    ensures r.live.Keys == {1, 2} && r.live[2] == Reader(bit, f)
    ensures r.live[1] == Reader(bit, f).(phase := Waiting(f, Exclusive, false))
  {
  }

  /** Both read the file, and the first one goes to sleep. */
  method ReadAndUpgrade(server: V.Server, f: File)
    requires server.Valid() && Quiet(server, f)
    modifies server`trace, server.locking, server.locking.locks, server.locking.locks.list, server.locking.waits
    modifies server.locking.pauses, server.locking.pauses.entries
    ensures server.Valid() && server.locking.OnlyNewRecords(old(server.locking.locks.list))
    ensures var s, bit := server.Abs(), old(server.Abs()).bits[f];
            && s.live.Keys == {1, 2} && s.live[2] == Reader(bit, f)
            && s.live[1] == Reader(bit, f).(phase := Waiting(f, Exclusive, false))
  {
    ReadTwice(server, f);
    ghost var s := server.Abs();
    Upgrade(server, f);
    Sleeps(s, server.Abs(), f, s.bits[f]);
  }

  /** On a server where nothing is going on, two transactions read a file; then the first asks to write it and the
      second commits. The first sleeps on its own record, and nothing that any other thread does will wake it. */
  method UpgradeStuck(server: V.Server, f: File)
    requires server.Valid() && Quiet(server, f)
    modifies server, server.locking, server.locking.locks, server.locking.locks.list, server.locking.waits
    modifies server.locking.pauses, server.locking.pauses.entries
    ensures server.Valid() && Waiting.Stuck(server.Abs(), 1, f)
  {
    assert old(server.locking.locks.list) == [];
    ReadAndUpgrade(server, f);
    ghost var list := server.locking.locks.list;
    assert forall i :: 0 <= i < |list| ==> list[i] in list && fresh(list[i]);
    SecondCommits(server, f, old(server.Abs()).bits[f]);
  }

  /** Such a server can be had: any that has just been started. */
  method StuckServer(disk: Disk, bits: map<File, bool>, ghost initial: State, f: File) returns (server: V.Server)
    requires IsInitial(initial) && initial.disk == disk && initial.bits == bits && f in initial.walked
    ensures fresh(server) && server.Valid() && server.start == initial && Waiting.Stuck(server.Abs(), 1, f)
  {
    server := new V.Server(disk, bits, initial);
    UpgradeStuck(server, f);
  }
}

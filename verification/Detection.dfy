/** One round of deadlock detection on the server: the waiting transactions and the lock records are read off its
    lists, and the transaction picked is woken to abort. */
module Detection {
  import opened Basics
  import opened Storage
  import opened Protocol
  import Invariants
  import opened WaitForGraph
  import opened DepthFirst
  import opened DeadlockDetector
  import opened WaitEdges
  import D = DetectorLimits
  import Waiting
  import L = LockList
  import S = LockServer
  import V = Service

  /** The waiting transactions, in the order of their ids. */
  ghost predicate ListsSleepers(s: State, waiting: seq<Wait>) {
    && (forall i, j :: 0 <= i < j < |waiting| ==> waiting[i].txn < waiting[j].txn)
    && (forall i :: 0 <= i < |waiting| ==> Sleeps(s, waiting[i].txn, waiting[i].inode))
    && (forall t :: t in s.live && s.live[t].phase.Waiting? ==> IsListed(waiting, t))
  }

  ghost predicate Sleeps(s: State, t: TxnId, f: File) {
    t in s.live && s.live[t].phase.Waiting? && s.live[t].phase.file == f
  }

  ghost predicate IsListed(waiting: seq<Wait>, t: TxnId) {
    exists i :: 0 <= i < |waiting| && waiting[i].txn == t
  }

  /** Whoever waits waits for a locked file. */
  ghost predicate WaitForLocked(s: State) {
    forall t :: t in s.live && s.live[t].phase.Waiting? ==> s.IsLocked(s.live[t].phase.file)
  }

  /** So it is in every state in which no sleeper has been signalled. */
  lemma UnsignalledWaitForLocked(s: State)
    requires Waiting.WaitsSound(s)
    requires forall t :: t in s.live && s.live[t].phase.Waiting? ==> !s.live[t].phase.signalled
    ensures WaitForLocked(s)
  {
    forall t | t in s.live && s.live[t].phase.Waiting? ensures s.IsLocked(s.live[t].phase.file) {
      assert Waiting.Asleep(s.live[t]);
    }
  }

  function HolderOf(r: L.FileLock): Holder {
    Holder(r.parentTxn, r.mode == Exclusive)
  }

  ghost predicate HasRecord(list: seq<L.FileLock>, f: File) {
    exists r :: r in list && r.inode == f
  }

  /** The holders of a file, in the order of the list. */
  ghost function HoldersOf(list: seq<L.FileLock>, f: File): seq<Holder> {
    if list == [] then []
    else
      var r := list[|list| - 1];
      HoldersOf(list[..|list| - 1], f) + if r.inode == f then [HolderOf(r)] else []
  }

  lemma HoldersMore(list: seq<L.FileLock>, r: L.FileLock, f: File)
    ensures HoldersOf(list + [r], f) == HoldersOf(list, f) + if r.inode == f then [HolderOf(r)] else []
  {
    assert (list + [r])[..|list|] == list;
  }

  lemma {:induction false} HoldersAppend(list: seq<L.FileLock>, more: seq<L.FileLock>, f: File)
    ensures HoldersOf(list + more, f) == HoldersOf(list, f) + HoldersOf(more, f)
  {
    if more == [] {
      assert list + more == list;
    } else {
      var front, r := more[..|more| - 1], more[|more| - 1];
      HoldersAppend(list, front, f);
      HoldersMore(list + front, r, f);
      assert list + more == list + front + [r];
    }
  }

  lemma {:induction false} NoHolders(list: seq<L.FileLock>, f: File)
    requires forall r :: r in list ==> r.inode != f
    ensures HoldersOf(list, f) == []
  {
    if list != [] {
      assert list[|list| - 1] in list;
      NoHolders(list[..|list| - 1], f);
    }
  }

  /** The holders are the owners of the records of the file. */
  lemma {:induction false} HoldersExact(list: seq<L.FileLock>, f: File, h: Holder)
    ensures h in HoldersOf(list, f) <==> exists r :: r in list && r.inode == f && HolderOf(r) == h
  {
    if list != [] {
      var front, last := list[..|list| - 1], list[|list| - 1];
      HoldersExact(front, f, h);
      assert forall r :: r in list <==> r in front || r == last;
    }
  }

  /** They share the file if there is more than one of them. */
  lemma {:induction false} HoldersShare(list: seq<L.FileLock>, f: File)
    requires L.OneMode(list)
    ensures |HoldersOf(list, f)| > 1 ==> forall h :: h in HoldersOf(list, f) ==> !h.exclusive
    ensures |HoldersOf(list, f)| > 0 <==> HasRecord(list, f)
  {
    if list != [] {
      var front, last := list[..|list| - 1], list[|list| - 1];
      HoldersShare(front, f);
      assert forall r :: r in list <==> r in front || r == last;
      forall h | last.inode == f && h in HoldersOf(front, f) ensures !h.exclusive && last.mode == Shared {
        HoldersExact(front, f, h);
        var r :| r in front && r.inode == f && HolderOf(r) == h;
        var i :| 0 <= i < |front| && front[i] == r;
        assert list[i] == r;
      }
      if |HoldersOf(list, f)| > 1 && last.inode == f {
        assert HoldersOf(front, f)[0] in HoldersOf(front, f);
      }
    }
  }

  /** The holders as the transactions of the protocol machine know them. */
  lemma HoldsIff(list: seq<L.FileLock>, live: map<TxnId, S.Node>, s: State, f: File, t: TxnId)
    requires S.Owned(list, live) && s.live == S.LiveOf(live)
    ensures t in s.live && s.live[t].Holds(f) <==> exists h :: h in HoldersOf(list, f) && h.txn == t
  {
    forall h | h in HoldersOf(list, f) && h.txn == t ensures t in s.live && s.live[t].Holds(f) {
      HoldersExact(list, f, h);
      var r :| r in list && r.inode == f && HolderOf(r) == h;
      S.RecordIsHeld(list, live, r);
      assert r.mode == Shared || r.mode == Exclusive;
    }
    if t in s.live && s.live[t].Holds(f) {
      var m := if Lock(f, Shared) in s.live[t].held then Shared else Exclusive;
      var r := S.HeldIsRecord(list, live, t, f, m);
      HoldersExact(list, f, HolderOf(r));
    }
  }

  /** The locks that the detector reads off the list: those of the files waited for. */
  ghost predicate ListsLocks(list: seq<L.FileLock>, waiting: seq<Wait>, locks: Locks) {
    && (forall i :: 0 <= i < |waiting| ==> waiting[i].inode in locks)
    && (forall f :: f in locks ==>
          locks[f] == HoldersOf(list, f) && exists i :: 0 <= i < |waiting| && waiting[i].inode == f)
  }

  /** What the detector requires of the lists holds of those of the server. */
  lemma ListsAreSound(list: seq<L.FileLock>, live: map<TxnId, S.Node>, s: State, waiting: seq<Wait>, locks: Locks)
    requires S.Owned(list, live) && s.live == S.LiveOf(live) && L.OneMode(list)
    requires ListsSleepers(s, waiting) && WaitForLocked(s) && ListsLocks(list, waiting, locks)
    ensures DistinctTxns(waiting) && AllLocked(waiting, locks)
    ensures (forall i :: 0 <= i < |waiting| ==> s.IsExclusive(waiting[i].inode)) ==> AllExclusive(waiting, locks)
  {
    forall i | 0 <= i < |waiting|
      ensures WaitEdges.OneMode(locks[waiting[i].inode])
      ensures s.IsExclusive(waiting[i].inode) ==> |locks[waiting[i].inode]| == 1
    {
      var f := waiting[i].inode;
      assert Sleeps(s, waiting[i].txn, f);
      HoldersShare(list, f);
      S.LockedIffRecord(list, s, live, f);
      if s.IsExclusive(f) {
        var r :| r in list && r.inode == f && r.mode == Exclusive;
        HoldersExact(list, f, HolderOf(r));
      }
    }
  }

  /** `t` waits for a file of which `u` has a record. */
  ghost predicate WaitsOn(s: State, t: TxnId, u: TxnId) {
    && t in s.live && u in s.live && t != u
    && s.live[t].phase.Waiting? && s.live[u].Holds(s.live[t].phase.file)
  }

  /** Each waits for the next one, and the last for the first. */
  ghost predicate WaitRing(s: State, p: seq<TxnId>) {
    && |p| > 0
    && (forall i :: 0 <= i < |p| - 1 ==> WaitsOn(s, p[i], p[i + 1]))
    && WaitsOn(s, p[|p| - 1], p[0])
  }

  ghost predicate InDeadlock(s: State, t: TxnId) {
    exists p :: WaitRing(s, p) && t in p
  }

  lemma WaitsOnIff(list: seq<L.FileLock>, live: map<TxnId, S.Node>, s: State, waiting: seq<Wait>, locks: Locks,
                   i: nat, w: nat)
    requires S.Owned(list, live) && s.live == S.LiveOf(live)
    requires ListsSleepers(s, waiting) && ListsLocks(list, waiting, locks) && i < |waiting| && w < |waiting|
    ensures WaitsFor(waiting, locks, i, w) <==> WaitsOn(s, waiting[i].txn, waiting[w].txn)
  {
    var f, holders := waiting[i].inode, locks[waiting[i].inode];
    assert Sleeps(s, waiting[i].txn, f) && Sleeps(s, waiting[w].txn, waiting[w].inode);
    HoldsIff(list, live, s, f, waiting[w].txn);
    if h :| h in holders && h.txn == waiting[w].txn {
      var j :| 0 <= j < |holders| && holders[j] == h;
    }
    if j :| 0 <= j < |holders| && holders[j].txn == waiting[w].txn {
      assert holders[j] in holders;
    }
  }

  /** The deadlocks among the waiting transactions are those of the protocol machine. */
  lemma DeadlocksAgree(list: seq<L.FileLock>, live: map<TxnId, S.Node>, s: State, waiting: seq<Wait>, locks: Locks,
                       v: nat)
    requires S.Owned(list, live) && s.live == S.LiveOf(live)
    requires ListsSleepers(s, waiting) && ListsLocks(list, waiting, locks) && v < |waiting|
    ensures Deadlocked(waiting, locks, v) <==> InDeadlock(s, waiting[v].txn)
  {
    forall i: nat, w: nat | i < |waiting| && w < |waiting|
      ensures WaitsFor(waiting, locks, i, w) <==> WaitsOn(s, waiting[i].txn, waiting[w].txn)
    {
      WaitsOnIff(list, live, s, waiting, locks, i, w);
    }
    if p :| Ring(waiting, locks, p) && v in p {
      RingOfTxns(s, waiting, locks, p, v);
    }
    if q :| WaitRing(s, q) && waiting[v].txn in q {
      RingOfPlaces(s, waiting, locks, q, v);
    }
  }

  ghost predicate Agree(s: State, waiting: seq<Wait>, locks: Locks) {
    forall i: nat, w: nat :: i < |waiting| && w < |waiting| ==>
      (WaitsFor(waiting, locks, i, w) <==> WaitsOn(s, waiting[i].txn, waiting[w].txn))
  }

  lemma RingOfTxns(s: State, waiting: seq<Wait>, locks: Locks, p: seq<nat>, v: nat)
    requires Agree(s, waiting, locks) && Ring(waiting, locks, p) && v in p && v < |waiting|
    ensures InDeadlock(s, waiting[v].txn)
  {
    forall i | 0 <= i < |p| ensures p[i] < |waiting| {
      assert i < |p| - 1 ==> WaitsFor(waiting, locks, p[i], p[i + 1]);
    }
    var q := seq(|p|, i requires 0 <= i < |p| => waiting[p[i]].txn);
    var k :| 0 <= k < |p| && p[k] == v;
    assert q[k] == waiting[v].txn;
    assert WaitRing(s, q);
  }

  lemma RingOfPlaces(s: State, waiting: seq<Wait>, locks: Locks, q: seq<TxnId>, v: nat)
    requires Agree(s, waiting, locks) && ListsSleepers(s, waiting)
    requires WaitRing(s, q) && v < |waiting| && waiting[v].txn in q
    ensures Deadlocked(waiting, locks, v)
  {
    forall i | 0 <= i < |q| ensures IsListed(waiting, q[i]) {
      assert i < |q| - 1 ==> WaitsOn(s, q[i], q[i + 1]);
    }
    var p := seq(|q|, i requires 0 <= i < |q| => PlaceIn(waiting, q[i]));
    var k :| 0 <= k < |q| && q[k] == waiting[v].txn;
    assert p[k] == v;
    PlacesWait(s, waiting, locks, q, p);
  }

  lemma PlacesWait(s: State, waiting: seq<Wait>, locks: Locks, q: seq<TxnId>, p: seq<nat>)
    requires Agree(s, waiting, locks) && WaitRing(s, q) && |p| == |q|
    requires forall i :: 0 <= i < |q| ==> p[i] < |waiting| && waiting[p[i]].txn == q[i]
    ensures Ring(waiting, locks, p)
  {
  }

  ghost function PlaceIn(waiting: seq<Wait>, t: TxnId): (i: nat)
    requires IsListed(waiting, t)
    ensures i < |waiting| && waiting[i].txn == t
  {
    var i: nat :| i < |waiting| && waiting[i].txn == t;
    i
  }

  /** Whoever is in a deadlock is waited for, and waits for somebody else. */
  lemma InTheMiddle(s: State, t: TxnId) returns (before: TxnId, after: TxnId)
    requires InDeadlock(s, t)
    ensures WaitsOn(s, before, t) && WaitsOn(s, t, after)
  {
    var p :| WaitRing(s, p) && t in p;
    var k :| 0 <= k < |p| && p[k] == t;
    before := if k == 0 then p[|p| - 1] else p[k - 1];
    after := if k == |p| - 1 then p[0] else p[k + 1];
    assert k > 0 ==> WaitsOn(s, p[k - 1], p[k]);
    assert k < |p| - 1 ==> WaitsOn(s, p[k], p[k + 1]);
  }

  /** The backup has no records while it waits, so it is in no deadlock. */
  lemma BackupInNone(s: State)
    requires Invariants.Safe(s)
    ensures !InDeadlock(s, BACKUP_TXN)
  {
    if InDeadlock(s, BACKUP_TXN) {
      var before, after := InTheMiddle(s, BACKUP_TXN);
    }
  }

  /** A transaction that sleeps on its own record is in no deadlock either. */
  lemma StuckInNone(s: State, t: TxnId, f: File)
    requires Waiting.Stuck(s, t, f)
    ensures !InDeadlock(s, t)
  {
    if InDeadlock(s, t) {
      var before, after := InTheMiddle(s, t);
    }
  }

  lemma NoneBehind(list: seq<L.FileLock>, k: nat, f: File)
    requires L.Sorted(list) && 0 < k <= |list| && list[k - 1].inode == f && (k < |list| ==> list[k].inode != f)
    ensures HoldersOf(list, f) == HoldersOf(list[..k], f)
  {
    assert forall i :: k <= i < |list| ==> list[i].inode >= list[k].inode > f;
    NoHolders(list[k..], f);
    HoldersAppend(list[..k], list[k..], f);
    assert list == list[..k] + list[k..];
  }

  /** The first record of a file that has one. */
  method FirstOf(locks: L.LockList, f: File) returns (ptr: L.FileLock?, ghost k: nat)
    requires locks.Valid() && HasRecord(locks.list, f)
    ensures k < |locks.list| && ptr == locks.list[k] && ptr.inode == f
    ensures forall i :: 0 <= i < k ==> locks.list[i].inode != f
  {
    ghost var list := locks.list;
    ptr, k := locks.head, 0;
    while ptr.inode != f
      invariant k < |list| && ptr == list[k] && forall i :: 0 <= i < k ==> list[i].inode != f
      decreases |list| - k
    {
      assert L.Chained(list, k);
      assert k + 1 < |list| by {
        var r :| r in list && r.inode == f;
        var j :| 0 <= j < |list| && list[j] == r;
        assert j > k;
      }
      ptr := ptr.next;
      k := k + 1;
    }
  }

  /** Nor is it seen to be on a cycle. */
  lemma StuckUnseen(list: seq<L.FileLock>, live: map<TxnId, S.Node>, s: State, waiting: seq<Wait>, locks: Locks,
                    i: nat, f: File)
    requires S.Owned(list, live) && s.live == S.LiveOf(live)
    requires ListsSleepers(s, waiting) && ListsLocks(list, waiting, locks) && AllLocked(waiting, locks)
    requires i < |waiting| && Waiting.Stuck(s, waiting[i].txn, f)
    ensures !OnCycle(GraphOf(waiting, locks), i)
  {
    var t := waiting[i].txn;
    assert Sleeps(s, t, waiting[i].inode);
    forall h | h in locks[f] ensures h.txn == t {
      HoldsIff(list, live, s, f, h.txn);
    }
    D.SelfWaitUnseen(waiting, locks, i);
  }

  /** Reads the holders of a locked file off the lock list: they stand together, from the first record on. */
  method ReadHolders(locks: L.LockList, f: File) returns (holders: seq<Holder>)
    requires locks.Valid() && HasRecord(locks.list, f)
    ensures holders == HoldersOf(locks.list, f)
  {
    ghost var list := locks.list;
    var ptr, k := FirstOf(locks, f);
    NoHolders(list[..k], f);
    holders := [];
    while ptr != null
      invariant k <= |list| && ptr == (if k < |list| && list[k].inode == f then list[k] else null)
      invariant holders == HoldersOf(list[..k], f) && (ptr == null ==> k > 0 && list[k - 1].inode == f)
      decreases |list| - k
    {
      HoldersMore(list[..k], list[k], f);
      holders := holders + [HolderOf(ptr)];
      assert L.Grouped(list, k);
      ptr := ptr.nextShared;
      OneMore(list, k);
      k := k + 1;
    }
    NoneBehind(list, k, f);
  }

  /** Reads the holders of all the files waited for. */
  method ReadLocks(locks: L.LockList, waiting: seq<Wait>) returns (found: Locks)
    requires locks.Valid()
    requires forall i :: 0 <= i < |waiting| ==> HasRecord(locks.list, waiting[i].inode)
    ensures ListsLocks(locks.list, waiting, found)
  {
    found := map[];
    var n := 0;
    while n < |waiting|
      invariant n <= |waiting| && ListsLocks(locks.list, waiting[..n], found)
    {
      var holders := ReadHolders(locks, waiting[n].inode);
      LocksMore(locks.list, waiting, n, found, holders);
      found := found[waiting[n].inode := holders];
      n := n + 1;
    }
    assert waiting[..n] == waiting;
  }

  lemma LocksMore(list: seq<L.FileLock>, waiting: seq<Wait>, n: nat, found: Locks, holders: seq<Holder>)
    requires n < |waiting| && ListsLocks(list, waiting[..n], found) && holders == HoldersOf(list, waiting[n].inode)
    ensures ListsLocks(list, waiting[..n + 1], found[waiting[n].inode := holders])
  {
    var more, now := found[waiting[n].inode := holders], waiting[..n + 1];
    assert now[n] == waiting[n];
    forall i | 0 <= i < |now| ensures now[i].inode in more {
      assert i < n ==> now[i] == waiting[..n][i];
    }
    forall f | f in more
      ensures more[f] == HoldersOf(list, f) && exists i :: 0 <= i < |now| && now[i].inode == f
    {
      if f != waiting[n].inode {
        var i :| 0 <= i < n && waiting[..n][i].inode == f;
        assert now[i].inode == f;
      }
    }
  }

  /** Every file waited for is locked exclusively. */
  ghost predicate AllWaitExclusive(s: State) {
    forall t :: t in s.live && s.live[t].phase.Waiting? ==> s.IsExclusive(s.live[t].phase.file)
  }

  /** What a search says about the transactions of the server. */
  ghost predicate Tells(s: State, waiting: seq<Wait>, listed: seq<nat>, overrun: bool) {
    && (listed != [] ==> listed[0] < |waiting| && InDeadlock(s, waiting[listed[0]].txn))
    && (AllWaitExclusive(s) && |waiting| < 50 ==> !overrun)
    && (AllWaitExclusive(s) && !overrun ==> ListsAllDeadlocked(s, waiting, listed))
  }

  ghost predicate ListsAllDeadlocked(s: State, waiting: seq<Wait>, listed: seq<nat>) {
    && (forall v: nat :: v in listed <==> v < |waiting| && InDeadlock(s, waiting[v].txn))
    && (listed != [] <==> exists t :: InDeadlock(s, t))
  }

  /** The search of the graph. `found` are the locks it is built of. */
  method Detect(server: V.Server, waiting: seq<Wait>) returns (listed: seq<nat>, overrun: bool, found: Locks)
    requires server.Valid() && ListsSleepers(server.Abs(), waiting) && WaitForLocked(server.Abs())
    ensures ListsLocks(server.locking.locks.list, waiting, found)
    ensures DistinctTxns(waiting) && AllLocked(waiting, found) && WellFormed(GraphOf(waiting, found))
    ensures listed != [] <==> Cyclic(GraphOf(waiting, found))
    ensures overrun <==> exists b :: b in BackEdges(GraphOf(waiting, found)) && !Returns(GraphOf(waiting, found), b)
    ensures AllFound(waiting, found) ==> (listed != [] <==> exists t :: InDeadlock(server.Abs(), t))
    ensures Tells(server.Abs(), waiting, listed, overrun)
  {
    found := ReadOff(server, waiting);
    listed, overrun := DetectDeadlock(waiting, found);
    InMachineTerms(server.locking.locks.list, server.locking.live, server.Abs(), waiting, found);
    InTransactions(server.Abs(), waiting, found, listed, overrun);
  }

  /** The locks, which are as the detector needs them. */
  method ReadOff(server: V.Server, waiting: seq<Wait>) returns (found: Locks)
    requires server.Valid() && ListsSleepers(server.Abs(), waiting) && WaitForLocked(server.Abs())
    ensures ListsLocks(server.locking.locks.list, waiting, found)
    ensures DistinctTxns(waiting) && AllLocked(waiting, found)
    ensures AllWaitExclusive(server.Abs()) ==> AllExclusive(waiting, found)
  {
    ghost var s, list, live := server.Abs(), server.locking.locks.list, server.locking.live;
    WaitersHaveRecords(list, live, s, waiting);
    found := ReadLocks(server.locking.locks, waiting);
    ListsAreSound(list, live, s, waiting, found);
  }

  /** What the search lists, said of the transactions of the protocol machine. */
  lemma InTransactions(s: State, waiting: seq<Wait>, locks: Locks, listed: seq<nat>, overrun: bool)
    requires forall v: nat :: Deadlocked(waiting, locks, v) <==> v < |waiting| && InDeadlock(s, waiting[v].txn)
    requires (exists v :: Deadlocked(waiting, locks, v)) <==> (exists t :: InDeadlock(s, t))
    requires listed != [] ==> Deadlocked(waiting, locks, listed[0])
    requires AllWaitExclusive(s) ==> AllExclusive(waiting, locks)
    requires AllExclusive(waiting, locks) && |waiting| < 50 ==> !overrun
    requires AllExclusive(waiting, locks) && !overrun ==>
               forall v: nat :: v in listed <==> Deadlocked(waiting, locks, v)
    ensures Tells(s, waiting, listed, overrun)
  {
    if AllWaitExclusive(s) && !overrun {
      if t :| InDeadlock(s, t) {
        var v: nat :| Deadlocked(waiting, locks, v);
        assert v in listed;
      }
      if listed != [] { assert InDeadlock(s, waiting[listed[0]].txn); }
    }
  }

  lemma WaitersHaveRecords(list: seq<L.FileLock>, live: map<TxnId, S.Node>, s: State, waiting: seq<Wait>)
    requires S.Owned(list, live) && s.live == S.LiveOf(live)
    requires ListsSleepers(s, waiting) && WaitForLocked(s)
    ensures forall i :: 0 <= i < |waiting| ==> HasRecord(list, waiting[i].inode)
    ensures AllWaitExclusive(s) ==> forall i :: 0 <= i < |waiting| ==> s.IsExclusive(waiting[i].inode)
  {
    forall i | 0 <= i < |waiting| ensures HasRecord(list, waiting[i].inode) {
      assert Sleeps(s, waiting[i].txn, waiting[i].inode);
      S.LockedIffRecord(list, s, live, waiting[i].inode);
    }
    if AllWaitExclusive(s) {
      forall i | 0 <= i < |waiting| ensures s.IsExclusive(waiting[i].inode) {
        assert Sleeps(s, waiting[i].txn, waiting[i].inode);
      }
    }
  }

  lemma InMachineTerms(list: seq<L.FileLock>, live: map<TxnId, S.Node>, s: State, waiting: seq<Wait>, locks: Locks)
    requires S.Owned(list, live) && s.live == S.LiveOf(live)
    requires ListsSleepers(s, waiting) && ListsLocks(list, waiting, locks)
    ensures forall v: nat :: Deadlocked(waiting, locks, v) <==> v < |waiting| && InDeadlock(s, waiting[v].txn)
    ensures (exists v :: Deadlocked(waiting, locks, v)) <==> (exists t :: InDeadlock(s, t))
  {
    forall v: nat ensures Deadlocked(waiting, locks, v) <==> v < |waiting| && InDeadlock(s, waiting[v].txn) {
      if v < |waiting| {
        DeadlocksAgree(list, live, s, waiting, locks, v);
      } else if Deadlocked(waiting, locks, v) {
        RingInRange(waiting, locks, v);
      }
    }
    if t :| InDeadlock(s, t) {
      var before, after := InTheMiddle(s, t);
      var v: nat :| v < |waiting| && waiting[v].txn == t;
      assert Deadlocked(waiting, locks, v);
    }
  }

  lemma RingInRange(waiting: seq<Wait>, locks: Locks, v: nat)
    requires Deadlocked(waiting, locks, v)
    ensures v < |waiting|
  {
    var p :| Ring(waiting, locks, p) && v in p;
    var k :| 0 <= k < |p| && p[k] == v;
    assert k < |p| - 1 ==> WaitsFor(waiting, locks, p[k], p[k + 1]);
  }

  /** Who is to be aborted. */
  method Pick(server: V.Server, waiting: seq<Wait>) returns (victim: Option<TxnId>)
    requires server.Valid() && ListsSleepers(server.Abs(), waiting) && WaitForLocked(server.Abs())
    ensures victim.Some? ==> InDeadlock(server.Abs(), victim.value) && Enabled(server.Abs(), Victim(victim.value))
    ensures AllWaitExclusive(server.Abs()) && |waiting| < 50 ==>
              (victim.Some? <==> exists t :: InDeadlock(server.Abs(), t))
  {
    var listed, overrun, found := Detect(server, waiting);
    if listed == [] { return None; }
    victim := Some(waiting[listed[0]].txn);
    MayBeVictim(server.Abs(), server.start, server.trace, victim.value);
  }

  /** One round of detection. A transaction that is picked to be aborted is deadlocked, is not the backup and does
      not sleep on its own record; with exclusive locks, and fewer waiting transactions than the search has room
      for, one is picked if and only if there is a deadlock. */
  method Round(server: V.Server, waiting: seq<Wait>) returns (victim: Option<TxnId>)
    requires server.Valid() && ListsSleepers(server.Abs(), waiting) && WaitForLocked(server.Abs())
    modifies server`trace, server.locking`live, server.locking`waiting, server.locking.waits
    ensures victim.Some? ==> InDeadlock(old(server.Abs()), victim.value)
    ensures AllWaitExclusive(old(server.Abs())) && |waiting| < 50 ==>
              (victim.Some? <==> exists t :: InDeadlock(old(server.Abs()), t))
    ensures server.Valid()
    ensures victim == None ==> server.trace == old(server.trace) && server.Abs() == old(server.Abs())
    ensures victim.Some? ==>
              && Enabled(old(server.Abs()), Victim(victim.value))
              && server.trace == old(server.trace) + [Victim(victim.value)]
              && server.Abs() == Next(old(server.Abs()), Victim(victim.value))
  {
    victim := Pick(server, waiting);
    if victim.Some? {
      server.Victim(victim.value);
    }
  }

  lemma MayBeVictim(s: State, start: State, trace: seq<Action>, t: TxnId)
    requires V.Traced(start, trace, s) && InDeadlock(s, t)
    ensures Enabled(s, Victim(t))
  {
    V.TraceIsSound(start, trace, s);
    BackupInNone(s);
    var before, after := InTheMiddle(s, t);
  }
}

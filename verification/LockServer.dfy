/** The lock manager: the methods that work on the lock list, the wait list, the pause array and the live
    transactions, each of which does what the protocol machine says. */
module LockServer {
  import opened Basics
  import opened Storage
  import opened Protocol
  import L = LockList
  import W = WaitList
  import P = PauseArray

  /** A live transaction; `chain` are its lock records, oldest first. */
  datatype Node = Node(side: bool, chain: seq<L.FileLock>, phase: Phase, shadow: map<File, Content>, ops: seq<Op>)

  function LocksOf(chain: seq<L.FileLock>): seq<Lock> {
    seq(|chain|, i requires 0 <= i < |chain| => Lock(chain[i].inode, chain[i].mode))
  }

  function TxnOf(n: Node): Txn {
    Txn(n.side, LocksOf(n.chain), n.phase, n.shadow, n.ops)
  }

  function LiveOf(live: map<TxnId, Node>): map<TxnId, Txn> {
    map t | t in live :: TxnOf(live[t])
  }

  lemma LiveOfUpdate(live: map<TxnId, Node>, t: TxnId, n: Node)
    ensures LiveOf(live[t := n]) == LiveOf(live)[t := TxnOf(n)]
  {
  }

  /** The chains share out the records of the lock list among the transactions that made them. */
  ghost predicate Owned(list: seq<L.FileLock>, live: map<TxnId, Node>) {
    && (forall r :: r in list ==> r.parentTxn in live && r in live[r.parentTxn].chain)
    && (forall t, r :: t in live && r in live[t].chain ==> r in list && r.parentTxn == t)
    && (forall t :: t in live ==> Distinct(live[t].chain))
  }

  /** The backup locks exclusively. */
  ghost predicate BackupExclusive(list: seq<L.FileLock>) {
    forall r :: r in list && r.parentTxn == BACKUP_TXN ==> r.mode == Exclusive
  }

  lemma RecordIsHeld(list: seq<L.FileLock>, live: map<TxnId, Node>, r: L.FileLock)
    requires Owned(list, live) && r in list
    ensures r.parentTxn in live && Lock(r.inode, r.mode) in LiveOf(live)[r.parentTxn].held
  {
    var chain := live[r.parentTxn].chain;
    var i :| 0 <= i < |chain| && chain[i] == r;
    assert LocksOf(chain)[i] == Lock(r.inode, r.mode);
  }

  lemma HeldIsRecord(list: seq<L.FileLock>, live: map<TxnId, Node>, t: TxnId, f: File, m: Mode) returns (r: L.FileLock)
    requires Owned(list, live) && t in live && Lock(f, m) in LiveOf(live)[t].held
    ensures r in list && r in live[t].chain && r.inode == f && r.mode == m && r.parentTxn == t
  {
    var chain := live[t].chain;
    var i :| 0 <= i < |chain| && LocksOf(chain)[i] == Lock(f, m);
    r := chain[i];
  }

  /** A file is locked, and exclusively so, exactly when the list has such a record of it. */
  lemma LockedIffRecord(list: seq<L.FileLock>, s: State, live: map<TxnId, Node>, f: File)
    requires Owned(list, live) && s.live == LiveOf(live)
    ensures s.IsLocked(f) <==> exists r :: r in list && r.inode == f
    ensures s.IsExclusive(f) <==> exists r :: r in list && r.inode == f && r.mode == Exclusive
  {
    forall r | r in list ensures s.IsLocked(r.inode) && (r.mode == Exclusive ==> s.IsExclusive(r.inode)) {
      RecordIsHeld(list, live, r);
      assert r.mode == Shared || r.mode == Exclusive;
      assert s.live[r.parentTxn].Holds(r.inode);
    }
    forall t, m | t in live && Lock(f, m) in s.live[t].held
      ensures exists r :: r in list && r.inode == f && r.mode == m
    {
      var r := HeldIsRecord(list, live, t, f, m);
    }
  }

  /** Adding a record to the list and to the chain of its transaction. */
  lemma GrantKeepsOwned(list: seq<L.FileLock>, p: nat, rec: L.FileLock, live: map<TxnId, Node>, n: Node)
    requires Owned(list, live) && p <= |list| && rec !in list && rec.parentTxn in live
    requires n.chain == live[rec.parentTxn].chain + [rec]
    ensures Owned(Inserted(list, p, rec), live[rec.parentTxn := n])
  {
    var more, t, after := Inserted(list, p, rec), rec.parentTxn, live[rec.parentTxn := n];
    assert forall r :: r in more <==> r == rec || r in list;
    assert rec in n.chain && forall r :: r in live[t].chain ==> r in n.chain;
  }

  lemma InsertedMembers(list: seq<L.FileLock>, p: nat, rec: L.FileLock)
    requires p <= |list|
    ensures forall r :: r in Inserted(list, p, rec) ==> r == rec || r in list
    ensures BackupExclusive(list) && (rec.parentTxn == BACKUP_TXN ==> rec.mode == Exclusive) ==>
              BackupExclusive(Inserted(list, p, rec))
  {
  }

  lemma LocksOfMore(chain: seq<L.FileLock>, rec: L.FileLock)
    ensures LocksOf(chain + [rec]) == LocksOf(chain) + [Lock(rec.inode, rec.mode)]
  {
  }

  class Server {
    const locks: L.LockList
    const waits: W.WaitList
    const pauses: P.PauseArray
    var live: map<TxnId, Node>
    var bits: map<File, bool>
    var backup: Backup
    ghost var waiting: map<File, nat>     // the wait list as a map
    ghost var paused: map<TxnId, nat>     // the pause array as a map
    ghost var rest: State                 // root, disk and history, which locking does not touch

    constructor (bits: map<File, bool>, ghost rest: State)
      ensures Valid() && fresh(locks) && fresh(waits) && fresh(pauses) && fresh(pauses.entries) && locks.list == []
      ensures Abs() == rest.(live := map[], bits := bits, waits := map[], pauses := map[], backup := Inactive)
    {
      locks := new L.LockList();
      waits := new W.WaitList();
      pauses := new P.PauseArray();
      this.bits, live, backup, waiting, paused, this.rest := bits, map[], Inactive, map[], map[], rest;
    }

    ghost predicate Valid()
      reads `live, `waiting, `paused, locks, locks.list, waits, pauses, pauses.entries
    {
      Structured() && WaitsCounted() && PausesCounted()
    }

    ghost predicate Structured()
      reads `live, locks, locks.list
    {
      && locks.Valid() && Owned(locks.list, live) && BackupExclusive(locks.list)
      && forall t :: t in live ==> t >= BACKUP_TXN
    }

    ghost predicate PausesCounted()
      reads `paused, pauses, pauses.entries
    {
      pauses.Holds(paused)
    }

    /** The state of the protocol machine. */
    ghost function Abs(): State
      reads this
    {
      rest.(live := LiveOf(live), bits := bits, waits := waiting, pauses := paused, backup := backup)
    }

    /** A transaction becomes live, with no records. */
    method Begin(t: TxnId)
      requires Valid() && t !in live && t >= BACKUP_TXN
      modifies this`live
      ensures Valid()
      ensures Abs() == old(Abs()).(live := old(Abs()).live[t := Txn(false, [], Running, map[], [])])
    {
      assert LocksOf([]) == [];
      LiveOfUpdate(live, t, Node(false, [], Running, map[], []));
      live := live[t := Node(false, [], Running, map[], [])];
    }

    /** What a transaction has read and written so far; its records stay as they are. */
    method SetWork(t: TxnId, shadow: map<File, Content>, ops: seq<Op>)
      requires Valid() && t in live
      modifies this`live
      ensures Valid()
      ensures Abs() == old(Abs()).(live := old(Abs()).live[t := old(Abs()).live[t].(shadow := shadow, ops := ops)])
    {
      LiveOfUpdate(live, t, live[t].(shadow := shadow, ops := ops));
      live := live[t := live[t].(shadow := shadow, ops := ops)];
    }

    /** A transaction without records goes. */
    method End(t: TxnId)
      requires Valid() && t in live && live[t].chain == []
      modifies this`live
      ensures Valid() && Abs() == old(Abs()).(live := old(Abs()).live - {t})
    {
      live := live - {t};
      assert LiveOf(live) == LiveOf(old(live)) - {t};
    }

    /** The whole state but the list of live transactions is as it was. */
    method SetPhase(t: TxnId, phase: Phase)
      requires Valid() && t in live
      modifies this`live
      ensures Valid() && Abs() == Protocol.SetPhase(old(Abs()), t, phase)
    {
      LiveOfUpdate(live, t, live[t].(phase := phase));
      live := live[t := live[t].(phase := phase)];
    }

    /** If the check of a request would count a first pause, the pause array has an entry left. */
    ghost predicate RoomToPause(t: TxnId, bit: bool)
      reads `live, `paused, pauses
    {
      t in live && live[t].chain != [] && !bit && live[t].side ==> t in paused || pauses.last + 1 < P.ENTRIES
    }

    /** The same for a request, which is checked if the file is free and a backup under way, or if it joins others,
        of which the search has found one. */
    ghost predicate RoomToRequest(t: TxnId, f: File, m: Mode, owner: TxnId)
      requires f in bits
      reads this, pauses
    {
      t != BACKUP_TXN
      && (if !Abs().IsLocked(f) then backup.Active?
          else owner != t && m == Shared && !Abs().IsExclusive(f) && f !in waiting) ==>
        RoomToPause(t, bits[f])
    }

    /** The mutual-serializability check: pauses are counted, and forgotten when the check passes. There is no
        verdict if the pause array runs over. */
    method MutuallySerializable(t: TxnId, bit: bool) returns (v: Option<Verdict>)
      requires PausesCounted() && t in live && t > BACKUP_TXN
      modifies this`paused, pauses, pauses.entries
      ensures PausesCounted()
      ensures v == if old(RoomToPause(t, bit)) then Some(CheckOf(live[t], bit, P.Times(old(paused), t))) else None
      ensures paused == if v == None then old(paused) else PausesAfter(v.value, live[t], t, old(paused))
    {
      if live[t].chain == [] {
        v := Some(Pass);
      } else if bit == live[t].side {
        Forget(t);
        v := Some(Pass);
      } else if !bit && live[t].side {
        v := Conflict(t);
      } else {
        v := Some(Kill);
      }
    }

    /** The pauses of a transaction that has passed the check are forgotten. */
    method Forget(t: TxnId)
      requires PausesCounted() && t > BACKUP_TXN
      modifies this`paused, pauses.entries
      ensures PausesCounted() && paused == old(paused) - {t}
    {
      pauses.Reset(t, paused);
      SetPaused(paused - {t});
    }

    /** The backup has not read the file yet: the transaction is paused, but not for ever. */
    method Conflict(t: TxnId) returns (v: Option<Verdict>)
      requires PausesCounted() && t > BACKUP_TXN
      modifies this`paused, pauses, pauses.entries
      ensures PausesCounted() && (v == None <==> t !in old(paused) && old(pauses.last) + 1 == P.ENTRIES)
      ensures v != None ==> v.value == if P.Times(old(paused), t) > PAUSE_LIMIT then Kill else Pause
      ensures paused == if v == Some(Pause) then old(paused)[t := P.Times(old(paused), t) + 1] else old(paused)
    {
      var c;
      ghost var now;
      c, now := pauses.CountPause(t, paused);
      SetPaused(now);
      v := match c case TooOften => Some(Kill) case Again => Some(Pause) case Overrun => None;
    }

    /** The pauses that the array has come to hold. */
    method SetPaused(ghost now: map<TxnId, nat>)
      requires pauses.Holds(now)
      modifies this`paused
      ensures PausesCounted() && paused == now
    {
      paused := now;
    }

    /** Every record of the list is an old one or new. */
    twostate predicate OnlyNewRecords(was: seq<L.FileLock>)
      reads this, locks
    {
      forall r :: r in locks.list ==> r in was || fresh(r)
    }

    /** Adds a record that is in the list already to the chain of its transaction. */
    method Chain(rec: L.FileLock, ghost was: seq<L.FileLock>, ghost p: nat)
      requires p <= |was| && locks.list == Inserted(was, p, rec) && rec !in was
      requires Owned(was, live) && rec.parentTxn in live && rec.inode in bits
      requires locks.Valid() && BackupExclusive(locks.list) && forall t :: t in live ==> t >= BACKUP_TXN
      requires WaitsCounted() && PausesCounted()
      modifies this`live
      ensures Valid() && locks.list == old(locks.list)
      ensures Abs() == Grant(old(Abs()), rec.parentTxn, rec.inode, rec.mode)
    {
      var t := rec.parentTxn;
      var n := live[t];
      var side := if n.chain == [] then bits[rec.inode] else n.side;
      var more := n.(side := side, chain := n.chain + [rec], phase := Running);
      GrantKeepsOwned(was, p, rec, live, more);
      LocksOfMore(n.chain, rec);
      assert |TxnOf(n).held| == |n.chain|;
      LiveOfUpdate(live, t, more);
      live := live[t := more];
    }

    /** Grants a file that nobody has locked. */
    method GrantNew(t: TxnId, f: File, m: Mode, loc: L.FileLock?, ghost p: nat)
      requires Valid() && t in live && f in bits && (t == BACKUP_TXN ==> m == Exclusive)
      requires L.PlaceOf(locks.list, f, p) && forall r :: r in locks.list ==> r.inode != f
      requires loc == if locks.list == [] then null else locks.list[if p == 0 then 0 else p - 1]
      modifies this`live, locks, locks.list
      ensures Valid() && OnlyNewRecords(old(locks.list)) && L.Grown(old(locks.list), locks.list, f)
      ensures Abs() == Grant(old(Abs()), t, f, m)
    {
      ghost var was := locks.list;
      var rec := NewRecord(t, f, m, loc, p);
      Chain(rec, was, p);
    }

    /** A record for a file that nobody has locked. */
    method NewRecord(t: TxnId, f: File, m: Mode, loc: L.FileLock?, ghost p: nat) returns (rec: L.FileLock)
      requires locks.Valid() && BackupExclusive(locks.list) && (t == BACKUP_TXN ==> m == Exclusive)
      requires L.PlaceOf(locks.list, f, p) && forall r :: r in locks.list ==> r.inode != f
      requires loc == if locks.list == [] then null else locks.list[if p == 0 then 0 else p - 1]
      modifies locks, locks.list
      ensures fresh(rec) && rec.inode == f && rec.mode == m && rec.parentTxn == t
      ensures locks.Valid() && BackupExclusive(locks.list) && locks.list == Inserted(old(locks.list), p, rec)
      ensures OnlyNewRecords(old(locks.list)) && L.Grown(old(locks.list), locks.list, f)
    {
      ghost var was := locks.list;
      rec := new L.FileLock(f, m, t);
      locks.InsertNew(rec, loc, p);
      InsertedMembers(was, p, rec);
      assert L.GrownAt(was, locks.list, f, p);
    }

    /** Grants a file that is locked in shared mode. */
    method GrantShared(t: TxnId, f: File, loc: L.FileLock, ghost k: nat)
      requires Valid() && t in live && f in bits && t != BACKUP_TXN
      requires k < |locks.list| && loc == locks.list[k] && loc.inode == f && loc.mode == Shared
      modifies this`live, locks, locks.list
      ensures Valid() && OnlyNewRecords(old(locks.list)) && L.Grown(old(locks.list), locks.list, f)
      ensures Abs() == Grant(old(Abs()), t, f, Shared)
    {
      ghost var was := locks.list;
      var rec, p := SharedRecord(t, f, loc, k);
      Chain(rec, was, p);
    }

    /** A record for a file that is locked in shared mode. */
    method SharedRecord(t: TxnId, f: File, loc: L.FileLock, ghost k: nat) returns (rec: L.FileLock, ghost p: nat)
      requires locks.Valid() && BackupExclusive(locks.list) && t != BACKUP_TXN
      requires k < |locks.list| && loc == locks.list[k] && loc.inode == f && loc.mode == Shared
      modifies locks, locks.list
      ensures fresh(rec) && rec.inode == f && rec.mode == Shared && rec.parentTxn == t && p <= |old(locks.list)|
      ensures locks.Valid() && BackupExclusive(locks.list) && locks.list == Inserted(old(locks.list), p, rec)
      ensures OnlyNewRecords(old(locks.list)) && L.Grown(old(locks.list), locks.list, f)
    {
      ghost var was := locks.list;
      rec := new L.FileLock(f, Shared, t);
      p := locks.JoinShared(rec, loc, k);
      InsertedMembers(was, p, rec);
      assert L.GrownAt(was, locks.list, f, p);
    }

    ghost predicate WaitsCounted()
      reads `waiting, waits
    {
      W.Ordered(waits.nodes) && W.Counts(waits.nodes, waiting)
    }

    /** One more transaction waits for the file. */
    method Enqueue(f: File)
      requires WaitsCounted()
      modifies this`waiting, waits
      ensures WaitsCounted() && waiting == old(waiting)[f := if f in old(waiting) then old(waiting)[f] + 1 else 1]
    {
      var at := waits.Search(f);
      if at == |waits.nodes| {
        waits.Insert(f, waiting);
        waiting := waiting[f := 1];
      } else {
        waits.Add(at, waiting);
        waiting := waiting[f := waiting[f] + 1];
      }
    }

    /** Puts a transaction to sleep on the wait node of the file. */
    method Sleep(t: TxnId, f: File, m: Mode)
      requires Valid() && t in live
      modifies this`live, this`waiting, waits
      ensures Valid() && Abs() == Block(old(Abs()), t, f, m)
    {
      SetPhase(t, Waiting(f, m, false));
      Enqueue(f);
    }

    /** A request for a file that nobody has locked. */
    method RequestFree(t: TxnId, f: File, m: Mode, loc: L.FileLock?, ghost p: nat) returns (overrun: bool)
      requires Valid() && t in live && f in bits && (t == BACKUP_TXN ==> m == Exclusive)
      requires L.PlaceOf(locks.list, f, p) && forall r :: r in locks.list ==> r.inode != f
      requires loc == if locks.list == [] then null else locks.list[if p == 0 then 0 else p - 1]
      modifies this`live, this`paused, locks, locks.list, pauses, pauses.entries
      ensures Valid() && OnlyNewRecords(old(locks.list)) && L.Grown(old(locks.list), locks.list, f)
      ensures overrun <==> t != BACKUP_TXN && backup.Active? && !old(RoomToPause(t, bits[f]))
      ensures Abs() == if overrun then old(Abs())
                       else if t == BACKUP_TXN || backup.Inactive? then Grant(old(Abs()), t, f, m)
                       else GrantIfSerializable(old(Abs()), t, f, m)
    {
      if t == BACKUP_TXN || backup.Inactive? {
        GrantNew(t, f, m, loc, p);
        overrun := false;
      } else {
        overrun := RequestChecked(t, f, m, loc, p);
      }
    }

    /** The check of a request: what is left to be done is what its verdict says. */
    method CheckRequest(t: TxnId, f: File, m: Mode) returns (v: Option<Verdict>)
      requires Valid() && t in live && f in bits && t > BACKUP_TXN
      modifies this`paused, pauses, pauses.entries
      ensures Valid() && (v == None <==> !old(RoomToPause(t, bits[f])))
      ensures v == None ==> Abs() == old(Abs())
      ensures v != None ==> GrantIfSerializable(old(Abs()), t, f, m) == Decided(Abs(), t, f, m, v.value)
    {
      ghost var s, n := Abs(), live[t];
      v := MutuallySerializable(t, bits[f]);
      if v != None {
        CheckedOutcome(s, n, t, f, m, v.value);
      }
    }

    /** The same for a user transaction while a backup is under way. */
    method RequestChecked(t: TxnId, f: File, m: Mode, loc: L.FileLock?, ghost p: nat) returns (overrun: bool)
      requires Valid() && t in live && f in bits && t != BACKUP_TXN
      requires L.PlaceOf(locks.list, f, p) && forall r :: r in locks.list ==> r.inode != f
      requires loc == if locks.list == [] then null else locks.list[if p == 0 then 0 else p - 1]
      modifies this`live, this`paused, locks, locks.list, pauses, pauses.entries
      ensures Valid() && OnlyNewRecords(old(locks.list)) && L.Grown(old(locks.list), locks.list, f)
      ensures overrun <==> !old(RoomToPause(t, bits[f]))
      ensures Abs() == if overrun then old(Abs()) else GrantIfSerializable(old(Abs()), t, f, m)
    {
      var v := CheckRequest(t, f, m);
      overrun := v == None;
      if v == Some(Pass) {
        GrantNew(t, f, m, loc, p);
      } else if !overrun {
        SetPhase(t, if v.value == Pause then Retrying(f, m) else Doomed);
      }
    }

    /** A request to share a file that is locked in shared mode. */
    method RequestJoin(t: TxnId, f: File, loc: L.FileLock, ghost k: nat) returns (overrun: bool)
      requires Valid() && t in live && f in bits && t != BACKUP_TXN
      requires k < |locks.list| && loc == locks.list[k] && loc.inode == f && loc.mode == Shared
      modifies this`live, this`paused, locks, locks.list, pauses, pauses.entries
      ensures Valid() && OnlyNewRecords(old(locks.list)) && L.Grown(old(locks.list), locks.list, f)
      ensures overrun <==> !old(RoomToPause(t, bits[f]))
      ensures Abs() == if overrun then old(Abs()) else GrantIfSerializable(old(Abs()), t, f, Shared)
    {
      var v := CheckRequest(t, f, Shared);
      overrun := v == None;
      if v == Some(Pass) {
        GrantShared(t, f, loc, k);
      } else if !overrun {
        SetPhase(t, if v.value == Pause then Retrying(f, Shared) else Doomed);
      }
    }

    /** A request for a file that others have locked in shared mode: readers join unless somebody waits. */
    method RequestShared(t: TxnId, f: File, m: Mode, loc: L.FileLock, ghost k: nat) returns (overrun: bool)
      requires Valid() && t in live && f in bits && (t == BACKUP_TXN ==> m == Exclusive)
      requires k < |locks.list| && loc == locks.list[k] && loc.inode == f && loc.mode == Shared
      requires forall r :: r in locks.list && r.inode == f ==> r.parentTxn != BACKUP_TXN
      modifies this`live, this`paused, this`waiting, locks, locks.list, waits, pauses, pauses.entries
      ensures Valid() && OnlyNewRecords(old(locks.list)) && L.Grown(old(locks.list), locks.list, f)
      ensures overrun <==> m == Shared && f !in old(waiting) && !old(RoomToPause(t, bits[f]))
      ensures Abs() == if overrun then old(Abs())
                       else if m == Shared && f !in old(waiting) then GrantIfSerializable(old(Abs()), t, f, m)
                       else Block(old(Abs()), t, f, m)
    {
      var at := waits.Search(f);
      assert at < |waits.nodes| <==> f in waiting;
      var free := at == |waits.nodes|;
      if !free {
        free := locks.OwnedFrom(loc, BACKUP_TXN, k);
        assert !free;
      }
      if m == Shared && free {
        overrun := RequestJoin(t, f, loc, k);
      } else {
        Sleep(t, f, m);
        overrun := false;
      }
    }

    /** One lock request: what it does to the lock list, the chains, the wait list and the pause array is what the
        protocol says, for the owner of the record that the search has returned; unless the pause array runs over,
        where this model stops. */
    method RequestLock(t: TxnId, f: File, m: Mode) returns (overrun: bool, ghost owner: TxnId)
      requires Valid() && t in live && f in bits && (t == BACKUP_TXN ==> m == Exclusive)
      modifies this`live, this`paused, this`waiting, locks, locks.list, waits, pauses, pauses.entries
      ensures Valid() && OnlyNewRecords(old(locks.list)) && L.Grown(old(locks.list), locks.list, f)
      ensures old(Abs()).IsLocked(f) ==> owner in old(live) && old(Abs()).live[owner].Holds(f)
      ensures L.OwnerFound(old(locks.list), f, t, owner)
      ensures overrun <==> !old(RoomToRequest(t, f, m, owner))
      ensures Abs() == if overrun then old(Abs()) else Protocol.RequestLock(old(Abs()), t, f, m, owner)
    {
      var found, loc, p, k := locks.Search(f);
      assert found ==> L.Hits(locks.list, f, p, k);
      if found {
        owner := loc.parentTxn;
        overrun := RequestHeld(t, f, m, loc, k);
      } else {
        owner := t;
        overrun := RequestUnheld(t, f, m, loc, p);
      }
    }

    /** A request for a file of which the search has found no record. */
    method RequestUnheld(t: TxnId, f: File, m: Mode, loc: L.FileLock?, ghost p: nat) returns (overrun: bool)
      requires Valid() && t in live && f in bits && (t == BACKUP_TXN ==> m == Exclusive)
      requires L.PlaceOf(locks.list, f, p) && forall r :: r in locks.list ==> r.inode != f
      requires loc == if locks.list == [] then null else locks.list[if p == 0 then 0 else p - 1]
      modifies this`live, this`paused, locks, locks.list, pauses, pauses.entries
      ensures Valid() && OnlyNewRecords(old(locks.list)) && L.Grown(old(locks.list), locks.list, f)
      ensures !old(Abs()).IsLocked(f) && (overrun <==> !old(RoomToRequest(t, f, m, t)))
      ensures Abs() == if overrun then old(Abs()) else Protocol.RequestLock(old(Abs()), t, f, m, t)
    {
      Situation(f, false, null, 0);
      overrun := RequestFree(t, f, m, loc, p);
    }

    /** A request for a file of which the search has found a record. */
    method RequestHeld(t: TxnId, f: File, m: Mode, loc: L.FileLock, ghost k: nat) returns (overrun: bool)
      requires Valid() && t in live && f in bits && (t == BACKUP_TXN ==> m == Exclusive)
      requires k < |locks.list| && loc == locks.list[k] && loc.inode == f
      modifies this`live, this`paused, this`waiting, locks, locks.list, waits, pauses, pauses.entries
      ensures Valid() && OnlyNewRecords(old(locks.list)) && L.Grown(old(locks.list), locks.list, f)
      ensures loc.parentTxn in old(live) && old(Abs()).live[loc.parentTxn].Holds(f)
      ensures old(Abs()).IsLocked(f) && (overrun <==> !old(RoomToRequest(t, f, m, loc.parentTxn)))
      ensures Abs() == if overrun then old(Abs()) else Protocol.RequestLock(old(Abs()), t, f, m, loc.parentTxn)
    {
      Situation(f, true, loc, k);
      overrun := false;
      if loc.parentTxn == t {
        SetPhase(t, Running);
      } else if loc.mode == Exclusive {
        Sleep(t, f, m);
      } else {
        overrun := RequestShared(t, f, m, loc, k);
      }
    }

    /** What the record that the search has returned says about the state of the file. */
    lemma Situation(f: File, found: bool, loc: L.FileLock?, k: nat)
      requires Valid() && (found <==> exists r :: r in locks.list && r.inode == f)
      requires found ==> loc != null && k < |locks.list| && loc == locks.list[k] && loc.inode == f
      ensures Abs().IsLocked(f) <==> found
      ensures found ==> loc.parentTxn in live && Abs().live[loc.parentTxn].Holds(f)
      ensures found ==> (Abs().IsExclusive(f) <==> loc.mode == Exclusive)
      ensures found && loc.mode == Shared ==> !SharedByBackup(Abs(), f)
      ensures found && loc.mode == Shared ==> forall r :: r in locks.list && r.inode == f ==> r.parentTxn != BACKUP_TXN
    {
      LockedIffRecord(locks.list, Abs(), live, f);
      if found {
        RecordIsHeld(locks.list, live, loc);
        ModeOfRecord(locks.list, k);
        if loc.mode == Shared {
          BackupDoesNotShare(locks.list, live, f, loc);
        } else {
          assert Abs().live[loc.parentTxn].HoldsExclusively(f);
        }
      }
    }

    /** Takes one record out of the lock list, and wakes the transactions waiting for its file unless others
        still share it. */
    method ReleaseRecord(rec: L.FileLock) returns (ghost i: nat)
      requires locks.Valid() && WaitsCounted() && rec in locks.list
      modifies this`live, locks, locks.list
      ensures locks.Valid() && i < |old(locks.list)| && old(locks.list)[i] == rec
      ensures locks.list == Removed(old(locks.list), i)
      ensures live == if rec.inode in waiting && (rec.mode == Exclusive || Alone(old(locks.list), rec))
                      then Broadcast(old(live), rec.inode) else old(live)
    {
      i :| 0 <= i < |locks.list| && locks.list[i] == rec;
      var at := waits.Search(rec.inode);
      assert at < |waits.nodes| <==> rec.inode in waiting;
      AloneIffUngrouped(locks.list, i);
      var alone := rec.nextShared == null && rec.prevShared == null;
      locks.Delete(rec, i);
      if at < |waits.nodes| && (rec.mode == Exclusive || alone) {
        live := Broadcast(live, rec.inode);
      }
    }

    /** Releases the next record of a chain. `frame` are the records of the list when the release began. */
    method ReleaseNext(t: TxnId, chain: seq<L.FileLock>, i: nat, ghost s: State, ghost was: map<TxnId, Node>,
                       ghost frame: set<L.FileLock>)
      requires locks.Valid() && WaitsCounted() && waiting == s.waits && forall r :: r in locks.list ==> r in frame
      requires Releasing(locks.list, live, was, s, t, chain, i) && i < |chain|
      modifies this`live, locks, frame
      ensures locks.Valid() && Releasing(locks.list, live, was, s, t, chain, i + 1)
      ensures forall r :: r in locks.list ==> r in frame
    {
      ghost var list, now := locks.list, live;
      ReleasingHas(list, live, was, s, t, chain, i);
      ghost var at := ReleaseRecord(chain[i]);
      ReleaseGoesOn(list, at, now, live, was, s, t, chain, i);
    }

    /** Releases the records of a chain, oldest first. */
    method ReleaseChain(t: TxnId, chain: seq<L.FileLock>, ghost s: State, ghost was: map<TxnId, Node>,
                        ghost frame: set<L.FileLock>)
      requires locks.Valid() && WaitsCounted() && waiting == s.waits && forall r :: r in locks.list ==> r in frame
      requires Releasing(locks.list, live, was, s, t, chain, 0)
      modifies this`live, locks, frame
      ensures locks.Valid() && Releasing(locks.list, live, was, s, t, chain, |chain|)
      ensures forall r :: r in locks.list ==> r in frame
    {
      var i := 0;
      while i < |chain|
        invariant i <= |chain| && locks.Valid() && WaitsCounted()
        invariant Releasing(locks.list, live, was, s, t, chain, i)
        invariant forall r :: r in locks.list ==> r in frame
      {
        ReleaseNext(t, chain, i, s, was, frame);
        i := i + 1;
      }
    }

    /** Takes a transaction out of the live ones and releases its records. */
    method DropTxn(t: TxnId, ghost frame: set<L.FileLock>)
      requires locks.Valid() && WaitsCounted() && Owned(locks.list, live) && t in live
      requires forall r :: r in locks.list ==> r in frame
      modifies this`live, locks, frame
      ensures locks.Valid() && Owned(locks.list, live) && forall r :: r in locks.list ==> r in frame && r.parentTxn != t
      ensures LiveOf(live) == Release(old(Abs()), t).live && live.Keys == old(live).Keys - {t}
    {
      ghost var s, was := Abs(), live;
      var chain := live[t].chain;
      live := live - {t};
      ReleaseBegins(locks.list, live, was, s, t);
      ReleaseChain(t, chain, s, was, frame);
      ReleaseEnds(locks.list, live, was, s, t, chain);
      assert live.Keys == LiveOf(live).Keys;
    }

    /** Releases every record of a transaction and drops the transaction. */
    method ReleaseLocks(t: TxnId)
      requires Valid() && t in live
      modifies this`live, locks, locks.list
      ensures Valid() && forall r :: r in locks.list ==> r in old(locks.list) && r.parentTxn != t
      ensures Abs() == Release(old(Abs()), t)
    {
      ghost var frame := set r | r in locks.list;
      DropTxn(t, frame);
    }

    /** A woken transaction leaves the wait node and is to ask again. */
    method WakeUp(t: TxnId)
      requires Valid() && Enabled(Abs(), Action.WakeUp(t)) && live[t].phase.file in waiting
      modifies this`live, this`waiting, waits
      ensures Valid() && Abs() == Next(old(Abs()), Action.WakeUp(t))
    {
      var p := live[t].phase;
      waits.Leave(p.file, waiting);
      waiting := LeaveWaitNode(waiting, p.file);
      SetPhase(t, Retrying(p.file, p.mode));
    }

    /** A transaction that the deadlock detector has picked leaves the wait node and is to abort. */
    method Victim(t: TxnId)
      requires Valid() && Enabled(Abs(), Action.Victim(t)) && live[t].phase.file in waiting
      modifies this`live, this`waiting, waits
      ensures Valid() && Abs() == Next(old(Abs()), Action.Victim(t))
    {
      var f := live[t].phase.file;
      waits.Leave(f, waiting);
      waiting := LeaveWaitNode(waiting, f);
      SetPhase(t, Doomed);
    }

    /** Releases the record that the backup has of one file. */
    method ReleaseOne(f: File)
      requires locks.Valid() && WaitsCounted() && Owned(locks.list, live) && BackupExclusive(locks.list)
      requires BACKUP_TXN in live && LiveOf(live)[BACKUP_TXN].Holds(f)
      modifies this`live, locks, locks.list
      ensures locks.Valid() && Owned(locks.list, live) && live.Keys == old(live).Keys
      ensures forall r :: r in locks.list ==> r in old(locks.list)
      ensures LiveOf(live) == AfterBackupRelease(old(Abs()), f)
    {
      ghost var s, list, was := Abs(), locks.list, live;
      BackupRecords(list, live, f);
      var i := FindInChain(live[BACKUP_TXN].chain, f);
      ghost var at := TakeOut(BACKUP_TXN, i);
      BackupReleased(list, at, was, live, s, i, f);
    }

    /** Takes record `i` of a chain out of the list and of the chain, which goes on from the record before it
        to the record behind it. */
    method TakeOut(t: TxnId, i: nat) returns (ghost at: nat)
      requires locks.Valid() && WaitsCounted() && t in live && i < |live[t].chain| && live[t].chain[i] in locks.list
      modifies this`live, locks, locks.list
      ensures locks.Valid() && at < |old(locks.list)| && old(locks.list)[at] == old(live)[t].chain[i]
      ensures locks.list == Removed(old(locks.list), at)
      ensures var chain, rec := old(live)[t].chain, old(live)[t].chain[i];
              var now := if rec.inode in waiting && (rec.mode == Exclusive || Alone(old(locks.list), rec))
                         then Broadcast(old(live), rec.inode) else old(live);
              live == now[t := now[t].(chain := chain[..i] + chain[i + 1..])]
    {
      var chain := live[t].chain;
      at := ReleaseRecord(chain[i]);
      live := live[t := live[t].(chain := chain[..i] + chain[i + 1..])];
    }

    /** The backup releases the one file that it has just read. */
    method ReleaseByBackup(f: File)
      requires Valid() && BACKUP_TXN in live && Abs().live[BACKUP_TXN].Holds(f)
      modifies this`live, locks, locks.list
      ensures Valid() && forall r :: r in locks.list ==> r in old(locks.list)
      ensures Abs() == old(Abs()).(live := AfterBackupRelease(old(Abs()), f))
    {
      ReleaseOne(f);
    }
  }

  /** The live transactions once the backup has released `f`, as the protocol says. */
  ghost function AfterBackupRelease(s: State, f: File): map<TxnId, Txn>
    requires BACKUP_TXN in s.live
  {
    var x := s.live[BACKUP_TXN];
    Signal(s.live[BACKUP_TXN := x.(held := Unchain(x.held, f))], Freed(s, BACKUP_TXN, [Lock(f, Exclusive)]))
  }

  lemma BackupReleased(list: seq<L.FileLock>, at: nat, was: map<TxnId, Node>, live: map<TxnId, Node>, s: State,
                       i: nat, f: File)
    requires Owned(list, was) && Distinct(list) && at < |list| && s.live == LiveOf(was) && BACKUP_TXN in was
    requires i < |was[BACKUP_TXN].chain| && list[at] == was[BACKUP_TXN].chain[i] && list[at].inode == f
    requires forall j :: 0 <= j < i ==> was[BACKUP_TXN].chain[j].inode != f
    requires var now, chain := if f in s.waits then Broadcast(was, f) else was, was[BACKUP_TXN].chain;
             live == now[BACKUP_TXN := now[BACKUP_TXN].(chain := chain[..i] + chain[i + 1..])]
    ensures Owned(Removed(list, at), live) && LiveOf(live) == AfterBackupRelease(s, f) && live.Keys == was.Keys
    ensures forall r :: r in Removed(list, at) ==> r in list
  {
    var chain := was[BACKUP_TXN].chain;
    RemoveKeepsOwned(list, at, was, live, BACKUP_TXN, i);
    UnchainAt(chain, i, f);
    OneReleased(s, was, live, chain[..i] + chain[i + 1..], f);
  }

  /** The backup has a record of each file it holds, and only exclusive ones. */
  lemma BackupRecords(list: seq<L.FileLock>, live: map<TxnId, Node>, f: File)
    requires Owned(list, live) && BackupExclusive(list) && BACKUP_TXN in live && LiveOf(live)[BACKUP_TXN].Holds(f)
    ensures exists r :: r in live[BACKUP_TXN].chain && r.inode == f
    ensures forall r :: r in live[BACKUP_TXN].chain ==> r in list && r.mode == Exclusive
  {
    var m := if Lock(f, Shared) in LiveOf(live)[BACKUP_TXN].held then Shared else Exclusive;
    var r := HeldIsRecord(list, live, BACKUP_TXN, f, m);
  }

  /** The first record of a file in a chain. */
  method FindInChain(chain: seq<L.FileLock>, f: File) returns (i: nat)
    requires exists r :: r in chain && r.inode == f
    ensures i < |chain| && chain[i].inode == f && forall j :: 0 <= j < i ==> chain[j].inode != f
  {
    i := 0;
    while chain[i].inode != f
      invariant i < |chain| && forall j :: 0 <= j < i ==> chain[j].inode != f
      decreases |chain| - i
    {
      i := i + 1;
    }
  }

  lemma {:induction false} UnchainAt(chain: seq<L.FileLock>, i: nat, f: File)
    requires i < |chain| && chain[i].inode == f && forall j :: 0 <= j < i ==> chain[j].inode != f
    ensures LocksOf(chain[..i] + chain[i + 1..]) == Unchain(LocksOf(chain), f)
  {
    var locks := LocksOf(chain);
    if i == 0 {
      assert LocksOf(chain[1..]) == locks[1..] && chain[..0] + chain[1..] == chain[1..];
    } else {
      assert LocksOf(chain[1..]) == locks[1..];
      UnchainAt(chain[1..], i - 1, f);
      assert chain[..i] + chain[i + 1..] == [chain[0]] + (chain[1..][..i - 1] + chain[1..][i..]);
    }
  }

  /** The backup's release wakes the waiters of the one file, if there are any. */
  lemma OneReleased(s: State, was: map<TxnId, Node>, live: map<TxnId, Node>, rest: seq<L.FileLock>, f: File)
    requires s.live == LiveOf(was) && BACKUP_TXN in was
    requires var now := if f in s.waits then Broadcast(was, f) else was;
             live == now[BACKUP_TXN := now[BACKUP_TXN].(chain := rest)]
    ensures LiveOf(live) == Signal(s.live[BACKUP_TXN := s.live[BACKUP_TXN].(held := LocksOf(rest))],
                                   Freed(s, BACKUP_TXN, [Lock(f, Exclusive)]))
  {
    var freed := Freed(s, BACKUP_TXN, [Lock(f, Exclusive)]);
    assert f in freed <==> f in s.waits by {
      assert Lock(f, Exclusive) in [Lock(f, Exclusive)];
    }
    assert forall g :: g in freed ==> g == f;
    var base := s.live[BACKUP_TXN := s.live[BACKUP_TXN].(held := LocksOf(rest))];
    forall t | t in base ensures LiveOf(live)[t] == Signal(base, freed)[t] {
    }
    assert LiveOf(live).Keys == Signal(base, freed).Keys;
  }

  /** The live transactions, where `t` has only the records of `chain` left. */
  ghost function View(live: map<TxnId, Node>, was: map<TxnId, Node>, t: TxnId, chain: seq<L.FileLock>): map<TxnId, Node>
    requires t in was
  {
    live[t := was[t].(chain := chain)]
  }

  /** Two maps of live transactions with the same chains. */
  ghost predicate SameChains(a: map<TxnId, Node>, b: map<TxnId, Node>) {
    a.Keys == b.Keys && forall t :: t in a ==> a[t].chain == b[t].chain
  }

  lemma SameChainsOwned(list: seq<L.FileLock>, a: map<TxnId, Node>, b: map<TxnId, Node>)
    requires Owned(list, a) && SameChains(a, b)
    ensures Owned(list, b)
  {
  }

  /** The records left in the list are those that were there, but the one removed. */
  lemma RemovedMember(list: seq<L.FileLock>, at: nat, r: L.FileLock)
    requires Distinct(list) && at < |list|
    ensures r in Removed(list, at) <==> r in list && r != list[at]
  {
    var rest := Removed(list, at);
    if r in rest {
      var j :| 0 <= j < |rest| && rest[j] == r;
      assert r == list[if j < at then j else j + 1];
    }
    if r in list && r != list[at] {
      var j :| 0 <= j < |list| && list[j] == r;
      assert rest[if j < at then j else j - 1] == r;
    }
  }

  /** Taking a record out of the list and out of its chain. */
  lemma RemoveKeepsOwned(list: seq<L.FileLock>, at: nat, a: map<TxnId, Node>, b: map<TxnId, Node>, t: TxnId, i: nat)
    requires Owned(list, a) && Distinct(list) && t in a && i < |a[t].chain| && at < |list| && list[at] == a[t].chain[i]
    requires SameChains(a[t := a[t].(chain := a[t].chain[..i] + a[t].chain[i + 1..])], b)
    ensures Owned(Removed(list, at), b)
  {
    forall r ensures r in Removed(list, at) <==> r in list && r != list[at] {
      RemovedMember(list, at, r);
    }
    forall r ensures r in b[t].chain <==> r in a[t].chain && r != list[at] {
      RemovedMember(a[t].chain, i, r);
    }
    ChainsShareOut(list, Removed(list, at), a, b, t, list[at]);
  }

  lemma ChainsShareOut(list: seq<L.FileLock>, rest: seq<L.FileLock>, a: map<TxnId, Node>, b: map<TxnId, Node>,
                       t: TxnId, rec: L.FileLock)
    requires Owned(list, a) && t in a && rec in a[t].chain && a.Keys == b.Keys && Distinct(b[t].chain)
    requires forall u :: u in a && u != t ==> b[u].chain == a[u].chain
    requires forall r :: r in rest <==> r in list && r != rec
    requires forall r :: r in b[t].chain <==> r in a[t].chain && r != rec
    ensures Owned(rest, b)
  {
    forall r | r in rest ensures r.parentTxn in b && r in b[r.parentTxn].chain {
      assert r in list && r in a[r.parentTxn].chain;
    }
    forall u, r | u in b && r in b[u].chain ensures r in rest && r.parentTxn == u {
      assert r in a[u].chain && rec.parentTxn == t;
    }
  }

  lemma RemoveFirst(list: seq<L.FileLock>, at: nat, a: map<TxnId, Node>, b: map<TxnId, Node>, t: TxnId)
    requires Owned(list, a) && Distinct(list) && t in a && a[t].chain != [] && at < |list| && list[at] == a[t].chain[0]
    requires SameChains(a[t := a[t].(chain := a[t].chain[1..])], b)
    ensures Owned(Removed(list, at), b)
  {
    assert a[t].chain[..0] + a[t].chain[1..] == a[t].chain[1..];
    RemoveKeepsOwned(list, at, a, b, t, 0);
  }

  /** Releasing record `i` of the chain wakes the waiters of its file: nobody else has a record of it then. */
  ghost predicate Wakes(s: State, t: TxnId, chain: seq<L.FileLock>, i: nat)
    requires i < |chain|
  {
    var f := chain[i].inode;
    && f in s.waits
    && (chain[i].mode == Exclusive
        || (!s.HeldByOther(t, f) && forall k :: i < k < |chain| ==> chain[k].inode != f))
  }

  ghost function Woken(s: State, t: TxnId, chain: seq<L.FileLock>, n: nat): (fs: set<File>)
    requires n <= |chain|
    ensures forall f :: f in fs <==> exists i :: 0 <= i < n && chain[i].inode == f && Wakes(s, t, chain, i)
  {
    if n == 0 then {}
    else Woken(s, t, chain, n - 1) + if Wakes(s, t, chain, n - 1) then {chain[n - 1].inode} else {}
  }

  lemma {:induction false} LastRecord(chain: seq<L.FileLock>, i: nat) returns (j: nat)
    requires i < |chain|
    ensures i <= j < |chain| && chain[j].inode == chain[i].inode
    ensures forall k :: j < k < |chain| ==> chain[k].inode != chain[i].inode
    decreases |chain| - i
  {
    if k :| i < k < |chain| && chain[k].inode == chain[i].inode {
      j := LastRecord(chain, k);
    } else {
      j := i;
    }
  }

  /** Together the records of the chain wake the waiters of exactly the files that are freed. */
  lemma WokenIsFreed(s: State, t: TxnId, chain: seq<L.FileLock>)
    ensures Woken(s, t, chain, |chain|) == Freed(s, t, LocksOf(chain))
  {
    var locks := LocksOf(chain);
    forall f | f in Freed(s, t, locks) ensures f in Woken(s, t, chain, |chain|) {
      var l :| l in locks && l.file in s.waits && (l.mode == Exclusive || !s.HeldByOther(t, l.file)) && l.file == f;
      var i :| 0 <= i < |locks| && locks[i] == l;
      var j := LastRecord(chain, i);
      assert Wakes(s, t, chain, if l.mode == Exclusive then i else j);
    }
    forall f | f in Woken(s, t, chain, |chain|) ensures f in Freed(s, t, locks) {
      var i :| 0 <= i < |chain| && chain[i].inode == f && Wakes(s, t, chain, i);
      assert locks[i] in locks;
    }
  }

  lemma OtherRecordIsHeld(list: seq<L.FileLock>, live: map<TxnId, Node>, s: State, t: TxnId, r: L.FileLock)
    requires Owned(list, live) && r in list && r.parentTxn != t
    requires forall u :: u in live && u != t ==> u in s.live && s.live[u].held == LocksOf(live[u].chain)
    ensures s.HeldByOther(t, r.inode)
  {
    RecordIsHeld(list, live, r);
    assert r.mode == Shared || r.mode == Exclusive;
    assert s.live[r.parentTxn].Holds(r.inode);
  }

  /** Whether a record is the only one of its file left is what `Wakes` says. */
  lemma AloneIffLast(list: seq<L.FileLock>, live: map<TxnId, Node>, s: State, t: TxnId, chain: seq<L.FileLock>, i: nat)
    requires i < |chain| && Distinct(chain) && t in live && live[t].chain == chain[i..] && Owned(list, live)
    requires forall u :: u in live && u != t <==> u in s.live && u != t
    requires forall u :: u in live && u != t ==> s.live[u].held == LocksOf(live[u].chain)
    ensures chain[i] in list
    ensures Alone(list, chain[i]) <==>
            !s.HeldByOther(t, chain[i].inode) && forall k :: i < k < |chain| ==> chain[k].inode != chain[i].inode
  {
    var rec, f := chain[i], chain[i].inode;
    assert rec == chain[i..][0];
    if Alone(list, rec) {
      forall u, m | u in s.live && u != t && Lock(f, m) in s.live[u].held ensures false {
        assert LiveOf(live)[u].held == s.live[u].held;
        var r := HeldIsRecord(list, live, u, f, m);
      }
      forall k | i < k < |chain| ensures chain[k].inode != f {
        assert chain[k] == chain[i..][k - i];
      }
    }
    if !s.HeldByOther(t, f) && forall k :: i < k < |chain| ==> chain[k].inode != f {
      forall r | r in list && r.inode == f ensures r == rec {
        if r.parentTxn != t { OtherRecordIsHeld(list, live, s, t, r); }
        var k :| 0 <= k < |chain[i..]| && chain[i..][k] == r;
        assert r == chain[i + k];
      }
    }
  }

  /** The records before `i` of the chain have been released. */
  ghost predicate Releasing(list: seq<L.FileLock>, live: map<TxnId, Node>, was: map<TxnId, Node>, s: State, t: TxnId,
                            chain: seq<L.FileLock>, i: nat)
  {
    && i <= |chain| && Distinct(chain) && t in was && t !in live
    && Owned(list, View(live, was, t, chain[i..]))
    && LiveOf(live) == Signal(s.live - {t}, Woken(s, t, chain, i))
  }

  lemma ReleaseBegins(list: seq<L.FileLock>, live: map<TxnId, Node>, was: map<TxnId, Node>, s: State, t: TxnId)
    requires Owned(list, was) && t in was && live == was - {t} && s.live == LiveOf(was)
    ensures Releasing(list, live, was, s, t, was[t].chain, 0)
  {
    var chain := was[t].chain;
    assert chain[0..] == chain;
    SameChainsOwned(list, was, View(live, was, t, chain));
    assert LiveOf(live) == Signal(s.live - {t}, {});
  }

  lemma ReleasingHas(list: seq<L.FileLock>, live: map<TxnId, Node>, was: map<TxnId, Node>, s: State, t: TxnId,
                     chain: seq<L.FileLock>, i: nat)
    requires Releasing(list, live, was, s, t, chain, i) && i < |chain|
    ensures chain[i] in list
    ensures Alone(list, chain[i]) <==>
            !s.HeldByOther(t, chain[i].inode) && forall k :: i < k < |chain| ==> chain[k].inode != chain[i].inode
  {
    var view := View(live, was, t, chain[i..]);
    assert live.Keys == LiveOf(live).Keys == (s.live - {t}).Keys;
    forall u | u in view && u != t ensures s.live[u].held == LocksOf(view[u].chain) {
      assert LiveOf(live)[u].held == Signal(s.live - {t}, Woken(s, t, chain, i))[u].held;
    }
    AloneIffLast(list, view, s, t, chain, i);
  }

  lemma ReleaseGoesOn(list: seq<L.FileLock>, at: nat, live: map<TxnId, Node>, live': map<TxnId, Node>,
                      was: map<TxnId, Node>, s: State, t: TxnId, chain: seq<L.FileLock>, i: nat)
    requires Releasing(list, live, was, s, t, chain, i) && i < |chain|
    requires Distinct(list) && at < |list| && list[at] == chain[i]
    requires live' == if Wakes(s, t, chain, i) then Broadcast(live, chain[i].inode) else live
    ensures Releasing(Removed(list, at), live', was, s, t, chain, i + 1)
  {
    BroadcastChains(live, chain[i].inode);
    ReleasedOwned(list, at, live, live', was, t, chain, i);
    ReleasedSignals(live, live', s, t, chain, i);
  }

  lemma BroadcastChains(live: map<TxnId, Node>, f: File)
    ensures SameChains(live, Broadcast(live, f))
  {
  }

  lemma ReleasedSignals(live: map<TxnId, Node>, live': map<TxnId, Node>, s: State, t: TxnId,
                        chain: seq<L.FileLock>, i: nat)
    requires i < |chain| && LiveOf(live) == Signal(s.live - {t}, Woken(s, t, chain, i))
    requires live' == if Wakes(s, t, chain, i) then Broadcast(live, chain[i].inode) else live
    ensures LiveOf(live') == Signal(s.live - {t}, Woken(s, t, chain, i + 1))
  {
    var before := Woken(s, t, chain, i);
    BroadcastSignals(live, s.live - {t}, before, chain[i].inode);
    assert Woken(s, t, chain, i + 1) == before + if Wakes(s, t, chain, i) then {chain[i].inode} else {};
    assert before + {} == before;
  }

  lemma ReleasedOwned(list: seq<L.FileLock>, at: nat, live: map<TxnId, Node>, live': map<TxnId, Node>,
                      was: map<TxnId, Node>, t: TxnId, chain: seq<L.FileLock>, i: nat)
    requires i < |chain| && t in was && Owned(list, View(live, was, t, chain[i..]))
    requires Distinct(list) && at < |list| && list[at] == chain[i] && SameChains(live, live')
    ensures Owned(Removed(list, at), View(live', was, t, chain[i + 1..]))
  {
    assert chain[i..][0] == chain[i] && chain[i..][1..] == chain[i + 1..];
    RemoveFirst(list, at, View(live, was, t, chain[i..]), View(live', was, t, chain[i + 1..]), t);
  }

  lemma ReleaseEnds(list: seq<L.FileLock>, live: map<TxnId, Node>, was: map<TxnId, Node>, s: State, t: TxnId,
                    chain: seq<L.FileLock>)
    requires Releasing(list, live, was, s, t, chain, |chain|)
    ensures Owned(list, live) && forall r :: r in list ==> r.parentTxn != t
    ensures LiveOf(live) == Signal(s.live - {t}, Freed(s, t, LocksOf(chain)))
  {
    var view := View(live, was, t, []);
    assert chain[|chain|..] == [] && Owned(list, view);
    WokenIsFreed(s, t, chain);
    forall r | r in list ensures r.parentTxn != t && r.parentTxn in live && r in live[r.parentTxn].chain {
      assert r in view[r.parentTxn].chain;
    }
    forall u | u in live
      ensures Distinct(live[u].chain) && forall r :: r in live[u].chain ==> r in list && r.parentTxn == u
    {
      assert view[u].chain == live[u].chain;
    }
  }

  /** No other record of the same file is in the list. */
  ghost predicate Alone(list: seq<L.FileLock>, rec: L.FileLock) {
    forall r :: r in list && r.inode == rec.inode ==> r == rec
  }

  lemma AloneIffUngrouped(list: seq<L.FileLock>, i: nat)
    requires L.Sorted(list) && Distinct(list) && i < |list| && L.Grouped(list, i)
    ensures Alone(list, list[i]) <==> list[i].nextShared == null && list[i].prevShared == null
  {
    if i > 0 && list[i - 1].inode == list[i].inode {
      assert list[i - 1] in list;
    } else if i + 1 < |list| && list[i + 1].inode == list[i].inode {
      assert list[i + 1] in list;
    } else {
      forall j | 0 <= j < |list| && j != i ensures list[j].inode != list[i].inode {
        assert j < i ==> list[j].inode <= list[i - 1].inode;
        assert j > i ==> list[i + 1].inode <= list[j].inode;
      }
    }
  }

  /** Every transaction that waits for the file is signalled. */
  function Broadcast(live: map<TxnId, Node>, f: File): map<TxnId, Node> {
    map t | t in live ::
      if live[t].phase.Waiting? && live[t].phase.file == f
      then live[t].(phase := live[t].phase.(signalled := true))
      else live[t]
  }

  lemma BroadcastSignals(live: map<TxnId, Node>, base: map<TxnId, Txn>, fs: set<File>, f: File)
    requires LiveOf(live) == Signal(base, fs)
    ensures LiveOf(Broadcast(live, f)) == Signal(base, fs + {f})
  {
    assert live.Keys == LiveOf(live).Keys == base.Keys;
    forall t | t in base ensures LiveOf(Broadcast(live, f))[t] == Signal(base, fs + {f})[t] {
      assert LiveOf(live)[t] == Signal(base, fs)[t];
    }
  }

  /** All records of a file have the mode of any one of them. */
  lemma ModeOfRecord(list: seq<L.FileLock>, k: nat)
    requires L.OneMode(list) && Distinct(list) && k < |list|
    ensures forall r :: r in list && r.inode == list[k].inode ==> r.mode == list[k].mode
  {
  }

  /** The backup has no record of a file that is locked in shared mode. */
  lemma BackupDoesNotShare(list: seq<L.FileLock>, live: map<TxnId, Node>, f: File, loc: L.FileLock)
    requires Owned(list, live) && BackupExclusive(list) && loc in list && loc.inode == f && loc.mode == Shared
    requires forall r :: r in list && r.inode == f ==> r.mode == Shared
    ensures BACKUP_TXN in live ==> !LiveOf(live)[BACKUP_TXN].Holds(f)
    ensures forall r :: r in list && r.inode == f ==> r.parentTxn != BACKUP_TXN
  {
    if BACKUP_TXN in live {
      forall m | Lock(f, m) in LiveOf(live)[BACKUP_TXN].held ensures m == Shared && m == Exclusive {
        var r := HeldIsRecord(list, live, BACKUP_TXN, f, m);
      }
    }
  }

  /** What a verdict does with the request. */
  ghost function Decided(s: State, t: TxnId, f: File, m: Mode, v: Verdict): State
    requires t in s.live && f in s.bits
  {
    match v
    case Pass => Grant(s, t, f, m)
    case Pause => Protocol.SetPhase(s, t, Retrying(f, m))
    case Kill => Protocol.SetPhase(s, t, Doomed)
  }

  /** What the protocol does with a request that has been checked. */
  lemma CheckedOutcome(s: State, n: Node, t: TxnId, f: File, m: Mode, v: Verdict)
    requires t in s.live && f in s.bits && s.live[t] == TxnOf(n) && v == CheckOf(n, s.bits[f], P.Times(s.pauses, t))
    ensures GrantIfSerializable(s, t, f, m) == Decided(s.(pauses := PausesAfter(v, n, t, s.pauses)), t, f, m, v)
  {
    assert |TxnOf(n).held| == |n.chain|;
  }

  /** The protocol's check, for a transaction with a given number of records. */
  ghost function CheckOf(n: Node, bit: bool, times: nat): (v: Verdict)
    ensures v == if n.chain == [] || bit == n.side then Pass
                 else if bit || !n.side || times > PAUSE_LIMIT then Kill else Pause
  {
    assert |TxnOf(n).held| == |n.chain|;
    Check(TxnOf(n), bit, times)
  }

  function PausesAfter(v: Verdict, n: Node, t: TxnId, paused: map<TxnId, nat>): map<TxnId, nat> {
    match v
    case Pass => if n.chain == [] then paused else paused - {t}
    case Pause => paused[t := P.Times(paused, t) + 1]
    case Kill => paused
  }
}

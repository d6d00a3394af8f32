/** The whole server: the lock manager with the disk under it. Every call is one step of the protocol machine,
    so that what holds of all runs of the machine holds of the server after any sequence of calls. */
module Service {
  import opened Basics
  import opened Storage
  import opened Protocol
  import opened Invariants
  import opened Serializability
  import opened BackupConsistency
  import opened Waiting
  import opened Requests
  import L = LockList
  import S = LockServer

  /** The run that has led from a server just started to the present state. */
  ghost predicate Traced(start: State, trace: seq<Action>, s: State) {
    IsInitial(start) && Run(start, trace) == Reached(s)
  }

  lemma TraceStep(start: State, trace: seq<Action>, s: State, a: Action)
    requires Traced(start, trace, s) && Enabled(s, a)
    ensures Traced(start, trace + [a], Next(s, a))
  {
    RunOneMore(start, trace, a);
  }

  /** A sleeper stands at a wait node. */
  lemma SleeperCounted(start: State, trace: seq<Action>, s: State, t: TxnId)
    requires Traced(start, trace, s) && t in s.live && s.live[t].phase.Waiting?
    ensures s.live[t].phase.file in s.waits
  {
    TraceIsSound(start, trace, s);
    SleeperHasNode(s, t);
  }

  lemma TraceIsSound(start: State, trace: seq<Action>, s: State)
    requires Traced(start, trace, s)
    ensures Safe(s) && WaitsSound(s)
  {
    StrictTwoPhaseLocking(start, trace);
    WaitsAreSound(start, trace);
  }

  /** What a read adds to the history of the transaction: the bytes of its own copy of the file, or of the disk. */
  lemma ReadBytes(s: State, t: TxnId, f: File, pos: nat, len: nat)
    requires Enabled(s, ReadAt(t, f, pos, len))
    ensures var r, x := Next(s, ReadAt(t, f, pos, len)), s.live[t];
            var c := if f in x.shadow then x.shadow[f] else s.disk[f];
            exists seen: Content ::
              && r == s.(live := s.live[t := x.(ops := x.ops + [Read(f, pos, len, seen)])])
              && |seen| == (if |c| <= pos then 0 else if |c| < pos + len then |c| - pos else len)
              && forall i :: 0 <= i < |seen| ==> seen[i] == c[pos + i]
  {
    SlicedBytes(s.live[t].View(s.disk, f), pos, len);
  }

  /** What a write leaves in the transaction's own copy of the file. */
  lemma WrittenBytes(s: State, t: TxnId, f: File, pos: nat, data: Content)
    requires Enabled(s, WriteAt(t, f, pos, data))
    ensures var r := Next(s, WriteAt(t, f, pos, data));
            && t in r.live && r.disk == s.disk
            && var x, now := s.live[t], r.live[t].shadow;
               var c := if f in x.shadow then x.shadow[f] else s.disk[f];
               && now.Keys == x.shadow.Keys + {f}
               && |now[f]| == (if data != [] && |c| < pos + |data| then pos + |data| else |c|)
               && (forall i :: 0 <= i < |now[f]| ==>
                     now[f][i] == if pos <= i < pos + |data| then data[i - pos] else if i < |c| then c[i] else 0)
               && forall g :: g in x.shadow && g != f ==> now[g] == x.shadow[g]
  {
    PatchedBytes(s.live[t].View(s.disk, f), pos, data);
  }

  /** The state once a request, which has led to `r`, is noted by the backup if it is its own. */
  ghost function Settled(s: State, r: State, t: TxnId, f: File): State
    requires t in r.live && (t == BACKUP_TXN ==> s.backup.Active?)
  {
    r.(strayed := s.strayed || (t != BACKUP_TXN && f !in s.walked),
       backup := if t == BACKUP_TXN && r.live[t].held != [] then s.backup.(stage := Locked(f)) else s.backup)
  }

  lemma RequestSettles(s: State, t: TxnId, f: File, m: Mode, owner: TxnId)
    requires MayRequest(s, t, f, m) && (s.IsLocked(f) ==> owner in s.live && s.live[owner].Holds(f))
    ensures var r := RequestLock(s, t, f, m, owner);
            && t in r.live && Enabled(s, Action.Request(t, f, m, owner))
            && Next(s, Action.Request(t, f, m, owner)) == Settled(s, r, t, f)
  {
    RequestFrame(s, t, f, m, owner);
  }

  lemma LiveAfter(s: State, t: TxnId, f: File, m: Mode, owner: TxnId)
    requires t in s.live && f in s.bits
    ensures var r := RequestLock(s, t, f, m, owner); t in r.live && r.backup == s.backup
  {
    RequestFrame(s, t, f, m, owner);
  }

  /** What the backup has locked when it comes to release a file. */
  lemma BackupHolds(start: State, trace: seq<Action>, s: State)
    requires Traced(start, trace, s) && Enabled(s, BackupRelease)
    ensures var f := s.backup.stage.file;
            && s.live[BACKUP_TXN].Holds(f)
            && Next(s, BackupRelease) == s.(live := S.AfterBackupRelease(s, f), backup := s.backup.(stage := Idle))
  {
    StrictTwoPhaseLocking(start, trace);
    ReleasesOne(s);
  }

  lemma BackupHoldsNothing(start: State, trace: seq<Action>, s: State)
    requires Traced(start, trace, s) && Enabled(s, BackupEnd)
    ensures s.live[BACKUP_TXN].held == []
  {
    StrictTwoPhaseLocking(start, trace);
  }

  lemma ReleasesOne(s: State)
    requires BackupConsistent(s) && Enabled(s, BackupRelease)
    ensures var f := s.backup.stage.file;
            && s.live[BACKUP_TXN].Holds(f)
            && Next(s, BackupRelease) == s.(live := S.AfterBackupRelease(s, f), backup := s.backup.(stage := Idle))
  {
    assert Lock(s.backup.stage.file, Exclusive) in s.live[BACKUP_TXN].held;
  }

  class Server {
    const locking: S.Server
    var disk: Disk
    var commits: nat          // how many transactions have committed
    ghost const start: State
    ghost var trace: seq<Action>

    /** A server over `disk`. What `initial` says beyond it: the root and the files of the backup's walk. */
    constructor (disk: Disk, bits: map<File, bool>, ghost initial: State)
      requires IsInitial(initial) && initial.disk == disk && initial.bits == bits
      ensures Valid() && Abs() == initial && trace == []
      ensures fresh(locking) && fresh(locking.locks) && fresh(locking.waits)
      ensures fresh(locking.pauses) && fresh(locking.pauses.entries) && locking.locks.list == []
    {
      locking := new S.Server(bits, initial);
      this.disk, commits, start, trace := disk, 0, initial, [];
    }

    ghost predicate Valid()
      reads this, locking, locking.locks, locking.locks.list, locking.waits, locking.pauses, locking.pauses.entries
    {
      locking.Valid() && Abs().disk == disk && |Abs().committed| == commits && Traced(start, trace, Abs())
    }

    /** The state of the protocol machine. */
    ghost function Abs(): State
      reads locking
    {
      locking.Abs()
    }

    /** A transaction becomes live. */
    method Begin(t: TxnId)
      requires Valid() && Enabled(Abs(), Action.Begin(t)) && t > BACKUP_TXN
      modifies this`trace, locking`live
      ensures Valid() && trace == old(trace) + [Action.Begin(t)] && Abs() == Next(old(Abs()), Action.Begin(t))
    {
      TraceStep(start, trace, Abs(), Action.Begin(t));
      locking.Begin(t);
      trace := trace + [Action.Begin(t)];
    }

    /** A lock request, of a user transaction or of the backup for the next file. If the pause array runs over,
        this model stops. */
    method Request(t: TxnId, f: File, m: Mode) returns (overrun: bool, ghost owner: TxnId)
      requires Valid() && MayRequest(Abs(), t, f, m)
      modifies this`trace, locking, locking.locks, locking.locks.list, locking.waits
      modifies locking.pauses, locking.pauses.entries
      ensures Enabled(old(Abs()), Action.Request(t, f, m, owner)) && L.OwnerFound(old(locking.locks.list), f, t, owner)
      ensures Valid() && locking.OnlyNewRecords(old(locking.locks.list))
      ensures L.Grown(old(locking.locks.list), locking.locks.list, f)
      ensures overrun <==> !old(locking.RoomToRequest(t, f, m, owner))
      ensures trace == if overrun then old(trace) else old(trace) + [Action.Request(t, f, m, owner)]
      ensures Abs() == if overrun then old(Abs()) else Next(old(Abs()), Action.Request(t, f, m, owner))
      ensures !overrun ==> Answered(old(Abs()), Abs(), t, f, m, owner)
    {
      ghost var s := Abs();
      overrun, owner := DoRequest(t, f, m);
      RequestSettles(s, t, f, m, owner);
      RequestIsAnswered(s, t, f, m, owner);
      if !overrun {
        AddStep(s, Action.Request(t, f, m, owner));
      }
    }

    /** What has been done becomes a step of the run. */
    method AddStep(ghost s: State, ghost a: Action)
      requires !a.Commit? && Enabled(s, a) && Traced(start, trace, s) && Abs() == Next(s, a)
      requires locking.Valid() && s.disk == disk && |s.committed| == commits
      modifies this`trace
      ensures Valid() && trace == old(trace) + [a]
    {
      TraceStep(start, trace, s, a);
      DiskKept(s, a);
      trace := trace + [a];
    }

    /** The request itself, before the step is added to the run. */
    method DoRequest(t: TxnId, f: File, m: Mode) returns (overrun: bool, ghost owner: TxnId)
      requires locking.Valid() && MayRequest(Abs(), t, f, m)
      modifies locking, locking.locks, locking.locks.list, locking.waits, locking.pauses, locking.pauses.entries
      ensures locking.Valid() && locking.OnlyNewRecords(old(locking.locks.list))
      ensures L.Grown(old(locking.locks.list), locking.locks.list, f)
      ensures L.OwnerFound(old(locking.locks.list), f, t, owner)
      ensures overrun <==> !old(locking.RoomToRequest(t, f, m, owner))
      ensures var s := old(Abs());
              && (s.IsLocked(f) ==> owner in s.live && s.live[owner].Holds(f))
              && t in RequestLock(s, t, f, m, owner).live
              && Abs() == if overrun then s else Settled(s, RequestLock(s, t, f, m, owner), t, f)
    {
      ghost var s := Abs();
      overrun, owner := locking.RequestLock(t, f, m);
      LiveAfter(s, t, f, m, owner);
      if !overrun {
        Settle(s, t, f);
      }
    }

    /** The backup notes the file that it has locked. */
    method Settle(ghost s: State, t: TxnId, f: File)
      requires locking.Valid() && t in locking.live && Abs().backup == s.backup
      requires t == BACKUP_TXN ==> s.backup.Active?
      modifies locking`backup, locking`rest
      ensures locking.Valid() && Abs() == Settled(s, old(Abs()), t, f)
      ensures locking.locks.list == old(locking.locks.list)
    {
      assert |S.TxnOf(locking.live[t]).held| == |locking.live[t].chain|;
      locking.rest := locking.rest.(strayed := s.strayed || (t != BACKUP_TXN && f !in s.walked));
      if t == BACKUP_TXN && locking.live[t].chain != [] {
        locking.backup := locking.backup.(stage := Locked(f));
      }
    }

    /** A woken transaction leaves the wait node and is to ask again. */
    method WakeUp(t: TxnId)
      requires Valid() && Enabled(Abs(), Action.WakeUp(t))
      modifies this`trace, locking`live, locking`waiting, locking.waits
      ensures Valid() && trace == old(trace) + [Action.WakeUp(t)] && Abs() == Next(old(Abs()), Action.WakeUp(t))
      ensures var x := old(Abs()).live[t];
              Abs().live == old(Abs()).live[t := x.(phase := Retrying(x.phase.file, x.phase.mode))]
    {
      SleeperLeaves(Abs(), t);
      SleeperCounted(start, trace, Abs(), t);
      TraceStep(start, trace, Abs(), Action.WakeUp(t));
      locking.WakeUp(t);
      trace := trace + [Action.WakeUp(t)];
    }

    /** A sleeping transaction is woken to abort. */
    method Victim(t: TxnId)
      requires Valid() && Enabled(Abs(), Action.Victim(t))
      modifies this`trace, locking`live, locking`waiting, locking.waits
      ensures Valid() && trace == old(trace) + [Action.Victim(t)] && Abs() == Next(old(Abs()), Action.Victim(t))
      ensures Abs().live == old(Abs()).live[t := old(Abs()).live[t].(phase := Doomed)]
    {
      SleeperLeaves(Abs(), t);
      SleeperCounted(start, trace, Abs(), t);
      TraceStep(start, trace, Abs(), Action.Victim(t));
      locking.Victim(t);
      trace := trace + [Action.Victim(t)];
    }

    /** Reads from the transaction's own copy of the file if it has written it, else from the disk. */
    method ReadAt(t: TxnId, f: File, pos: nat, len: nat) returns (seen: Content)
      requires Valid() && Enabled(Abs(), Action.ReadAt(t, f, pos, len))
      modifies this`trace, locking`live
      ensures var x := old(Abs()).live[t];
              var c := if f in x.shadow then x.shadow[f] else disk[f];
              && |seen| == (if |c| <= pos then 0 else if |c| < pos + len then |c| - pos else len)
              && forall i :: 0 <= i < |seen| ==> seen[i] == c[pos + i]
      ensures Valid() && trace == old(trace) + [Action.ReadAt(t, f, pos, len)]
      ensures Abs() == Next(old(Abs()), Action.ReadAt(t, f, pos, len))
    {
      TraceStep(start, trace, Abs(), Action.ReadAt(t, f, pos, len));
      var n := locking.live[t];
      seen := Slice(if f in n.shadow then n.shadow[f] else disk[f], pos, len);
      SlicedBytes(if f in n.shadow then n.shadow[f] else disk[f], pos, len);
      locking.SetWork(t, n.shadow, n.ops + [Read(f, pos, len, seen)]);
      trace := trace + [Action.ReadAt(t, f, pos, len)];
    }

    /** Writes to the transaction's own copy of the file, which is made now if it has none. */
    method WriteAt(t: TxnId, f: File, pos: nat, data: Content)
      requires Valid() && Enabled(Abs(), Action.WriteAt(t, f, pos, data))
      modifies this`trace, locking`live
      ensures t in Abs().live && disk == old(disk)
      ensures var x, now := old(Abs()).live[t], Abs().live[t].shadow;
              var c := if f in x.shadow then x.shadow[f] else disk[f];
              && now.Keys == x.shadow.Keys + {f}
              && |now[f]| == (if data != [] && |c| < pos + |data| then pos + |data| else |c|)
              && (forall i :: 0 <= i < |now[f]| ==>
                    now[f][i] == if pos <= i < pos + |data| then data[i - pos] else if i < |c| then c[i] else 0)
              && forall g :: g in x.shadow && g != f ==> now[g] == x.shadow[g]
      ensures Valid() && trace == old(trace) + [Action.WriteAt(t, f, pos, data)]
      ensures Abs() == Next(old(Abs()), Action.WriteAt(t, f, pos, data))
    {
      ghost var s := Abs();
      DoWrite(t, f, pos, data);
      WrittenBytes(s, t, f, pos, data);
    }

    /** The write itself. */
    method DoWrite(t: TxnId, f: File, pos: nat, data: Content)
      requires Valid() && Enabled(Abs(), Action.WriteAt(t, f, pos, data))
      modifies this`trace, locking`live
      ensures Valid() && trace == old(trace) + [Action.WriteAt(t, f, pos, data)]
      ensures Abs() == Next(old(Abs()), Action.WriteAt(t, f, pos, data))
    {
      TraceStep(start, trace, Abs(), Action.WriteAt(t, f, pos, data));
      var n := locking.live[t];
      var now := if f in n.shadow then n.shadow[f] else disk[f];
      locking.SetWork(t, n.shadow[f := Patch(now, pos, data)], n.ops + [Write(f, pos, data)]);
      trace := trace + [Action.WriteAt(t, f, pos, data)];
    }

    /** Writes in place what the transaction has written, and releases its locks. */
    method Commit(t: TxnId)
      requires Valid() && Enabled(Abs(), Action.Commit(t))
      modifies this`trace, this`disk, this`commits, locking`live, locking`rest, locking.locks, locking.locks.list
      ensures Valid() && trace == old(trace) + [Action.Commit(t)] && Abs() == Next(old(Abs()), Action.Commit(t))
      ensures forall r :: r in locking.locks.list ==> r in old(locking.locks.list)
    {
      ghost var s := Abs();
      DoCommit(t);
      TraceStep(start, trace, s, Action.Commit(t));
      trace := trace + [Action.Commit(t)];
    }

    /** The commit itself. */
    method DoCommit(t: TxnId)
      requires locking.Valid() && Enabled(Abs(), Action.Commit(t)) && Abs().disk == disk && |Abs().committed| == commits
      modifies this`disk, this`commits, locking`live, locking`rest, locking.locks, locking.locks.list
      ensures locking.Valid() && Abs().disk == disk && |Abs().committed| == commits
      ensures Abs() == Next(old(Abs()), Action.Commit(t))
      ensures forall r :: r in locking.locks.list ==> r in old(locking.locks.list)
    {
      var n := locking.live[t];
      locking.ReleaseLocks(t);
      WriteInPlace(n.shadow, Committed(t, n.side, n.ops));
    }

    /** The private writes of a transaction that has committed reach the disk. */
    method WriteInPlace(shadow: Disk, ghost c: Committed)
      requires locking.Valid() && Abs().disk == disk && |Abs().committed| == commits
      modifies this`disk, this`commits, locking`rest
      ensures locking.Valid() && Abs().disk == disk && |Abs().committed| == commits
      ensures locking.locks.list == old(locking.locks.list)
      ensures Abs() == old(Abs()).(disk := old(Abs()).disk + shadow, committed := old(Abs()).committed + [c])
    {
      disk, commits := disk + shadow, commits + 1;
      locking.rest := locking.rest.(disk := disk, committed := locking.rest.committed + [c]);
    }

    method Abort(t: TxnId)
      requires Valid() && Enabled(Abs(), Action.Abort(t))
      modifies this`trace, locking`live, locking.locks, locking.locks.list
      ensures Valid() && trace == old(trace) + [Action.Abort(t)] && Abs() == Next(old(Abs()), Action.Abort(t))
      ensures forall r :: r in locking.locks.list ==> r in old(locking.locks.list)
    {
      TraceStep(start, trace, Abs(), Action.Abort(t));
      locking.ReleaseLocks(t);
      trace := trace + [Action.Abort(t)];
    }

    /** A backup begins; the bit value that means "read" is the one that the root does not have. */
    method BackupStart(root: File)
      requires Valid() && Enabled(Abs(), Action.BackupStart) && root == Abs().root
      modifies this`trace, locking`live, locking`backup
      ensures Valid() && trace == old(trace) + [Action.BackupStart] && Abs() == Next(old(Abs()), Action.BackupStart)
    {
      TraceStep(start, trace, Abs(), Action.BackupStart);
      locking.Begin(BACKUP_TXN);
      locking.backup := Active(!locking.bits[root], Idle, map[], {}, commits);
      trace := trace + [Action.BackupStart];
    }

    method BackupCopy()
      requires Valid() && Enabled(Abs(), Action.BackupCopy)
      modifies this`trace, locking`backup
      ensures Valid() && trace == old(trace) + [Action.BackupCopy] && Abs() == Next(old(Abs()), Action.BackupCopy)
    {
      TraceStep(start, trace, Abs(), Action.BackupCopy);
      var b := locking.backup;
      var f := b.stage.file;
      locking.backup := b.(stage := Copied(f), image := b.image[f := disk[f]]);
      trace := trace + [Action.BackupCopy];
    }

    /** The file has been read: its bit is turned. */
    method BackupMark()
      requires Valid() && Enabled(Abs(), Action.BackupMark)
      modifies this`trace, locking`backup, locking`bits
      ensures Valid() && trace == old(trace) + [Action.BackupMark] && Abs() == Next(old(Abs()), Action.BackupMark)
    {
      TraceStep(start, trace, Abs(), Action.BackupMark);
      var b := locking.backup;
      var f := b.stage.file;
      locking.bits := locking.bits[f := !locking.bits[f]];
      locking.backup := b.(stage := Marked(f), done := b.done + {f});
      trace := trace + [Action.BackupMark];
    }

    method BackupRelease()
      requires Valid() && Enabled(Abs(), Action.BackupRelease)
      modifies this`trace, locking`live, locking`backup, locking.locks, locking.locks.list
      ensures Valid() && trace == old(trace) + [Action.BackupRelease]
      ensures Abs() == Next(old(Abs()), Action.BackupRelease)
      ensures forall r :: r in locking.locks.list ==> r in old(locking.locks.list)
    {
      ghost var s := Abs();
      BackupHolds(start, trace, s);
      DoRelease();
      AddStep(s, Action.BackupRelease);
    }

    /** The release itself. */
    method DoRelease()
      requires locking.Valid() && locking.backup.Active? && locking.backup.stage.Marked?
      requires BACKUP_TXN in locking.live && Abs().live[BACKUP_TXN].Holds(locking.backup.stage.file)
      modifies locking`live, locking`backup, locking.locks, locking.locks.list
      ensures locking.Valid()
      ensures Abs() == old(Abs()).(live := S.AfterBackupRelease(old(Abs()), old(locking.backup).stage.file),
                                   backup := old(locking.backup).(stage := Idle))
      ensures forall r :: r in locking.locks.list ==> r in old(locking.locks.list)
    {
      locking.ReleaseByBackup(locking.backup.stage.file);
      locking.backup := locking.backup.(stage := Idle);
    }

    method BackupEnd()
      requires Valid() && Enabled(Abs(), Action.BackupEnd)
      modifies this`trace, locking`live, locking`backup, locking`rest
      ensures Valid() && trace == old(trace) + [Action.BackupEnd] && Abs() == Next(old(Abs()), Action.BackupEnd)
    {
      ghost var s := Abs();
      BackupHoldsNothing(start, trace, s);
      DoEnd();
      AddStep(s, Action.BackupEnd);
    }

    /** The end itself. */
    method DoEnd()
      requires locking.Valid() && Enabled(Abs(), Action.BackupEnd) && Abs().live[BACKUP_TXN].held == []
      modifies locking`live, locking`backup, locking`rest
      ensures locking.Valid() && Abs() == Next(old(Abs()), Action.BackupEnd)
    {
      ghost var s, b := Abs(), locking.backup;
      assert |S.TxnOf(locking.live[BACKUP_TXN]).held| == |locking.live[BACKUP_TXN].chain|;
      locking.End(BACKUP_TXN);
      locking.backup := Inactive;
      locking.rest := locking.rest.(
        finished := s.finished + [Finished(b.mark, b.image, b.start, |s.committed|, s.strayed)]);
    }

    /** What any sequence of calls has kept: serializability in commit order, consistent backups and sound waits. */
    lemma Guarantees()
      requires Valid()
      ensures Safe(Abs()) && Serializable(start.disk, Abs()) && AllConsistent(start.disk, Abs()) && WaitsSound(Abs())
    {
      StrictTwoPhaseLocking(start, trace);
      OnlineBackupIsConsistent(start, trace);
      WaitsAreSound(start, trace);
    }
  }
}

/** The lock, wait and backup protocol as a machine whose steps are the critical sections that the
    server runs under `file_mutex`. A state is a value; `Next` is what one critical section does to it. */
module Protocol {
  import opened Basics
  import opened Storage

  type TxnId = int

  /** Transaction id 0 is reserved for the backup. */
  const BACKUP_TXN: TxnId := 0

  /** A transaction is aborted instead of paused once its counter has passed this. */
  const PAUSE_LIMIT: nat := 5

  datatype Mode = Shared | Exclusive

  datatype Lock = Lock(file: File, mode: Mode)

  datatype Phase =
    | Running
    | Waiting(file: File, mode: Mode, signalled: bool)  // asleep on the file's condition variable
    | Retrying(file: File, mode: Mode)                  // woken up or paused: the request runs again
    | Doomed                                            // refused by the backup check, or picked as a deadlock
                                                        // victim: only abort is left

  /** A node of the live-transaction list. `held` is its chain of lock records, oldest first;
      `shadow` holds the files it has written, private until commit; `ops` is its history. */
  datatype Txn = Txn(side: bool, held: seq<Lock>, phase: Phase,
                     shadow: map<File, Content>, ops: seq<Op>)
  {
    predicate Holds(f: File) {
      Lock(f, Shared) in held || Lock(f, Exclusive) in held
    }

    predicate HoldsExclusively(f: File) {
      Lock(f, Exclusive) in held
    }

    predicate WaitsFor(f: File) {
      phase.Waiting? && phase.file == f
    }

    /** The file as this transaction sees it. */
    function View(d: Disk, f: File): Content
      requires f in d
    {
      if f in shadow then shadow[f] else d[f]
    }
  }

  /** Where the backup is with the file it is working on. */
  datatype Stage = Idle | Locked(file: File) | Copied(file: File) | Marked(file: File)

  /** `mark` is the bit value that means "read by this backup"; `done` are the files already marked;
      `start` is the length of the committed history when the backup began. */
  datatype Backup =
    | Inactive
    | Active(mark: bool, stage: Stage, image: Disk, done: set<File>, start: nat)

  /** A finished backup, with the part of the history it overlapped, and whether by its end a user
      transaction had asked for a file outside the walk. */
  datatype Finished = Finished(mark: bool, image: Disk, start: nat, end: nat, strayed: bool)

  datatype State = State(
    root: File,                 // the root of the tree that is backed up
    disk: Disk,
    bits: map<File, bool>,      // the sticky bit of every file
    walked: set<File>,          // the files that the backup's walk over the tree comes to
    strayed: bool,              // a user transaction has asked for a file outside the walk
    live: map<TxnId, Txn>,
    waits: map<File, nat>,      // one wait node for each file waited for: its `in_wait`
    pauses: map<TxnId, nat>,    // consecutive pauses
    backup: Backup,
    committed: seq<Committed>,
    finished: seq<Finished>)
  {
    predicate IsLocked(f: File) {
      exists t :: t in live && live[t].Holds(f)
    }

    predicate IsExclusive(f: File) {
      exists t :: t in live && live[t].HoldsExclusively(f)
    }

    /** Somebody other than `t` has a lock record for `f`. */
    predicate HeldByOther(t: TxnId, f: File) {
      exists u :: u in live && u != t && live[u].Holds(f)
    }

    function Pauses(t: TxnId): nat {
      if t in pauses then pauses[t] else 0
    }
  }

  /** A server that has just been started: nothing is live and no file on the walk has been read. */
  ghost predicate IsInitial(s: State) {
    && s.walked <= s.disk.Keys && s.bits.Keys == s.disk.Keys
    && (forall f, g :: f in s.walked && g in s.walked ==> s.bits[f] == s.bits[g])
    && s == State(s.root, s.disk, s.bits, s.walked, false, map[], map[], map[], Inactive, [], [])
  }

  function Initial(root: File, disk: Disk, walked: set<File>, bit: bool): State {
    State(root, disk, map f | f in disk :: bit, walked, false, map[], map[], map[], Inactive, [], [])
  }

  datatype Action =
    | Begin(txn: TxnId)
    | Request(txn: TxnId, file: File, mode: Mode, loc: TxnId)  // `loc`: owner of the record the search returned
    | WakeUp(txn: TxnId)
    | Victim(txn: TxnId)  // woken by the deadlock detector, to abort
    | ReadAt(txn: TxnId, file: File, pos: nat, len: nat)
    | WriteAt(txn: TxnId, file: File, pos: nat, data: Content)
    | Commit(txn: TxnId)
    | Abort(txn: TxnId)
    | BackupStart
    | BackupCopy
    | BackupMark
    | BackupRelease
    | BackupEnd

  /** Who may ask for a lock: a thread that runs or that asks again, and the backup for the next file to read. */
  predicate MayRequest(s: State, t: TxnId, f: File, m: Mode) {
    && t in s.live && f in s.disk && f in s.bits
    && (s.live[t].phase == Running || s.live[t].phase == Retrying(f, m))
    && (t == BACKUP_TXN ==>
          && m == Exclusive
          && s.backup.Active? && s.backup.stage == Idle && f in s.walked && f !in s.backup.done)
  }

  /** When a step may be taken. A thread asleep, in a retry or about to abort takes no other step. */
  predicate Enabled(s: State, a: Action) {
    match a
    case Begin(t) => t != BACKUP_TXN && t !in s.live
    case Request(t, f, m, loc) => MayRequest(s, t, f, m) && (s.IsLocked(f) ==> loc in s.live && s.live[loc].Holds(f))
    case WakeUp(t) => t in s.live && s.live[t].phase.Waiting? && s.live[t].phase.signalled
    case Victim(t) => t != BACKUP_TXN && t in s.live && s.live[t].phase.Waiting?
    case ReadAt(t, f, _, _) =>
      t != BACKUP_TXN && t in s.live && s.live[t].phase == Running && s.live[t].Holds(f) && f in s.disk
    case WriteAt(t, f, _, _) =>
      && t != BACKUP_TXN && t in s.live && s.live[t].phase == Running
      && s.live[t].HoldsExclusively(f) && f in s.disk
    case Commit(t) => t != BACKUP_TXN && t in s.live && s.live[t].phase == Running
    case Abort(t) => t != BACKUP_TXN && t in s.live && s.live[t].phase in {Running, Doomed}
    case BackupStart => s.backup.Inactive? && BACKUP_TXN !in s.live && s.root in s.walked && s.root in s.bits
    case BackupCopy => s.backup.Active? && s.backup.stage.Locked? && s.backup.stage.file in s.disk
    case BackupMark => s.backup.Active? && s.backup.stage.Copied? && s.backup.stage.file in s.bits
    case BackupRelease => s.backup.Active? && s.backup.stage.Marked? && BACKUP_TXN in s.live
    case BackupEnd =>
      && s.backup.Active? && s.backup.stage == Idle && s.backup.done == s.walked
      && BACKUP_TXN in s.live && s.live[BACKUP_TXN].phase == Running
  }

  datatype Verdict = Pass | Pause | Kill

  /** The mutual-serializability check of a request for a file whose read bit is `bit`. */
  function Check(x: Txn, bit: bool, pauses: nat): Verdict {
    if x.held == [] then Pass
    else if bit == x.side then Pass
    else if !bit && x.side then (if pauses > PAUSE_LIMIT then Kill else Pause)
    else Kill
  }

  function SetPhase(s: State, t: TxnId, phase: Phase): State
    requires t in s.live
  {
    s.(live := s.live[t := s.live[t].(phase := phase)])
  }

  /** Adds a lock record to the end of the transaction's chain; the first one fixes its side. */
  function Grant(s: State, t: TxnId, f: File, m: Mode): State
    requires t in s.live && f in s.bits
  {
    var x := s.live[t];
    s.(live := s.live[t := x.(side := if x.held == [] then s.bits[f] else x.side,
                              held := x.held + [Lock(f, m)],
                              phase := Running)])
  }

  /** Puts the transaction to sleep on the file's wait node, which is created if there is none. */
  function Block(s: State, t: TxnId, f: File, m: Mode): State
    requires t in s.live
  {
    SetPhase(s, t, Waiting(f, m, false))
      .(waits := s.waits[f := if f in s.waits then s.waits[f] + 1 else 1])
  }

  /** Grants a request, pauses it or dooms its transaction, as the backup check says. */
  function GrantIfSerializable(s: State, t: TxnId, f: File, m: Mode): State
    requires t in s.live && f in s.bits
  {
    var x := s.live[t];
    match Check(x, s.bits[f], s.Pauses(t))
    case Pass => Grant(if x.held == [] then s else s.(pauses := s.pauses - {t}), t, f, m)
    case Pause => SetPhase(s, t, Retrying(f, m)).(pauses := s.pauses[t := s.Pauses(t) + 1])
    case Kill => SetPhase(s, t, Doomed)
  }

  /** One lock request, from the search of the lock list to its outcome. */
  function RequestLock(s: State, t: TxnId, f: File, m: Mode, loc: TxnId): State
    requires t in s.live && f in s.bits
  {
    if !s.IsLocked(f) then
      if t == BACKUP_TXN || s.backup.Inactive? then Grant(s, t, f, m)
      else GrantIfSerializable(s, t, f, m)
    else if loc == t then SetPhase(s, t, Running)
    else if s.IsExclusive(f) then Block(s, t, f, m)
    else if m == Shared && (f !in s.waits || SharedByBackup(s, f)) then
      if t == BACKUP_TXN then Grant(s, t, f, m) else GrantIfSerializable(s, t, f, m)
    else Block(s, t, f, m)
  }

  /** The backup is one of the holders of `f`: then readers may pass the waiting writers. */
  predicate SharedByBackup(s: State, f: File) {
    BACKUP_TXN in s.live && s.live[BACKUP_TXN].Holds(f)
  }

  /** The woken thread leaves the wait node, and frees it if it was the last one there. */
  function LeaveWaitNode(waits: map<File, nat>, f: File): map<File, nat> {
    if f !in waits then waits
    else if waits[f] <= 1 then waits - {f}
    else waits[f := waits[f] - 1]
  }

  /** A broadcast on the wait nodes of `fs`. */
  function Signal(live: map<TxnId, Txn>, fs: set<File>): map<TxnId, Txn> {
    map t | t in live ::
      if live[t].phase.Waiting? && live[t].phase.file in fs
      then live[t].(phase := live[t].phase.(signalled := true))
      else live[t]
  }

  /** The waited-for files on which nobody has a lock record once `locks` of `t` are gone. */
  function Freed(s: State, t: TxnId, locks: seq<Lock>): set<File> {
    set l | l in locks && l.file in s.waits && (l.mode == Exclusive || !s.HeldByOther(t, l.file)) :: l.file
  }

  /** A chain without its first record for `f`. */
  function Unchain(held: seq<Lock>, f: File): seq<Lock> {
    if held == [] then []
    else if held[0].file == f then held[1..]
    else [held[0]] + Unchain(held[1..], f)
  }

  /** Ends transaction `t`: its records leave the lock list and waiters are woken. */
  function Release(s: State, t: TxnId): State
    requires t in s.live
  {
    s.(live := Signal(s.live - {t}, Freed(s, t, s.live[t].held)))
  }

  /** What one enabled step does. */
  function Next(s: State, a: Action): State
    requires Enabled(s, a)
  {
    match a
    case Begin(t) => s.(live := s.live[t := Txn(false, [], Running, map[], [])])
    case Request(t, f, m, loc) =>
      var r := RequestLock(s, t, f, m, loc).(strayed := s.strayed || (t != BACKUP_TXN && f !in s.walked));
      if t == BACKUP_TXN && r.live[t].held != []
      then r.(backup := s.backup.(stage := Locked(f)))
      else r
    case WakeUp(t) =>
      var p := s.live[t].phase;
      SetPhase(s, t, Retrying(p.file, p.mode)).(waits := LeaveWaitNode(s.waits, p.file))
    case Victim(t) =>
      SetPhase(s, t, Doomed).(waits := LeaveWaitNode(s.waits, s.live[t].phase.file))
    case ReadAt(t, f, pos, len) =>
      var x := s.live[t];
      var seen := Slice(x.View(s.disk, f), pos, len);
      s.(live := s.live[t := x.(ops := x.ops + [Read(f, pos, len, seen)])])
    case WriteAt(t, f, pos, data) =>
      var x := s.live[t];
      s.(live := s.live[t := x.(shadow := x.shadow[f := Patch(x.View(s.disk, f), pos, data)],
                                ops := x.ops + [Write(f, pos, data)])])
    case Commit(t) =>
      var x := s.live[t];
      Release(s, t).(disk := s.disk + x.shadow,
                     committed := s.committed + [Committed(t, x.side, x.ops)])
    case Abort(t) => Release(s, t)
    case BackupStart =>
      s.(live := s.live[BACKUP_TXN := Txn(false, [], Running, map[], [])],
         backup := Active(!s.bits[s.root], Idle, map[], {}, |s.committed|))
    case BackupCopy =>
      var b := s.backup;
      var f := b.stage.file;
      s.(backup := b.(stage := Copied(f), image := b.image[f := s.disk[f]]))
    case BackupMark =>
      var b := s.backup;
      var f := b.stage.file;
      s.(bits := s.bits[f := !s.bits[f]],
         backup := b.(stage := Marked(f), done := b.done + {f}))
    case BackupRelease =>
      var x := s.live[BACKUP_TXN];
      var f := s.backup.stage.file;
      var locks := [Lock(f, if x.HoldsExclusively(f) then Exclusive else Shared)];
      s.(live := Signal(s.live[BACKUP_TXN := x.(held := Unchain(x.held, f))], Freed(s, BACKUP_TXN, locks)),
         backup := s.backup.(stage := Idle))
    case BackupEnd =>
      var b := s.backup;
      s.(live := s.live - {BACKUP_TXN},
         backup := Inactive,
         finished := s.finished + [Finished(b.mark, b.image, b.start, |s.committed|, s.strayed)])
  }

  /** The state after a run, if every step of it was enabled. */
  datatype Outcome = Stuck | Reached(state: State)

  function Run(s: State, actions: seq<Action>): Outcome {
    if actions == [] then Reached(s)
    else match Run(s, actions[..|actions| - 1])
      case Stuck => Stuck
      case Reached(r) =>
        var a := actions[|actions| - 1];
        if Enabled(r, a) then Reached(Next(r, a)) else Stuck
  }
}

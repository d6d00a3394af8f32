/** What every reachable state of the protocol satisfies. */
module Invariants {
  import opened Storage
  import opened Protocol

  /** Private writes and logged operations are of files that the transaction has locked. */
  ghost predicate WorkHeld(x: Txn) {
    && (forall f :: f in x.shadow ==> x.HoldsExclusively(f))
    && (forall op :: op in x.ops ==> x.Holds(op.file))
  }

  /** Records and histories are about existing files, and covered by the locks. */
  ghost predicate Covered(s: State, x: Txn) {
    (forall l :: l in x.held ==> l.file in s.disk) && WorkHeld(x)
  }

  ghost predicate WellFormed(s: State) {
    && s.bits.Keys == s.disk.Keys && s.walked <= s.disk.Keys
    && forall t :: t in s.live ==> Covered(s, s.live[t])
  }

  /** A file has either one exclusive record, or only shared ones. */
  ghost predicate Compatible(s: State) {
    && (forall t, u, f, m :: t in s.live && u in s.live
                             && Lock(f, Exclusive) in s.live[t].held && Lock(f, m) in s.live[u].held ==>
                               t == u && m == Exclusive)
    && (forall t, f :: t in s.live ==> multiset(s.live[t].held)[Lock(f, Exclusive)] <= 1)
  }

  /** The files on the walk have one read bit. */
  ghost predicate Uniform(s: State) {
    forall f, g :: f in s.walked && g in s.walked && f in s.bits && g in s.bits ==> s.bits[f] == s.bits[g]
  }

  /** User transactions hold only files on the walk, and every one they hold carries the read bit that is
      their side. */
  ghost predicate SidesAgree(s: State) {
    forall t, l :: t in s.live && t != BACKUP_TXN && l in s.live[t].held && l.file in s.bits ==>
                     l.file in s.walked && s.bits[l.file] == s.live[t].side
  }

  /** How the backup's own variables, its node in the live list and the read bits go together. */
  ghost predicate BackupConsistent(s: State) {
    match s.backup
    case Inactive => BACKUP_TXN !in s.live && Uniform(s)
    case Active(mark, stage, image, done, start) =>
      && BACKUP_TXN in s.live
      && s.live[BACKUP_TXN].ops == [] && s.live[BACKUP_TXN].shadow == map[]
      && s.live[BACKUP_TXN].held == (if stage == Idle then [] else [Lock(stage.file, Exclusive)])
      && (stage != Idle ==> s.live[BACKUP_TXN].phase == Running)
      && done <= s.walked
      && (forall f :: f in s.walked && f in s.bits ==> (s.bits[f] == mark <==> f in done))
      && (stage.Locked? || stage.Copied? ==> stage.file in s.walked && stage.file !in done)
      && (stage.Marked? ==> stage.file in done)
      && image.Keys == (if stage.Copied? then done + {stage.file} else done)
      && start <= |s.committed|
  }

  /** The protocol's invariant over locks, sides and the backup. The sides can be relied on as long as user
      transactions keep to the files that the backup reads. */
  ghost predicate Safe(s: State) {
    WellFormed(s) && Compatible(s) && BackupConsistent(s) && (!s.strayed ==> SidesAgree(s))
  }

  lemma SafeInitially(s: State)
    requires IsInitial(s)
    ensures Safe(s)
  {}

  /** The transaction whose node an action may change, apart from waking sleepers. */
  function Actor(a: Action): TxnId {
    match a
    case Begin(t) => t
    case Request(t, _, _, _) => t
    case WakeUp(t) => t
    case Victim(t) => t
    case ReadAt(t, _, _, _) => t
    case WriteAt(t, _, _, _) => t
    case Commit(t) => t
    case Abort(t) => t
    case _ => BACKUP_TXN
  }

  /** The fields of a transaction node that other threads never touch. */
  ghost predicate SameWork(x: Txn, y: Txn) {
    y.held == x.held && y.side == x.side && y.ops == x.ops && y.shadow == x.shadow
  }

  /** What a lock request may change: the requester's phase, one more record on its chain, its side if
      that record is the first, and the two counters. */
  ghost predicate Requested(s: State, r: State, t: TxnId, f: File, m: Mode)
    requires t in s.live && f in s.bits
  {
    && t in r.live
    && r == s.(live := s.live[t := r.live[t]], waits := r.waits, pauses := r.pauses)
    && var x, y := s.live[t], r.live[t];
       && y.ops == x.ops && y.shadow == x.shadow
       && (y.held == x.held ==> y.side == x.side)
       && (y.held != x.held ==>
             && y.held == x.held + [Lock(f, m)] && y.phase == Running
             && y.side == (if x.held == [] then s.bits[f] else x.side))
  }

  lemma GrantFrame(s: State, t: TxnId, f: File, m: Mode)
    requires t in s.live && f in s.bits
    ensures Requested(s, Grant(s, t, f, m), t, f, m)
    ensures Grant(s, t, f, m).live[t].held == s.live[t].held + [Lock(f, m)]
  {
    assert s.live[t].held + [Lock(f, m)] != s.live[t].held;
  }

  lemma SerializableFrame(s: State, t: TxnId, f: File, m: Mode)
    requires t in s.live && f in s.bits
    ensures Requested(s, GrantIfSerializable(s, t, f, m), t, f, m)
  {
    GrantFrame(s, t, f, m);
    GrantFrame(s.(pauses := s.pauses - {t}), t, f, m);
  }

  lemma RequestFrame(s: State, t: TxnId, f: File, m: Mode, loc: TxnId)
    requires t in s.live && f in s.bits
    ensures Requested(s, RequestLock(s, t, f, m, loc), t, f, m)
  {
    GrantFrame(s, t, f, m);
    SerializableFrame(s, t, f, m);
    assert Requested(s, Block(s, t, f, m), t, f, m);
    assert Requested(s, SetPhase(s, t, Running), t, f, m);
  }

  /** When a request adds a record, the file was free, or it is shared by all holders and the requester. */
  lemma GrantedOnlyIf(s: State, r: State, t: TxnId, f: File, m: Mode, loc: TxnId)
    requires t in s.live && f in s.bits && r == RequestLock(s, t, f, m, loc)
    requires t in r.live && r.live[t].held != s.live[t].held
    ensures !s.IsLocked(f) || (m == Shared && !s.IsExclusive(f))
  {
  }

  lemma FailsTheCheck(s: State, t: TxnId, f: File, m: Mode)
    requires t in s.live && f in s.bits && s.live[t].held != [] && s.bits[f] != s.live[t].side
    ensures GrantIfSerializable(s, t, f, m).live[t].held == s.live[t].held
  {
  }

  /** When a request adds a record, the file carries the requester's side, or nothing was checked. */
  lemma PassedOnlyIf(s: State, r: State, t: TxnId, f: File, m: Mode, loc: TxnId)
    requires t in s.live && f in s.bits && r == RequestLock(s, t, f, m, loc)
    requires t in r.live && r.live[t].held != s.live[t].held
    ensures t == BACKUP_TXN || s.live[t].held == [] || s.bits[f] == s.live[t].side
            || (s.backup.Inactive? && !s.IsLocked(f))
  {
    if s.live[t].held != [] && s.bits[f] != s.live[t].side { FailsTheCheck(s, t, f, m); }
  }

  lemma SignalKeeps(live: map<TxnId, Txn>, fs: set<File>)
    ensures Signal(live, fs).Keys == live.Keys
    ensures forall t :: t in live ==> SameWork(live[t], Signal(live, fs)[t])
  {
  }

  /** Nobody but the actor changes its locks, side, history or private writes. */
  lemma OthersKeep(s: State, a: Action, u: TxnId)
    requires Enabled(s, a) && u != Actor(a)
    ensures u in Next(s, a).live <==> u in s.live
    ensures u in s.live ==> SameWork(s.live[u], Next(s, a).live[u])
  {
    match a
    case Request(t, f, m, loc) => RequestFrame(s, t, f, m, loc);
    case Commit(t) => SignalKeeps(s.live - {t}, Freed(s, t, s.live[t].held));
    case Abort(t) => SignalKeeps(s.live - {t}, Freed(s, t, s.live[t].held));
    case BackupRelease =>
    case _ =>
  }

  /** No step adds or removes a file. */
  lemma KeepsFiles(s: State, a: Action)
    requires WellFormed(s) && Enabled(s, a)
    ensures Next(s, a).disk.Keys == s.disk.Keys
    ensures Next(s, a).bits.Keys == s.bits.Keys && Next(s, a).walked == s.walked
  {
    match a
    case Request(t, f, m, loc) => RequestFrame(s, t, f, m, loc);
    case Commit(t) =>
      var x := s.live[t];
      assert Covered(s, x);
      forall f | f in x.shadow ensures f in s.disk {
        assert Lock(f, Exclusive) in x.held;
      }
    case _ =>
  }

  /** Apart from lock requests, a step keeps a transaction's chain or empties it. */
  lemma ChainKeptOrEmptied(s: State, a: Action, t: TxnId)
    requires BackupConsistent(s) && Enabled(s, a) && !a.Request? && t in Next(s, a).live
    ensures Next(s, a).live[t].held == [] || (t in s.live && Next(s, a).live[t].held == s.live[t].held)
    ensures t in s.live && Next(s, a).live[t].held == s.live[t].held != [] ==>
              Next(s, a).live[t].side == s.live[t].side
  {
    if t != Actor(a) {
      OthersKeep(s, a, t);
    } else {
      match a
      case BackupRelease =>
        var f := s.backup.stage.file;
        assert Unchain([Lock(f, Exclusive)], f) == [];
      case _ =>
    }
  }

  lemma ReadCovered(s: State, t: TxnId, f: File, pos: nat, len: nat)
    requires Safe(s) && Enabled(s, ReadAt(t, f, pos, len))
    ensures WorkHeld(Next(s, ReadAt(t, f, pos, len)).live[t])
  {
    var x, y := s.live[t], Next(s, ReadAt(t, f, pos, len)).live[t];
    assert Covered(s, x) && y.held == x.held;
    forall op | op in y.ops ensures y.Holds(op.file) {
      assert op in x.ops || op.file == f;
    }
  }

  lemma WriteCovered(s: State, t: TxnId, f: File, pos: nat, data: Content)
    requires Safe(s) && Enabled(s, WriteAt(t, f, pos, data))
    ensures WorkHeld(Next(s, WriteAt(t, f, pos, data)).live[t])
  {
    var x, y := s.live[t], Next(s, WriteAt(t, f, pos, data)).live[t];
    assert Covered(s, x) && y.held == x.held;
    forall op | op in y.ops ensures y.Holds(op.file) {
      assert op in x.ops || op.file == f;
    }
  }

  lemma RequestCovered(s: State, t: TxnId, f: File, m: Mode, loc: TxnId)
    requires Safe(s) && Enabled(s, Request(t, f, m, loc))
    ensures t in Next(s, Request(t, f, m, loc)).live && WorkHeld(Next(s, Request(t, f, m, loc)).live[t])
  {
    RequestFrame(s, t, f, m, loc);
    assert Covered(s, s.live[t]);
  }

  /** How a step changes the actor's history and private writes. */
  lemma WorkCovered(s: State, a: Action)
    requires Safe(s) && Enabled(s, a) && Actor(a) in Next(s, a).live
    ensures WorkHeld(Next(s, a).live[Actor(a)])
  {
    match a
    case ReadAt(t, f, pos, len) => ReadCovered(s, t, f, pos, len);
    case WriteAt(t, f, pos, data) => WriteCovered(s, t, f, pos, data);
    case Request(t, f, m, loc) => RequestCovered(s, t, f, m, loc);
    case WakeUp(t) => assert Covered(s, s.live[t]);
    case Victim(t) => assert Covered(s, s.live[t]);
    case _ =>
  }

  lemma CoveredAfter(s: State, a: Action, u: TxnId)
    requires Safe(s) && Enabled(s, a) && u in Next(s, a).live
    ensures Covered(Next(s, a), Next(s, a).live[u])
  {
    var r := Next(s, a);
    KeepsFiles(s, a);
    if u in s.live { assert Covered(s, s.live[u]); }
    if u != Actor(a) {
      OthersKeep(s, a, u);
      CoveredSame(s, r, s.live[u], r.live[u]);
    } else {
      WorkCovered(s, a);
      if a.Request? {
        RequestFrame(s, a.txn, a.file, a.mode, a.loc);
      } else {
        ChainKeptOrEmptied(s, a, u);
      }
    }
  }

  lemma CoveredSame(s: State, r: State, x: Txn, y: Txn)
    requires Covered(s, x) && SameWork(x, y) && r.disk.Keys == s.disk.Keys
    ensures Covered(r, y)
  {
  }

  lemma KeepsWellFormed(s: State, a: Action)
    requires Safe(s) && Enabled(s, a)
    ensures WellFormed(Next(s, a))
  {
    KeepsFiles(s, a);
    forall u | u in Next(s, a).live ensures Covered(Next(s, a), Next(s, a).live[u]) {
      CoveredAfter(s, a, u);
    }
  }

  /** Compatibility is about chains only, and survives losing them. */
  lemma CompatibleFewer(s: State, r: State)
    requires Compatible(s)
    requires forall t :: t in r.live ==>
                           r.live[t].held == [] || (t in s.live && r.live[t].held == s.live[t].held)
    ensures Compatible(r)
  {
  }

  /** One more record of a file that nobody has locked, or that all share. */
  lemma OneMoreCompatible(s: State, r: State, t: TxnId, f: File, m: Mode)
    requires Compatible(s) && t in s.live && t in r.live && r.live == s.live[t := r.live[t]]
    requires r.live[t].held == s.live[t].held + [Lock(f, m)]
    requires !s.IsExclusive(f) && (m == Exclusive ==> !s.IsLocked(f))
    ensures Compatible(r)
  {
    var x, y := s.live[t], r.live[t];
    forall l ensures l in y.held <==> l in x.held || l == Lock(f, m) {}
    forall u, w, g, n | u in r.live && w in r.live
                        && Lock(g, Exclusive) in r.live[u].held && Lock(g, n) in r.live[w].held
      ensures u == w && n == Exclusive
    {
      if g == f {
        assert !s.live[u].HoldsExclusively(f) && !s.live[w].HoldsExclusively(f);
        assert u == t && m == Exclusive;
        assert !s.live[w].Holds(f) && !s.live[t].Holds(f);
        assert Lock(f, n) !in s.live[w].held by { match n case Shared => case Exclusive => }
      } else {
        assert Lock(g, Exclusive) in s.live[u].held && Lock(g, n) in s.live[w].held;
      }
    }
    assert multiset(y.held) == multiset(x.held) + multiset{Lock(f, m)};
  }

  lemma GrantCompatible(s: State, t: TxnId, f: File, m: Mode, loc: TxnId)
    requires Compatible(s) && t in s.live && f in s.bits
    ensures Compatible(RequestLock(s, t, f, m, loc))
  {
    var r := RequestLock(s, t, f, m, loc);
    RequestFrame(s, t, f, m, loc);
    if r.live[t].held == s.live[t].held {
      CompatibleFewer(s, r);
    } else {
      GrantedOnlyIf(s, r, t, f, m, loc);
      FreeIsNotExclusive(s, f);
      OneMoreCompatible(s, r, t, f, m);
    }
  }

  lemma FreeIsNotExclusive(s: State, f: File)
    ensures !s.IsLocked(f) ==> !s.IsExclusive(f)
  {
    if s.IsExclusive(f) {
      var u :| u in s.live && s.live[u].HoldsExclusively(f);
      assert s.live[u].Holds(f);
    }
  }

  lemma KeepsCompatible(s: State, a: Action)
    requires Safe(s) && Enabled(s, a)
    ensures Compatible(Next(s, a))
  {
    if a.Request? {
      GrantCompatible(s, a.txn, a.file, a.mode, a.loc);
      CompatibleFewer(RequestLock(s, a.txn, a.file, a.mode, a.loc), Next(s, a));
    } else {
      forall t | t in Next(s, a).live
        ensures Next(s, a).live[t].held == []
                || (t in s.live && Next(s, a).live[t].held == s.live[t].held)
      {
        ChainKeptOrEmptied(s, a, t);
      }
      CompatibleFewer(s, Next(s, a));
    }
  }

  ghost predicate RightSide(s: State, t: TxnId, l: Lock) {
    t in s.live && t != BACKUP_TXN && l in s.live[t].held && l.file in s.bits ==>
      l.file in s.walked && s.bits[l.file] == s.live[t].side
  }

  lemma MarkKeepsSide(s: State, t: TxnId, l: Lock)
    requires Safe(s) && Enabled(s, BackupMark) && !s.strayed
    ensures RightSide(Next(s, BackupMark), t, l)
  {
    if t in s.live && t != BACKUP_TXN && l in s.live[t].held { MarkedIsPrivate(s, t, l); }
  }

  lemma SideAfter(s: State, a: Action, t: TxnId, l: Lock)
    requires Safe(s) && Enabled(s, a) && !Next(s, a).strayed
    ensures RightSide(Next(s, a), t, l)
  {
    if t in Next(s, a).live && t != BACKUP_TXN && l in Next(s, a).live[t].held && l.file in Next(s, a).bits {
      KeepsFiles(s, a);
      match a
      case Request(t', f, m, loc) =>
        RequestFrame(s, t', f, m, loc);
        RequestKeepsSide(s, t', f, m, loc, t, l);
      case BackupMark => MarkKeepsSide(s, t, l);
      case _ => ChainKeptOrEmptied(s, a, t);
    }
  }

  lemma AllRightSide(s: State)
    requires forall t, l :: RightSide(s, t, l)
    ensures SidesAgree(s)
  {
    forall t, l | t in s.live && t != BACKUP_TXN && l in s.live[t].held && l.file in s.bits
      ensures l.file in s.walked && s.bits[l.file] == s.live[t].side
    {
      assert RightSide(s, t, l);
    }
  }

  lemma KeepsSides(s: State, a: Action)
    requires Safe(s) && Enabled(s, a) && !Next(s, a).strayed
    ensures SidesAgree(Next(s, a))
  {
    forall t, l ensures RightSide(Next(s, a), t, l) {
      SideAfter(s, a, t, l);
    }
    AllRightSide(Next(s, a));
  }

  /** A request is granted only for a file on the requester's side. With no backup running nothing is
      checked; then the sides agree because all read bits are equal. */
  lemma RequestKeepsSide(s: State, t: TxnId, f: File, m: Mode, loc: TxnId, u: TxnId, l: Lock)
    requires Safe(s) && Enabled(s, Request(t, f, m, loc)) && !s.strayed && (t != BACKUP_TXN ==> f in s.walked)
    requires u in RequestLock(s, t, f, m, loc).live && u != BACKUP_TXN
    requires l in RequestLock(s, t, f, m, loc).live[u].held && l.file in s.bits
    ensures l.file in s.walked && s.bits[l.file] == RequestLock(s, t, f, m, loc).live[u].side
  {
    var r := RequestLock(s, t, f, m, loc);
    RequestFrame(s, t, f, m, loc);
    if u == t && r.live[t].held != s.live[t].held {
      PassedOnlyIf(s, r, t, f, m, loc);
      if s.backup.Inactive? && s.live[t].held != [] {
        assert s.live[t].held[0] in s.live[t].held;
        assert Covered(s, s.live[t]);
      }
    }
  }

  /** While the backup works on a file, no user transaction has a record for it. */
  lemma MarkedIsPrivate(s: State, t: TxnId, l: Lock)
    requires Safe(s) && s.backup.Active? && s.backup.stage != Idle
    requires t in s.live && t != BACKUP_TXN && l in s.live[t].held
    ensures l.file != s.backup.stage.file
  {
    var f := s.backup.stage.file;
    assert Lock(f, Exclusive) in s.live[BACKUP_TXN].held;
    assert l == Lock(l.file, l.mode);
  }

  /** A user transaction's step leaves the backup and the read bits alone. */
  lemma UserStepFrame(s: State, a: Action)
    requires Safe(s) && Enabled(s, a) && Actor(a) != BACKUP_TXN
    ensures var r := Next(s, a);
            && r.backup == s.backup && r.bits == s.bits && r.walked == s.walked
            && r.finished == s.finished && r.root == s.root
            && |r.committed| >= |s.committed|
            && (BACKUP_TXN in r.live <==> BACKUP_TXN in s.live)
            && (BACKUP_TXN in s.live ==>
                  && SameWork(s.live[BACKUP_TXN], r.live[BACKUP_TXN])
                  && (s.live[BACKUP_TXN].phase == Running ==> r.live[BACKUP_TXN].phase == Running))
  {
    OthersKeep(s, a, BACKUP_TXN);
    if a.Request? { RequestFrame(s, a.txn, a.file, a.mode, a.loc); }
  }

  lemma BackupRequestKeeps(s: State, f: File, m: Mode, loc: TxnId)
    requires Safe(s) && Enabled(s, Request(BACKUP_TXN, f, m, loc))
    ensures BackupConsistent(Next(s, Request(BACKUP_TXN, f, m, loc)))
  {
    RequestFrame(s, BACKUP_TXN, f, m, loc);
  }

  lemma BackupStepKeeps(s: State, a: Action)
    requires Safe(s) && Enabled(s, a) && Actor(a) == BACKUP_TXN
    ensures BackupConsistent(Next(s, a))
  {
    match a
    case Request(t, f, m, loc) => BackupRequestKeeps(s, f, m, loc);
    case BackupRelease =>
      var f := s.backup.stage.file;
      assert Unchain([Lock(f, Exclusive)], f) == [];
    case _ =>
  }

  lemma KeepsBackup(s: State, a: Action)
    requires Safe(s) && Enabled(s, a)
    ensures BackupConsistent(Next(s, a))
  {
    if Actor(a) == BACKUP_TXN {
      BackupStepKeeps(s, a);
    } else {
      UserStepFrame(s, a);
      KeepsFiles(s, a);
    }
  }

  /** Every step keeps the invariant. */
  lemma SafeStep(s: State, a: Action)
    requires Safe(s) && Enabled(s, a)
    ensures Safe(Next(s, a))
  {
    KeepsWellFormed(s, a);
    KeepsCompatible(s, a);
    if !Next(s, a).strayed { KeepsSides(s, a); }
    KeepsBackup(s, a);
  }

  /** Every run from an initial state stays in the invariant. */
  lemma {:induction false} SafeRun(s: State, actions: seq<Action>)
    requires Safe(s) && Run(s, actions).Reached?
    ensures Safe(Run(s, actions).state)
  {
    if actions != [] {
      SafeRun(s, actions[..|actions| - 1]);
      SafeStep(Run(s, actions[..|actions| - 1]).state, actions[|actions| - 1]);
    }
  }

  lemma RunOneMore(s: State, actions: seq<Action>, a: Action)
    requires Run(s, actions).Reached? && Enabled(Run(s, actions).state, a)
    ensures Run(s, actions + [a]) == Reached(Next(Run(s, actions).state, a))
  {
    assert (actions + [a])[..|actions|] == actions;
  }
}

/** The mutual-serializability check: when it may be skipped, how often it can pause a transaction,
    and for which bit polarity pausing can help. */
module Sides {
  import opened Storage
  import opened Protocol
  import opened Invariants

  /** As long as user transactions keep to the files on the walk: every file that one of them holds carries
      the bit that is its side. With no backup running all those bits are equal, so all those sides are, and
      the check that is skipped then would have let every request through, whichever bit value means "read". */
  lemma SkippingTheCheckIsSound(s0: State, actions: seq<Action>)
    requires IsInitial(s0) && Run(s0, actions).Reached? && !Run(s0, actions).state.strayed
    ensures var s := Run(s0, actions).state;
            && SidesAgree(s)
            && (s.backup.Inactive? ==>
                  && Uniform(s)
                  && (forall t, f :: t in s.live && f in s.walked && f in s.bits && s.live[t].held != [] ==>
                                       s.live[t].side == s.bits[f])
                  && (forall t, f :: t in s.live && f in s.walked && f in s.bits ==>
                                       Check(s.live[t], s.bits[f], s.Pauses(t)) == Pass))
  {
    SafeInitially(s0);
    SafeRun(s0, actions);
    var s := Run(s0, actions).state;
    if s.backup.Inactive? {
      forall t, f | t in s.live && f in s.walked && f in s.bits && s.live[t].held != []
        ensures s.live[t].side == s.bits[f]
      {
        assert Covered(s, s.live[t]);
        assert s.live[t].held[0] in s.live[t].held;
      }
    }
  }

  /** The backup asks for exclusive locks only, so the branch in which readers pass waiting writers
      because the backup shares the file is never taken. */
  lemma BackupNeverShares(s0: State, actions: seq<Action>, f: File)
    requires IsInitial(s0) && Run(s0, actions).Reached?
    ensures var s := Run(s0, actions).state;
            SharedByBackup(s, f) ==> s.IsExclusive(f) && !s.HeldByOther(BACKUP_TXN, f)
  {
    SafeInitially(s0);
    SafeRun(s0, actions);
    var s := Run(s0, actions).state;
    if SharedByBackup(s, f) {
      assert s.live[BACKUP_TXN].HoldsExclusively(f);
      forall u | u in s.live && u != BACKUP_TXN ensures !s.live[u].Holds(f) {
        assert Lock(f, Exclusive) in s.live[BACKUP_TXN].held;
      }
    }
  }

  /** The step is a request of `t` that the check pauses. */
  ghost predicate IsPause(s: State, a: Action, t: TxnId)
    requires Enabled(s, a)
  {
    a.Request? && a.txn == t && t in Next(s, a).live && Next(s, a).live[t].phase.Retrying?
  }

  /** The step forgets the pauses of `t`. */
  ghost predicate IsReset(s: State, a: Action, t: TxnId)
    requires Enabled(s, a)
  {
    Next(s, a).Pauses(t) < s.Pauses(t)
  }

  /** How often `t` is paused in a run, and whether its counter is never reset. */
  ghost function PauseCount(s: State, actions: seq<Action>, t: TxnId): nat
    requires Run(s, actions).Reached?
  {
    if actions == [] then 0
    else
      var front, a := actions[..|actions| - 1], actions[|actions| - 1];
      PauseCount(s, front, t) + (if IsPause(Run(s, front).state, a, t) then 1 else 0)
  }

  ghost predicate NeverReset(s: State, actions: seq<Action>, t: TxnId)
    requires Run(s, actions).Reached?
  {
    actions == [] ||
    var front, a := actions[..|actions| - 1], actions[|actions| - 1];
    NeverReset(s, front, t) && !IsReset(Run(s, front).state, a, t)
  }

  ghost predicate PausesBounded(s: State) {
    forall t :: s.Pauses(t) <= PAUSE_LIMIT + 1
  }

  lemma PauseStep(s: State, a: Action, t: TxnId)
    requires PausesBounded(s) && Enabled(s, a)
    ensures Next(s, a).Pauses(t) <= PAUSE_LIMIT + 1
    ensures IsPause(s, a, t) ==> Next(s, a).Pauses(t) == s.Pauses(t) + 1
    ensures !IsPause(s, a, t) && !IsReset(s, a, t) ==> Next(s, a).Pauses(t) == s.Pauses(t)
  {
    if a.Request? {
      RequestFrame(s, a.txn, a.file, a.mode, a.loc);
      RequestPauses(s, a.txn, a.file, a.mode, a.loc, t);
      assert Next(s, a).pauses == RequestLock(s, a.txn, a.file, a.mode, a.loc).pauses;
      assert Next(s, a).live == RequestLock(s, a.txn, a.file, a.mode, a.loc).live;
    } else {
      assert Next(s, a).pauses == s.pauses;
      assert Next(s, a).Pauses(t) == s.Pauses(t) <= PAUSE_LIMIT + 1;
    }
  }

  /** A counter after a request of `u`: one more if the request paused, else unchanged or forgotten. */
  ghost predicate Counts(s: State, r: State, u: TxnId, t: TxnId) {
    && u in r.live
    && r.Pauses(t) <= PAUSE_LIMIT + 1
    && (if t == u && r.live[u].phase.Retrying? then r.Pauses(t) == s.Pauses(t) + 1
        else r.Pauses(t) == s.Pauses(t) || r.Pauses(t) == 0)
  }

  lemma CheckedPauses(s: State, u: TxnId, f: File, m: Mode, t: TxnId)
    requires PausesBounded(s) && u in s.live && f in s.bits
    ensures Counts(s, GrantIfSerializable(s, u, f, m), u, t)
  {
  }

  lemma RequestPauses(s: State, u: TxnId, f: File, m: Mode, loc: TxnId, t: TxnId)
    requires PausesBounded(s) && Enabled(s, Request(u, f, m, loc))
    ensures Counts(s, RequestLock(s, u, f, m, loc), u, t)
  {
    CheckedPauses(s, u, f, m, t);
    assert Counts(s, Grant(s, u, f, m), u, t);
    assert Counts(s, Block(s, u, f, m), u, t);
    assert Counts(s, SetPhase(s, u, Running), u, t);
  }

  /** Bounded pausing: from any reachable state on, as long as its counter is not reset, a transaction is
      paused at most six times, counting the pauses it came with; the next conflict aborts it. */
  lemma {:induction false} PausingIsBounded(s: State, actions: seq<Action>, t: TxnId)
    requires PausesBounded(s) && Run(s, actions).Reached?
    ensures PausesBounded(Run(s, actions).state)
    ensures NeverReset(s, actions, t) ==>
              && Run(s, actions).state.Pauses(t) == s.Pauses(t) + PauseCount(s, actions, t)
              && PauseCount(s, actions, t) <= 6 - s.Pauses(t)
  {
    if actions != [] {
      var front, a := actions[..|actions| - 1], actions[|actions| - 1];
      PausingIsBounded(s, front, t);
      forall u ensures Next(Run(s, front).state, a).Pauses(u) <= PAUSE_LIMIT + 1 {
        PauseStep(Run(s, front).state, a, u);
      }
      PauseStep(Run(s, front).state, a, t);
    }
  }

  /** A paused transaction waits for the backup to read the file. That is what it should wait for if and
      only if a set bit means "read"; for the other polarity the file has been read already. */
  lemma PauseWaitsForBackupIff(s: State, t: TxnId, f: File)
    requires Safe(s) && s.backup.Active? && t in s.live && f in s.walked && f in s.bits
    requires Check(s.live[t], s.bits[f], s.Pauses(t)) == Pause
    ensures f !in s.backup.done <==> s.backup.mark
    ensures s.live[t].side
  {
  }

  /** With a set bit meaning "read", reading the file ends the conflict. */
  lemma MarkingEndsPause(s: State, t: TxnId)
    requires Safe(s) && Enabled(s, BackupMark) && s.backup.mark
    requires t in s.live && t != BACKUP_TXN && s.live[t].side
    ensures var f := s.backup.stage.file;
            Check(Next(s, BackupMark).live[t], Next(s, BackupMark).bits[f], s.Pauses(t)) == Pass
  {
    assert s.backup.stage.file !in s.backup.done;
  }

  /** `t` is on the unread side and `f` has been read, in the polarity where a clear bit means "read". */
  ghost predicate Futile(s: State, t: TxnId, f: File) {
    && s.backup.Active? && !s.backup.mark && f in s.backup.done && f in s.bits
    && t in s.live && t != BACKUP_TXN && s.live[t].held != [] && s.live[t].side
  }

  lemma FutileStep(s: State, a: Action, t: TxnId, f: File)
    requires Safe(s) && Futile(s, t, f) && Enabled(s, a)
    requires a != BackupEnd && a != Commit(t) && a != Abort(t)
    ensures Futile(Next(s, a), t, f)
  {
    KeepsFiles(s, a);
    if Actor(a) == BACKUP_TXN {
      OthersKeep(s, a, t);
      if a.Request? { RequestFrame(s, a.txn, a.file, a.mode, a.loc); }
    } else {
      UserStepFrame(s, a);
      if a.Request? { RequestFrame(s, a.txn, a.file, a.mode, a.loc); }
      if Actor(a) != t { OthersKeep(s, a, t); }
    }
  }

  /** With a clear bit meaning "read", a conflict that pauses a transaction lasts as long as the backup:
      until the backup ends or the transaction does, no retry of the request can pass the check. */
  lemma {:induction false} PausingIsFutile(s: State, actions: seq<Action>, t: TxnId, f: File)
    requires Safe(s) && Futile(s, t, f) && Run(s, actions).Reached?
    requires forall a :: a in actions ==> a != BackupEnd && a != Commit(t) && a != Abort(t)
    ensures var r := Run(s, actions).state;
            Safe(r) && Futile(r, t, f) && Check(r.live[t], r.bits[f], r.Pauses(t)) != Pass
  {
    if actions != [] {
      var front, a := actions[..|actions| - 1], actions[|actions| - 1];
      assert a in actions;
      forall b | b in front ensures b in actions {}
      PausingIsFutile(s, front, t, f);
      SafeStep(Run(s, front).state, a);
      FutileStep(Run(s, front).state, a, t, f);
    }
  }
}

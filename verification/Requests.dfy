/** What becomes of a lock request, and what its transaction can do next. */
module Requests {
  import opened Basics
  import opened Storage
  import opened Protocol
  import opened Invariants

  /** The answer to a request for `f`, where the search has returned a record of `loc` if there is one. The
      request may join other readers if it is for sharing, and if nobody waits or the backup is one of them. */
  ghost predicate Answered(s: State, r: State, t: TxnId, f: File, m: Mode, loc: TxnId)
    requires t in s.live && f in s.bits
  {
    AnsweredAs(s, r, t, f, m, Free(s, f), !Free(s, f) && loc == t, Joins(s, t, f, m, loc))
  }

  ghost predicate Free(s: State, f: File) {
    forall u, k :: u in s.live ==> Lock(f, k) !in s.live[u].held
  }

  ghost predicate Joins(s: State, t: TxnId, f: File, m: Mode, loc: TxnId) {
    && !Free(s, f) && loc != t && m == Shared
    && (forall u :: u in s.live ==> Lock(f, Exclusive) !in s.live[u].held)
    && (f !in s.waits || (0 in s.live && exists k :: Lock(f, k) in s.live[0].held))
  }

  /** A request for a file that is `free`, of which the record found is the transaction's `own`, or that `joins`
      other readers. It is checked if the file is free and a backup under way, or if it joins; the check fails if
      the transaction has records and the file's bit is not its side. */
  ghost predicate AnsweredAs(s: State, r: State, t: TxnId, f: File, m: Mode, free: bool, own: bool, joins: bool)
    requires t in s.live && f in s.bits
  {
    var x, bit, times := s.live[t], s.bits[f], if t in s.pauses then s.pauses[t] else 0;
    var checked := t != 0 && ((free && s.backup.Active?) || joins);
    var conflict := checked && x.held != [] && bit != x.side;
    var paused := conflict && x.side && times <= 5;
    var granted := (free || joins) && !conflict;
    && t in r.live && r.live == s.live[t := r.live[t]]
    && r.live[t].phase == (if paused then Retrying(f, m) else if conflict then Doomed
                           else if granted || own then Running else Waiting(f, m, false))
    && r.live[t].held == (if granted then x.held + [Lock(f, m)] else x.held)
    && r.live[t].side == (if granted && x.held == [] then bit else x.side)
    && r.live[t].shadow == x.shadow && r.live[t].ops == x.ops
    && r.waits == (if free || own || joins then s.waits
                   else s.waits[f := if f in s.waits then s.waits[f] + 1 else 1])
    && r.pauses == (if paused then s.pauses[t := times + 1]
                    else if checked && !conflict && x.held != [] then s.pauses - {t} else s.pauses)
    && r.disk == s.disk && r.bits == s.bits && r.committed == s.committed && r.finished == s.finished
  }

  lemma LockedIff(s: State, f: File)
    ensures s.IsLocked(f) <==> !Free(s, f)
    ensures s.IsExclusive(f) <==> exists u :: u in s.live && Lock(f, Exclusive) in s.live[u].held
    ensures SharedByBackup(s, f) <==> 0 in s.live && exists k :: Lock(f, k) in s.live[0].held
  {
    forall u, k | u in s.live && Lock(f, k) in s.live[u].held ensures s.live[u].Holds(f) {
      match k case Shared => case Exclusive =>
    }
  }

  lemma CheckedAnswer(s: State, t: TxnId, f: File, m: Mode, free: bool, joins: bool)
    requires t in s.live && f in s.bits && t != 0 && ((free && s.backup.Active?) || joins)
    ensures AnsweredAs(s, GrantIfSerializable(s, t, f, m), t, f, m, free, false, joins)
  {
  }

  /** The backup is not checked, nor is anybody while none is under way. */
  lemma UncheckedAnswer(s: State, t: TxnId, f: File, m: Mode, free: bool, joins: bool)
    requires t in s.live && f in s.bits && (free || joins) && (t == 0 || (s.backup.Inactive? && !joins))
    ensures AnsweredAs(s, Grant(s, t, f, m), t, f, m, free, false, joins)
  {
  }

  lemma OwnAnswer(s: State, t: TxnId, f: File, m: Mode)
    requires t in s.live && f in s.bits
    ensures AnsweredAs(s, SetPhase(s, t, Running), t, f, m, false, true, false)
  {
  }

  lemma BlockedAnswer(s: State, t: TxnId, f: File, m: Mode)
    requires t in s.live && f in s.bits
    ensures AnsweredAs(s, Block(s, t, f, m), t, f, m, false, false, false)
  {
  }

  /** How a request stands, in the terms of the protocol machine. */
  ghost predicate Stands(s: State, t: TxnId, f: File, m: Mode, loc: TxnId, free: bool, own: bool, joins: bool) {
    && free == !s.IsLocked(f) && own == (s.IsLocked(f) && loc == t)
    && joins == (s.IsLocked(f) && loc != t && !s.IsExclusive(f) && m == Shared
                 && (f !in s.waits || SharedByBackup(s, f)))
  }

  lemma LockIsAnswered(s: State, r: State, t: TxnId, f: File, m: Mode, loc: TxnId, free: bool, own: bool, joins: bool)
    requires t in s.live && f in s.bits && r == RequestLock(s, t, f, m, loc)
    requires Stands(s, t, f, m, loc, free, own, joins)
    ensures AnsweredAs(s, r, t, f, m, free, own, joins)
  {
    if free || joins {
      if t == 0 || (s.backup.Inactive? && free) {
        UncheckedAnswer(s, t, f, m, free, joins);
      } else {
        CheckedAnswer(s, t, f, m, free, joins);
      }
    } else if own {
      OwnAnswer(s, t, f, m);
    } else {
      BlockedAnswer(s, t, f, m);
    }
  }

  /** What the step does beyond the lock request is no part of the answer. */
  lemma StepAnswers(s: State, r: State, t: TxnId, f: File, m: Mode, loc: TxnId, free: bool, own: bool, joins: bool)
    requires Enabled(s, Request(t, f, m, loc)) && r == RequestLock(s, t, f, m, loc)
    requires AnsweredAs(s, r, t, f, m, free, own, joins)
    ensures AnsweredAs(s, Next(s, Request(t, f, m, loc)), t, f, m, free, own, joins)
  {
  }

  /** Every request is answered so. */
  lemma RequestIsAnswered(s: State, t: TxnId, f: File, m: Mode, loc: TxnId)
    requires Enabled(s, Request(t, f, m, loc))
    ensures Answered(s, Next(s, Request(t, f, m, loc)), t, f, m, loc)
  {
    var free, own := !s.IsLocked(f), s.IsLocked(f) && loc == t;
    var joins := s.IsLocked(f) && loc != t && !s.IsExclusive(f) && m == Shared
                 && (f !in s.waits || SharedByBackup(s, f));
    LockIsAnswered(s, RequestLock(s, t, f, m, loc), t, f, m, loc, free, own, joins);
    StepAnswers(s, RequestLock(s, t, f, m, loc), t, f, m, loc, free, own, joins);
    InTermsOfRecords(s, Next(s, Request(t, f, m, loc)), t, f, m, loc, free, own, joins);
  }

  lemma InTermsOfRecords(s: State, r: State, t: TxnId, f: File, m: Mode, loc: TxnId,
                         free: bool, own: bool, joins: bool)
    requires t in s.live && f in s.bits && Stands(s, t, f, m, loc, free, own, joins)
    requires AnsweredAs(s, r, t, f, m, free, own, joins)
    ensures Answered(s, r, t, f, m, loc)
  {
    SameStanding(s, t, f, m, loc, free, own, joins);
  }

  lemma SameStanding(s: State, t: TxnId, f: File, m: Mode, loc: TxnId, free: bool, own: bool, joins: bool)
    requires Stands(s, t, f, m, loc, free, own, joins)
    ensures Free(s, f) == free && own == (!Free(s, f) && loc == t) && Joins(s, t, f, m, loc) == joins
  {
    LockedIff(s, f);
  }

  /** A transaction that runs after its request holds the file: exclusively, if that is what it has been given. */
  lemma RunningHolds(s: State, t: TxnId, f: File, m: Mode, loc: TxnId)
    requires Enabled(s, Request(t, f, m, loc))
    ensures var r := Next(s, Request(t, f, m, loc));
            && t in r.live
            && (r.live[t].phase == Running ==> exists k :: Lock(f, k) in r.live[t].held)
            && (r.live[t].phase == Running && r.live[t].held != s.live[t].held ==> Lock(f, m) in r.live[t].held)
            && (r.live[t].phase != Running ==> r.live[t].held == s.live[t].held)
  {
    RequestIsAnswered(s, t, f, m, loc);
    LockedIff(s, f);
    RunningHasGot(s, Next(s, Request(t, f, m, loc)), t, f, m, loc);
  }

  lemma RunningHasGot(s: State, r: State, t: TxnId, f: File, m: Mode, loc: TxnId)
    requires t in s.live && f in s.bits && Answered(s, r, t, f, m, loc)
    requires !Free(s, f) ==> loc in s.live && exists k :: Lock(f, k) in s.live[loc].held
    ensures t in r.live
    ensures r.live[t].phase == Running ==> exists k :: Lock(f, k) in r.live[t].held
    ensures r.live[t].phase == Running && r.live[t].held != s.live[t].held ==> Lock(f, m) in r.live[t].held
    ensures r.live[t].phase != Running ==> r.live[t].held == s.live[t].held
  {
  }

  /** The last request of `t` in a run. */
  function LastRequest(actions: seq<Action>, t: TxnId): Option<(File, Mode)> {
    if actions == [] then None
    else
      var a := actions[|actions| - 1];
      if a.Request? && a.txn == t then Some((a.file, a.mode)) else LastRequest(actions[..|actions| - 1], t)
  }

  /** The phase is that of a transaction whose request has not been answered for good. */
  ghost predicate Asking(p: Phase, asked: Option<(File, Mode)>) {
    p.Waiting? || p.Retrying? ==> asked == Some((p.file, p.mode))
  }

  ghost predicate AllAsking(s: State, actions: seq<Action>) {
    forall t :: t in s.live ==> Asking(s.live[t].phase, LastRequest(actions, t))
  }

  /** A step other than a request leaves nobody waiting or retrying for anything new. */
  lemma StillAsking(s: State, a: Action, u: TxnId, asked: Option<(File, Mode)>)
    requires Enabled(s, a) && !a.Request? && u in Next(s, a).live
    requires u in s.live ==> Asking(s.live[u].phase, asked)
    ensures Asking(Next(s, a).live[u].phase, asked)
  {
  }

  lemma RequestAsks(s: State, t: TxnId, f: File, m: Mode, loc: TxnId, u: TxnId)
    requires Enabled(s, Request(t, f, m, loc)) && u in Next(s, Request(t, f, m, loc)).live
    ensures u != t ==> u in s.live && Next(s, Request(t, f, m, loc)).live[u] == s.live[u]
    ensures u == t ==> Asking(Next(s, Request(t, f, m, loc)).live[u].phase, Some((f, m)))
  {
    RequestIsAnswered(s, t, f, m, loc);
  }

  /** A transaction that sleeps, has been woken or was paused has not forgotten its own last request: that is what
      it waits for, and no other can be its next one. */
  lemma {:induction false} AsksAgain(s0: State, actions: seq<Action>)
    requires IsInitial(s0) && Run(s0, actions).Reached?
    ensures var s := Run(s0, actions).state;
            && AllAsking(s, actions)
            && forall t, f, m :: MayRequest(s, t, f, m) && s.live[t].phase != Running ==>
                                   LastRequest(actions, t) == Some((f, m))
  {
    if actions != [] {
      var front, a := actions[..|actions| - 1], actions[|actions| - 1];
      AsksAgain(s0, front);
      var s, r := Run(s0, front).state, Run(s0, actions).state;
      forall u | u in r.live ensures Asking(r.live[u].phase, LastRequest(actions, u)) {
        if a.Request? {
          RequestAsks(s, a.txn, a.file, a.mode, a.loc, u);
        } else {
          StillAsking(s, a, u, LastRequest(front, u));
        }
      }
    }
  }

  /** A doomed transaction can do nothing but abort, and it can. */
  lemma DoomedAborts(s: State, a: Action, t: TxnId)
    requires t in s.live && t != 0 && s.live[t].phase == Doomed
    ensures Enabled(s, Abort(t))
    ensures Enabled(s, a) && Actor(a) == t ==> a == Abort(t)
  {
  }

  /** So it gets no further lock and never commits: until it aborts it stays as it is. */
  lemma {:induction false} DoomedUntilAbort(s: State, actions: seq<Action>, t: TxnId)
    requires t in s.live && t != 0 && s.live[t].phase == Doomed
    requires Run(s, actions).Reached? && Abort(t) !in actions
    ensures var r := Run(s, actions).state;
            && t in r.live && r.live[t] == s.live[t]
            && forall a :: a in actions ==> Actor(a) != t
  {
    if actions != [] {
      var front, a := actions[..|actions| - 1], actions[|actions| - 1];
      assert a in actions;
      DoomedUntilAbort(s, front, t);
      var q := Run(s, front).state;
      DoomedAborts(q, a, t);
      DoomedStays(q, a, t);
    }
  }

  lemma DoomedStays(s: State, a: Action, t: TxnId)
    requires t in s.live && s.live[t].phase == Doomed && Enabled(s, a) && Actor(a) != t
    ensures t in Next(s, a).live && Next(s, a).live[t] == s.live[t]
  {
    match a
    case Request(u, f, m, loc) => RequestFrame(s, u, f, m, loc);
    case _ =>
  }

  /** The files freed by giving up `locks`. */
  lemma FreedIff(s: State, t: TxnId, locks: seq<Lock>, f: File)
    ensures f in Freed(s, t, locks) <==>
            && f in s.waits && (exists k :: Lock(f, k) in locks)
            && (Lock(f, Exclusive) in locks || forall w, k :: w in s.live && w != t ==> Lock(f, k) !in s.live[w].held)
  {
    assert s.HeldByOther(t, f) <==> exists w, k :: w in s.live && w != t && Lock(f, k) in s.live[w].held by {
      forall w, k | w in s.live && w != t && Lock(f, k) in s.live[w].held ensures s.live[w].Holds(f) {
        match k case Shared => case Exclusive =>
      }
    }
    forall l | l in locks && l.file == f ensures Lock(f, l.mode) in locks {
      assert l == Lock(f, l.mode);
    }
    if k :| Lock(f, k) in locks {
      assert Lock(f, k).file == f;
    }
  }

  /** Ending a transaction signals exactly the sleepers of those of its files of which nobody else has a record,
      or which it has locked exclusively. */
  lemma ReleaseSignals(s: State, t: TxnId, u: TxnId)
    requires t in s.live && u in s.live && u != t
    ensures t !in Release(s, t).live && u in Release(s, t).live
    ensures var x, y := s.live[u], Release(s, t).live[u];
            if !x.phase.Waiting? then y == x
            else
              var f := x.phase.file;
              var frees := f in s.waits && (exists k :: Lock(f, k) in s.live[t].held)
                           && (Lock(f, Exclusive) in s.live[t].held
                               || forall w, k :: w in s.live && w != t ==> Lock(f, k) !in s.live[w].held);
              y == x.(phase := Waiting(f, x.phase.mode, x.phase.signalled || frees))
  {
    if s.live[u].phase.Waiting? { FreedIff(s, t, s.live[t].held, s.live[u].phase.file); }
  }

  /** The backup's release of a file takes its record and signals the sleepers of that file, and nobody else. */
  lemma BackupReleaseSignals(s: State, u: TxnId)
    requires Safe(s) && Enabled(s, BackupRelease) && u in s.live
    ensures var f, x, r := s.backup.stage.file, s.live[u], Next(s, BackupRelease);
            && u in r.live && r.live[0].held == [] && r.waits == s.waits && r.disk == s.disk && r.bits == s.bits
            && (u != 0 && x.phase.Waiting? && x.phase.file == f && f in s.waits ==>
                  r.live[u] == x.(phase := Waiting(f, x.phase.mode, true)))
            && (u != 0 && !(x.phase.Waiting? && x.phase.file == f && f in s.waits) ==> r.live[u] == x)
  {
    var f := s.backup.stage.file;
    var locks := [Lock(f, Exclusive)];
    assert s.live[0].held == locks && locks[0] in locks;
    if s.live[u].phase.Waiting? { FreedIff(s, 0, locks, s.live[u].phase.file); }
  }

  /** Waiting and retrying transactions ask for files that exist. */
  ghost predicate AskForFiles(s: State) {
    forall t :: t in s.live && (s.live[t].phase.Waiting? || s.live[t].phase.Retrying?) ==>
                  s.live[t].phase.file in s.disk
  }

  lemma StepAsksForFiles(s: State, a: Action, u: TxnId)
    requires Safe(s) && AskForFiles(s) && Enabled(s, a) && u in Next(s, a).live
    ensures var p := Next(s, a).live[u].phase; p.Waiting? || p.Retrying? ==> p.file in Next(s, a).disk
  {
    KeepsFiles(s, a);
    if a.Request? {
      RequestAsks(s, a.txn, a.file, a.mode, a.loc, u);
    } else if u in s.live {
      var p := s.live[u].phase;
      StillAsking(s, a, u, if p.Waiting? || p.Retrying? then Some((p.file, p.mode)) else None);
    } else {
      StillAsking(s, a, u, None);
    }
  }

  lemma {:induction false} RunAsksForFiles(s0: State, actions: seq<Action>)
    requires IsInitial(s0) && Run(s0, actions).Reached?
    ensures Safe(Run(s0, actions).state) && AskForFiles(Run(s0, actions).state)
  {
    SafeInitially(s0);
    SafeRun(s0, actions);
    if actions != [] {
      var front, a := actions[..|actions| - 1], actions[|actions| - 1];
      RunAsksForFiles(s0, front);
      forall u | u in Run(s0, actions).state.live
        ensures var p := Run(s0, actions).state.live[u].phase;
                p.Waiting? || p.Retrying? ==> p.file in Run(s0, actions).state.disk
      {
        StepAsksForFiles(Run(s0, front).state, a, u);
      }
    }
  }

  /** No live user transaction is without a next step, but a sleeper that has not been signalled; and that one can
      still be picked to abort. */
  lemma CanGoOn(s0: State, actions: seq<Action>, t: TxnId)
    requires IsInitial(s0) && Run(s0, actions).Reached? && t in Run(s0, actions).state.live && t != 0
    ensures var s := Run(s0, actions).state;
            match s.live[t].phase
            case Running => Enabled(s, Commit(t)) && Enabled(s, Abort(t))
            case Retrying(f, m) => exists loc :: Enabled(s, Request(t, f, m, loc))
            case Waiting(f, m, signalled) => Enabled(s, Victim(t)) && (signalled ==> Enabled(s, WakeUp(t)))
            case Doomed => Enabled(s, Abort(t))
  {
    RunAsksForFiles(s0, actions);
    var s := Run(s0, actions).state;
    match s.live[t].phase
    case Retrying(f, m) =>
      assert f in s.bits;
      var loc := if u :| u in s.live && s.live[u].Holds(f) then u else t;
      assert Enabled(s, Request(t, f, m, loc));
    case _ =>
  }

  /** What a picked or a woken sleeper does next: the first one aborts, the other one asks again. */
  lemma SleeperLeaves(s: State, t: TxnId)
    requires t in s.live && s.live[t].phase.Waiting?
    ensures t != 0 ==> Enabled(s, Victim(t)) && Next(s, Victim(t)).live == s.live[t := s.live[t].(phase := Doomed)]
    ensures var p := s.live[t].phase;
            p.signalled ==>
              && Enabled(s, WakeUp(t))
              && Next(s, WakeUp(t)).live == s.live[t := s.live[t].(phase := Retrying(p.file, p.mode))]
  {
  }
}

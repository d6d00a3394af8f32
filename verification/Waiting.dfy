/** Wait nodes count their sleepers exactly, and no wakeup is lost. */
module Waiting {
  import opened Storage
  import opened Protocol
  import opened Invariants

  /** The transactions asleep on the condition variable of `f`, or woken and not yet running. */
  ghost function Sleepers(live: map<TxnId, Txn>, f: File): set<TxnId> {
    set t | t in live && live[t].WaitsFor(f)
  }

  /** The node of `g` counts its sleepers. */
  ghost predicate Counted(s: State, g: File) {
    && |Sleepers(s.live, g)| == (if g in s.waits then s.waits[g] else 0)
    && (g in s.waits ==> s.waits[g] > 0)
  }

  /** A file has a wait node iff somebody sleeps on it, and `in_wait` is how many do. */
  ghost predicate CountsExact(s: State) {
    forall f :: Counted(s, f)
  }

  ghost predicate Asleep(x: Txn) {
    x.phase.Waiting? && !x.phase.signalled
  }

  /** Whoever sleeps and has not been signalled waits for a file that somebody still has locked. */
  ghost predicate NoLostWakeup(s: State) {
    forall t :: t in s.live && Asleep(s.live[t]) ==> s.IsLocked(s.live[t].phase.file)
  }

  ghost predicate WaitsSound(s: State) {
    CountsExact(s) && NoLostWakeup(s)
  }

  /** `t` sleeps in both states, on the same file, or in neither. */
  ghost predicate SleepsAlike(a: map<TxnId, Txn>, b: map<TxnId, Txn>, t: TxnId) {
    && ((t in a && a[t].phase.Waiting?) <==> (t in b && b[t].phase.Waiting?))
    && (t in a && a[t].phase.Waiting? ==> a[t].phase.file == b[t].phase.file)
  }

  lemma SameCount(s: State, r: State, f: File)
    requires Counted(s, f) && r.waits == s.waits && forall t :: SleepsAlike(s.live, r.live, t)
    ensures Counted(r, f)
  {
    forall t ensures t in Sleepers(r.live, f) <==> t in Sleepers(s.live, f) {
      assert SleepsAlike(s.live, r.live, t);
    }
    assert Sleepers(r.live, f) == Sleepers(s.live, f);
  }

  lemma SameSleepers(s: State, r: State)
    requires CountsExact(s) && r.waits == s.waits
    requires forall t :: SleepsAlike(s.live, r.live, t)
    ensures CountsExact(r)
  {
    forall f ensures Counted(r, f) {
      assert Counted(s, f);
      SameCount(s, r, f);
    }
  }

  lemma BlockCounted(s: State, t: TxnId, f: File, m: Mode, g: File)
    requires Counted(s, g) && t in s.live && !s.live[t].phase.Waiting?
    ensures Counted(Block(s, t, f, m), g)
  {
    assert t !in Sleepers(s.live, g);
    assert Sleepers(Block(s, t, f, m).live, g) == Sleepers(s.live, g) + (if g == f then {t} else {});
  }

  lemma BlockCounts(s: State, t: TxnId, f: File, m: Mode)
    requires CountsExact(s) && t in s.live && !s.live[t].phase.Waiting?
    ensures CountsExact(Block(s, t, f, m))
  {
    forall g ensures Counted(Block(s, t, f, m), g) {
      assert Counted(s, g);
      BlockCounted(s, t, f, m, g);
    }
  }

  lemma LeaveCounted(s: State, r: State, t: TxnId, phase: Phase, g: File)
    requires Counted(s, g) && t in s.live && s.live[t].phase.Waiting? && !phase.Waiting?
    requires r == SetPhase(s, t, phase).(waits := LeaveWaitNode(s.waits, s.live[t].phase.file))
    ensures Counted(r, g)
  {
    assert t in Sleepers(s.live, g) <==> s.live[t].phase.file == g;
    assert Sleepers(r.live, g) == Sleepers(s.live, g) - {t};
  }

  /** A sleeper that leaves the wait node, to try again or to abort. */
  lemma LeaveCounts(s: State, t: TxnId, phase: Phase)
    requires CountsExact(s) && t in s.live && s.live[t].phase.Waiting? && !phase.Waiting?
    ensures CountsExact(SetPhase(s, t, phase).(waits := LeaveWaitNode(s.waits, s.live[t].phase.file)))
  {
    var r := SetPhase(s, t, phase).(waits := LeaveWaitNode(s.waits, s.live[t].phase.file));
    forall g ensures Counted(r, g) {
      assert Counted(s, g);
      LeaveCounted(s, r, t, phase, g);
    }
  }

  /** A request either leaves its transaction awake, or the file is locked and it goes to sleep there. */
  ghost predicate SleepsIfLocked(s: State, r: State, t: TxnId, f: File, m: Mode)
    requires t in s.live
  {
    && t in r.live
    && (r.live[t].phase.Waiting? ==> s.IsLocked(f) && r == Block(s, t, f, m))
    && (!r.live[t].phase.Waiting? ==> r.waits == s.waits)
  }

  lemma CheckedIsAwake(s: State, t: TxnId, f: File, m: Mode)
    requires t in s.live && f in s.bits
    ensures SleepsIfLocked(s, GrantIfSerializable(s, t, f, m), t, f, m)
  {
  }

  lemma RequestSleeps(s: State, t: TxnId, f: File, m: Mode, loc: TxnId)
    requires t in s.live && f in s.bits
    ensures SleepsIfLocked(s, RequestLock(s, t, f, m, loc), t, f, m)
  {
    CheckedIsAwake(s, t, f, m);
    assert SleepsIfLocked(s, Grant(s, t, f, m), t, f, m);
    assert SleepsIfLocked(s, SetPhase(s, t, Running), t, f, m);
    assert s.IsLocked(f) ==> SleepsIfLocked(s, Block(s, t, f, m), t, f, m);
  }

  lemma RequestCounts(s: State, t: TxnId, f: File, m: Mode, loc: TxnId)
    requires CountsExact(s) && Enabled(s, Request(t, f, m, loc))
    ensures CountsExact(RequestLock(s, t, f, m, loc))
  {
    RequestFrame(s, t, f, m, loc);
    RequestSleeps(s, t, f, m, loc);
    CountedAfter(s, RequestLock(s, t, f, m, loc), t, f, m);
  }

  lemma CountedAfter(s: State, r: State, t: TxnId, f: File, m: Mode)
    requires CountsExact(s) && t in s.live && !s.live[t].phase.Waiting? && f in s.bits
    requires Requested(s, r, t, f, m) && SleepsIfLocked(s, r, t, f, m)
    ensures CountsExact(r)
  {
    if r.live[t].phase.Waiting? {
      BlockCounts(s, t, f, m);
    } else {
      SameSleepers(s, r);
    }
  }

  /** Every other step keeps everybody asleep where they are; it can only raise signals. */
  lemma OtherSleepersKept(s: State, a: Action, t: TxnId)
    requires Safe(s) && Enabled(s, a) && !a.Request? && !a.WakeUp? && !a.Victim?
    ensures SleepsAlike(s.live, Next(s, a).live, t)
  {
    match a
    case Commit(u) => SignalKeepsSleep(s.live - {u}, Freed(s, u, s.live[u].held), t);
    case Abort(u) => SignalKeepsSleep(s.live - {u}, Freed(s, u, s.live[u].held), t);
    case BackupRelease => BackupReleaseSleeps(s, t);
    case _ =>
  }

  lemma BackupReleaseSleeps(s: State, t: TxnId)
    requires Enabled(s, BackupRelease)
    ensures SleepsAlike(s.live, Next(s, BackupRelease).live, t)
  {
  }

  lemma SignalKeepsSleep(live: map<TxnId, Txn>, fs: set<File>, t: TxnId)
    ensures SleepsAlike(live, Signal(live, fs), t)
  {
  }

  lemma RequestStepCounts(s: State, t: TxnId, f: File, m: Mode, loc: TxnId)
    requires CountsExact(s) && Enabled(s, Request(t, f, m, loc))
    ensures CountsExact(Next(s, Request(t, f, m, loc)))
  {
    RequestCounts(s, t, f, m, loc);
    SameSleepers(RequestLock(s, t, f, m, loc), Next(s, Request(t, f, m, loc)));
  }

  lemma OtherStepCounts(s: State, a: Action, r: State)
    requires Safe(s) && CountsExact(s) && Enabled(s, a) && !a.Request? && !a.WakeUp? && !a.Victim?
    requires r == Next(s, a)
    ensures CountsExact(r)
  {
    assert r.waits == s.waits;
    forall t ensures SleepsAlike(s.live, r.live, t) {
      OtherSleepersKept(s, a, t);
    }
    SameSleepers(s, r);
  }

  lemma CountsStep(s: State, a: Action)
    requires Safe(s) && CountsExact(s) && Enabled(s, a)
    ensures CountsExact(Next(s, a))
  {
    match a
    case Request(t, f, m, loc) => RequestStepCounts(s, t, f, m, loc);
    case WakeUp(t) => LeaveCounts(s, t, Retrying(s.live[t].phase.file, s.live[t].phase.mode));
    case Victim(t) => LeaveCounts(s, t, Doomed);
    case _ => OtherStepCounts(s, a, Next(s, a));
  }

  /** Somebody sleeps on `f`, so it has a wait node. */
  lemma SleeperHasNode(s: State, t: TxnId)
    requires CountsExact(s) && t in s.live && s.live[t].phase.Waiting?
    ensures s.live[t].phase.file in s.waits
  {
    assert Counted(s, s.live[t].phase.file) && t in Sleepers(s.live, s.live[t].phase.file);
  }

  /** Ending a transaction either leaves another record of the file in place or signals its sleepers. */
  lemma ReleaseWakes(s: State, t: TxnId, u: TxnId)
    requires CountsExact(s) && NoLostWakeup(s) && t in s.live && u in s.live && u != t
    requires Asleep(Release(s, t).live[u])
    ensures Release(s, t).IsLocked(s.live[u].phase.file)
  {
    var f := s.live[u].phase.file;
    assert Asleep(s.live[u]);
    SleeperHasNode(s, u);
    var w :| w in s.live && s.live[w].Holds(f);
    if s.live[t].Holds(f) {
      var l := if Lock(f, Exclusive) in s.live[t].held then Lock(f, Exclusive) else Lock(f, Shared);
      assert l in s.live[t].held;
      assert f !in Freed(s, t, s.live[t].held);
      assert s.HeldByOther(t, f);
      w :| w in s.live && w != t && s.live[w].Holds(f);
    }
    assert Release(s, t).live[w].Holds(f);
  }

  lemma BackupReleaseWakes(s: State, u: TxnId)
    requires Safe(s) && CountsExact(s) && NoLostWakeup(s) && Enabled(s, BackupRelease)
    requires u in s.live && Asleep(Next(s, BackupRelease).live[u])
    ensures Next(s, BackupRelease).IsLocked(s.live[u].phase.file)
  {
    var r, f := Next(s, BackupRelease), s.live[u].phase.file;
    assert Asleep(s.live[u]);
    SleeperHasNode(s, u);
    var w :| w in s.live && s.live[w].Holds(f);
    var locks := [Lock(s.backup.stage.file, Exclusive)];
    assert s.live[BACKUP_TXN].held == locks;
    assert locks[0] in locks;
    assert s.backup.stage.file in s.waits ==> s.backup.stage.file in Freed(s, BACKUP_TXN, locks);
    assert f != s.backup.stage.file;
    assert w != BACKUP_TXN;
    OthersKeep(s, BackupRelease, w);
    assert r.live[w].Holds(f);
  }

  /** Only the actor's own node can lose a record. */
  lemma StillLocked(s: State, a: Action, f: File)
    requires Safe(s) && Enabled(s, a) && s.IsLocked(f)
    requires !a.Commit? && !a.Abort? && !a.BackupRelease?
    ensures Next(s, a).IsLocked(f)
  {
    var w :| w in s.live && s.live[w].Holds(f);
    if w != Actor(a) {
      OthersKeep(s, a, w);
    } else if a.Request? {
      RequestFrame(s, a.txn, a.file, a.mode, a.loc);
    }
    assert Next(s, a).live[w].Holds(f);
  }

  lemma AsleepAfterRequest(s: State, r: State, t: TxnId, f: File, m: Mode, u: TxnId)
    requires NoLostWakeup(s) && t in s.live && f in s.bits && Requested(s, r, t, f, m)
    requires u in r.live && Asleep(r.live[u]) && SleepsIfLocked(s, r, t, f, m)
    ensures s.IsLocked(r.live[u].phase.file)
  {
    if u != t { assert r.live[u] == s.live[u]; }
  }

  lemma AsleepAfterRequestStep(s: State, a: Action, u: TxnId)
    requires Safe(s) && WaitsSound(s) && Enabled(s, a) && a.Request?
    requires u in Next(s, a).live && Asleep(Next(s, a).live[u])
    ensures Next(s, a).IsLocked(Next(s, a).live[u].phase.file)
  {
    var r := RequestLock(s, a.txn, a.file, a.mode, a.loc);
    RequestFrame(s, a.txn, a.file, a.mode, a.loc);
    RequestSleeps(s, a.txn, a.file, a.mode, a.loc);
    AsleepAfterRequest(s, r, a.txn, a.file, a.mode, u);
    StillLocked(s, a, r.live[u].phase.file);
  }

  lemma AsleepAfterRelease(s: State, a: Action, u: TxnId)
    requires Safe(s) && WaitsSound(s) && Enabled(s, a) && (a.Commit? || a.Abort?)
    requires u in Next(s, a).live && Asleep(Next(s, a).live[u])
    ensures Next(s, a).IsLocked(Next(s, a).live[u].phase.file)
  {
    ReleaseWakes(s, a.txn, u);
    IgnoresDisk(Release(s, a.txn), Next(s, a), s.live[u].phase.file);
  }

  lemma AsleepAfter(s: State, a: Action, u: TxnId)
    requires Safe(s) && WaitsSound(s) && Enabled(s, a)
    ensures u in Next(s, a).live && Asleep(Next(s, a).live[u]) ==>
              Next(s, a).IsLocked(Next(s, a).live[u].phase.file)
  {
    if u in Next(s, a).live && Asleep(Next(s, a).live[u]) {
      if a.Request? {
        AsleepAfterRequestStep(s, a, u);
      } else if a.Commit? || a.Abort? {
        AsleepAfterRelease(s, a, u);
      } else if a.BackupRelease? {
        BackupReleaseWakes(s, u);
      } else {
        PhaseKept(s, a, u);
        StillLocked(s, a, s.live[u].phase.file);
      }
    }
  }

  lemma PhaseKept(s: State, a: Action, u: TxnId)
    requires Safe(s) && Enabled(s, a) && u in Next(s, a).live && Asleep(Next(s, a).live[u])
    requires !a.Request? && !a.Commit? && !a.Abort? && !a.BackupRelease?
    ensures u in s.live && s.live[u].phase == Next(s, a).live[u].phase
  {
  }

  lemma IgnoresDisk(s: State, r: State, f: File)
    requires s.live == r.live && s.IsLocked(f)
    ensures r.IsLocked(f)
  {
    var w :| w in s.live && s.live[w].Holds(f);
    assert r.live[w].Holds(f);
  }

  lemma WaitsStep(s: State, a: Action)
    requires Safe(s) && WaitsSound(s) && Enabled(s, a)
    ensures WaitsSound(Next(s, a))
  {
    CountsStep(s, a);
    forall u | u in Next(s, a).live && Asleep(Next(s, a).live[u])
      ensures Next(s, a).IsLocked(Next(s, a).live[u].phase.file)
    {
      AsleepAfter(s, a, u);
    }
  }

  /** In every run: exact counts, a wait node iff there are sleepers, and no lost wakeup. */
  lemma {:induction false} WaitsAreSound(s: State, actions: seq<Action>)
    requires IsInitial(s) && Run(s, actions).Reached?
    ensures WaitsSound(Run(s, actions).state)
  {
    SafeInitially(s);
    if actions == [] {
      forall f ensures Sleepers(s.live, f) == {} {}
    } else {
      var front := actions[..|actions| - 1];
      WaitsAreSound(s, front);
      SafeRun(s, front);
      WaitsStep(Run(s, front).state, actions[|actions| - 1]);
    }
  }

  /** `t` sleeps for a file on which it is itself the only one to have a record. */
  ghost predicate Stuck(s: State, t: TxnId, f: File) {
    && t in s.live && t != BACKUP_TXN
    && Asleep(s.live[t]) && s.live[t].phase.file == f && s.live[t].Holds(f)
    && forall u :: u in s.live && u != t ==> !s.live[u].Holds(f)
  }

  /** When the last other holder of `f` goes, a sleeper is woken if and only if it has no record for `f`
      itself: the release looks only for some remaining record, not for whose it is. */
  lemma WokenIffNotHolder(s: State, u: TxnId, t: TxnId, f: File)
    requires Safe(s) && WaitsSound(s) && u in s.live && t in s.live && t != u
    requires Asleep(s.live[t]) && s.live[t].phase.file == f && s.live[u].Holds(f)
    requires forall w :: w in s.live && w != t && w != u ==> !s.live[w].Holds(f)
    ensures Asleep(Release(s, u).live[t]) <==> s.live[t].Holds(f)
    ensures Stuck(Release(s, u), t, f) <==> s.live[t].Holds(f) && t != BACKUP_TXN
  {
    SleeperHasNode(s, t);
    SignalKeeps(s.live - {u}, Freed(s, u, s.live[u].held));
    if s.live[t].Holds(f) {
      assert s.HeldByOther(u, f);
      assert Lock(f, Exclusive) !in s.live[u].held;
      assert f !in Freed(s, u, s.live[u].held);
    } else {
      var l := if Lock(f, Exclusive) in s.live[u].held then Lock(f, Exclusive) else Lock(f, Shared);
      assert l in s.live[u].held;
      assert f in Freed(s, u, s.live[u].held);
    }
  }

  /** A request for the stuck file blocks, and one for another file does not touch its records. */
  lemma StuckRequest(s: State, u: TxnId, g: File, m: Mode, loc: TxnId, t: TxnId, f: File)
    requires Safe(s) && WaitsSound(s) && Stuck(s, t, f) && Enabled(s, Request(u, g, m, loc))
    ensures Stuck(RequestLock(s, u, g, m, loc), t, f)
  {
    var r := RequestLock(s, u, g, m, loc);
    SleeperHasNode(s, t);
    RequestFrame(s, u, g, m, loc);
    assert u != t && r.live[t] == s.live[t];
    if g == f {
      assert s.IsLocked(f) && loc == t;
      assert r.live[u].held == s.live[u].held;
    }
  }

  lemma StuckStep(s: State, a: Action, t: TxnId, f: File)
    requires Safe(s) && WaitsSound(s) && Stuck(s, t, f) && Enabled(s, a) && a != Victim(t)
    ensures Stuck(Next(s, a), t, f)
  {
    if a.Request? {
      StuckRequest(s, a.txn, a.file, a.mode, a.loc, t, f);
    } else {
      assert Actor(a) != t;
      StaysAsleep(s, a, t, f);
      forall u | u in Next(s, a).live && u != t ensures !Next(s, a).live[u].Holds(f) {
        ChainKeptOrEmptied(s, a, u);
      }
    }
  }

  lemma StaysAsleep(s: State, a: Action, t: TxnId, f: File)
    requires Safe(s) && Stuck(s, t, f) && Enabled(s, a) && !a.Request? && Actor(a) != t
    ensures t in Next(s, a).live && Next(s, a).live[t] == s.live[t]
  {
    match a
    case Commit(u) => assert !s.live[u].Holds(f); NotFreed(s, u, s.live[u].held, f);
    case Abort(u) => assert !s.live[u].Holds(f); NotFreed(s, u, s.live[u].held, f);
    case BackupRelease =>
      assert !s.live[BACKUP_TXN].Holds(f);
      assert s.live[BACKUP_TXN].held[0] in s.live[BACKUP_TXN].held;
      NotFreed(s, BACKUP_TXN, [Lock(s.backup.stage.file, Exclusive)], f);
    case _ =>
  }

  lemma NotFreed(s: State, u: TxnId, locks: seq<Lock>, f: File)
    requires Lock(f, Shared) !in locks && Lock(f, Exclusive) !in locks
    ensures f !in Freed(s, u, locks)
  {
    forall l | l in locks ensures l.file != f {
      assert l == Lock(l.file, l.mode);
      match l.mode case Shared => case Exclusive =>
    }
  }

  /** A stuck transaction stays stuck in every continuation in which the deadlock detector does not pick it:
      no other thread ever signals it. */
  lemma {:induction false} StuckForever(s: State, actions: seq<Action>, t: TxnId, f: File)
    requires Safe(s) && WaitsSound(s) && Stuck(s, t, f) && Run(s, actions).Reached?
    requires Victim(t) !in actions
    ensures Safe(Run(s, actions).state) && WaitsSound(Run(s, actions).state)
    ensures Stuck(Run(s, actions).state, t, f)
  {
    if actions != [] {
      var front, a := actions[..|actions| - 1], actions[|actions| - 1];
      StuckForever(s, front, t, f);
      var r := Run(s, front).state;
      SafeStep(r, a);
      WaitsStep(r, a);
      StuckStep(r, a, t, f);
    }
  }

  /** A reader of `f` that has done nothing else. */
  function Reader(side: bool, f: File): Txn {
    Txn(side, [Lock(f, Shared)], Running, map[], [])
  }

  /** A request to share a file that is free or already shared, with no backup running. */
  lemma Shares(s: State, t: TxnId, f: File, loc: TxnId)
    requires s.backup.Inactive? && f in s.disk && f in s.bits && f in s.walked && f !in s.waits && !s.IsExclusive(f)
    requires t in s.live && t != BACKUP_TXN && s.live[t] == Txn(false, [], Running, map[], [])
    requires s.IsLocked(f) ==> loc != t && loc in s.live && s.live[loc].Holds(f)
    ensures Enabled(s, Request(t, f, Shared, loc))
    ensures Next(s, Request(t, f, Shared, loc)) == s.(live := s.live[t := Reader(s.bits[f], f)])
  {
    var r := s.(live := s.live[t := Reader(s.bits[f], f)]);
    assert [] + [Lock(f, Shared)] == [Lock(f, Shared)];
    assert Grant(s, t, f, Shared) == r;
    assert GrantIfSerializable(s, t, f, Shared) == r;
    assert RequestLock(s, t, f, Shared, loc) == r && r.strayed == s.strayed;
  }

  lemma TwoBegin(s: State)
    requires s.live == map[]
    ensures var idle := Txn(false, [], Running, map[], []);
            Run(s, [Begin(1), Begin(2)]) == Reached(s.(live := map[1 := idle, 2 := idle]))
  {
    assert Run(s, []) == Reached(s);
    RunOneMore(s, [], Begin(1));
    RunOneMore(s, [Begin(1)], Begin(2));
    assert [] + [Begin(1)] == [Begin(1)] && [Begin(1)] + [Begin(2)] == [Begin(1), Begin(2)];
  }

  lemma TwoReaders(root: File, disk: Disk, walked: set<File>, bit: bool, f: File)
    requires f in disk && f in walked
    ensures var o := Run(Initial(root, disk, walked, bit),
                         [Begin(1), Begin(2), Request(1, f, Shared, 1), Request(2, f, Shared, 1)]);
            o == Reached(Initial(root, disk, walked, bit).(live := map[1 := Reader(bit, f), 2 := Reader(bit, f)]))
  {
    var s0, idle := Initial(root, disk, walked, bit), Txn(false, [], Running, map[], []);
    var s2 := s0.(live := map[1 := idle, 2 := idle]);
    var s3 := s0.(live := map[1 := Reader(bit, f), 2 := idle]);
    var begun, a, b := [Begin(1), Begin(2)], Request(1, f, Shared, 1), Request(2, f, Shared, 1);
    TwoBegin(s0);
    Shares(s2, 1, f, 1);
    RunOneMore(s0, begun, a);
    assert s2.live[1 := Reader(bit, f)] == s3.live;
    assert s3.live[1].Holds(f);
    Shares(s3, 2, f, 1);
    RunOneMore(s0, begun + [a], b);
    assert s3.live[2 := Reader(bit, f)] == map[1 := Reader(bit, f), 2 := Reader(bit, f)];
    assert begun + [a] + [b] == [Begin(1), Begin(2), a, b];
  }

  lemma UpgradeBlocks(s: State, f: File, bit: bool)
    requires f in s.disk && f in s.bits && f in s.walked
    requires s.live == map[1 := Reader(bit, f), 2 := Reader(bit, f)]
    ensures Enabled(s, Request(1, f, Exclusive, 2))
    ensures Next(s, Request(1, f, Exclusive, 2)) == Block(s, 1, f, Exclusive)
  {
    assert s.live[2].Holds(f) && !s.IsExclusive(f);
  }

  /** Two readers of one file, the first of which then asks to write it: the search returns the record of the
      second. Once that one has committed, the upgrade sleeps on its own lock. */
  lemma UpgradeGetsStuck(root: File, disk: Disk, walked: set<File>, bit: bool, f: File)
    requires walked <= disk.Keys && f in walked
    ensures var readers := [Begin(1), Begin(2), Request(1, f, Shared, 1), Request(2, f, Shared, 1)];
            var o := Run(Initial(root, disk, walked, bit), readers + [Request(1, f, Exclusive, 2)] + [Commit(2)]);
            o.Reached? && Stuck(o.state, 1, f)
  {
    TwoReaders(root, disk, walked, bit, f);
    var s0 := Initial(root, disk, walked, bit);
    var readers := [Begin(1), Begin(2), Request(1, f, Shared, 1), Request(2, f, Shared, 1)];
    var s4 := s0.(live := map[1 := Reader(bit, f), 2 := Reader(bit, f)]);
    var upgrade := Request(1, f, Exclusive, 2);
    UpgradeBlocks(s4, f, bit);
    RunOneMore(s0, readers, upgrade);
    var s5 := Block(s4, 1, f, Exclusive);
    LeavesStuck(s5, f, bit);
    RunOneMore(s0, readers + [upgrade], Commit(2));
  }

  lemma LeavesStuck(s: State, f: File, bit: bool)
    requires s.live.Keys == {1, 2} && s.live[2] == Reader(bit, f)
    requires s.live[1] == Reader(bit, f).(phase := Waiting(f, Exclusive, false))
    ensures Enabled(s, Commit(2)) && Stuck(Next(s, Commit(2)), 1, f)
  {
    assert s.live[1].Holds(f) && s.HeldByOther(2, f);
    assert f !in Freed(s, 2, s.live[2].held);
  }
}

/** Strict two-phase locking: every run is equivalent to running the committed transactions one
    after the other, in the order in which they committed. */
module Serializability {
  import opened Basics
  import opened Storage
  import opened Protocol
  import opened Invariants

  /** So far the transaction has read and written exactly what it would have if it had run alone on
      the present disk; its private files are the ones it would have changed. */
  ghost predicate Isolated(d: Disk, x: Txn) {
    Faithful(d, x.ops) && Effect(d, x.ops) == d + x.shadow
  }

  ghost predicate Serializable(initial: Disk, s: State) {
    && SerialFaithful(initial, s.committed)
    && Serial(initial, s.committed) == s.disk
    && forall t :: t in s.live ==> Isolated(s.disk, s.live[t])
  }

  lemma ReadStaysIsolated(d: Disk, x: Txn, f: File, pos: nat, len: nat)
    requires Isolated(d, x) && f in d
    ensures Isolated(d, x.(ops := x.ops + [Read(f, pos, len, Slice(x.View(d, f), pos, len))]))
  {
    var op := Read(f, pos, len, Slice(x.View(d, f), pos, len));
    assert (x.ops + [op])[..|x.ops|] == x.ops;
    EffectKeys(d, x.ops);
    assert Effect(d, x.ops)[f] == x.View(d, f);
  }

  lemma WriteStaysIsolated(d: Disk, x: Txn, f: File, pos: nat, data: Content)
    requires Isolated(d, x) && f in d
    ensures var seen := Patch(x.View(d, f), pos, data);
            Isolated(d, x.(shadow := x.shadow[f := seen], ops := x.ops + [Write(f, pos, data)]))
  {
    var op, seen := Write(f, pos, data), Patch(x.View(d, f), pos, data);
    assert (x.ops + [op])[..|x.ops|] == x.ops;
    EffectKeys(d, x.ops);
    assert Effect(d, x.ops)[f] == x.View(d, f);
    assert (d + x.shadow)[f := seen] == d + x.shadow[f := seen];
  }

  lemma IsolatedRead(s: State, t: TxnId, f: File, pos: nat, len: nat)
    requires Enabled(s, ReadAt(t, f, pos, len)) && Isolated(s.disk, s.live[t])
    ensures Isolated(s.disk, Next(s, ReadAt(t, f, pos, len)).live[t])
  {
    ReadStaysIsolated(s.disk, s.live[t], f, pos, len);
  }

  lemma IsolatedWrite(s: State, t: TxnId, f: File, pos: nat, data: Content)
    requires Enabled(s, WriteAt(t, f, pos, data)) && Isolated(s.disk, s.live[t])
    ensures Isolated(s.disk, Next(s, WriteAt(t, f, pos, data)).live[t])
  {
    WriteStaysIsolated(s.disk, s.live[t], f, pos, data);
  }

  /** The private files of one transaction are not touched by any other. */
  lemma ShadowDisjoint(s: State, t: TxnId, u: TxnId)
    requires Safe(s) && t in s.live && u in s.live && t != u
    ensures s.live[t].shadow.Keys !! Touched(s.live[u].ops)
    ensures s.live[t].shadow.Keys !! s.live[u].shadow.Keys
  {
    var x, y := s.live[t], s.live[u];
    assert Covered(s, x) && Covered(s, y);
    forall f | f in x.shadow ensures f !in Touched(y.ops) && f !in y.shadow {
      assert Lock(f, Exclusive) in x.held;
      assert Lock(f, Exclusive) !in y.held && Lock(f, Shared) !in y.held;
      assert !y.Holds(f);
    }
  }

  /** A commit of `t` changes nothing that another live transaction can see. */
  lemma IsolatedAcrossCommit(s: State, t: TxnId, u: TxnId)
    requires Safe(s) && t in s.live && u in s.live && t != u
    requires Isolated(s.disk, s.live[u])
    ensures Isolated(s.disk + s.live[t].shadow, s.live[u])
  {
    var d, x, y := s.disk, s.live[t], s.live[u];
    var e := d + x.shadow;
    ShadowDisjoint(s, t, u);
    assert Covered(s, x);
    forall f | f in x.shadow ensures f in d { assert Lock(f, Exclusive) in x.held; }
    assert e.Keys == d.Keys;
    EffectFrame(d, e, y.ops);
    EffectOutside(d, y.ops);
    EffectOutside(e, y.ops);
    forall f | f in e ensures Effect(e, y.ops)[f] == (e + y.shadow)[f] {
    }
  }

  /** A step of another transaction. */
  lemma IsolatedFromOther(s: State, a: Action, u: TxnId)
    requires Safe(s) && Enabled(s, a) && u in Next(s, a).live && u != Actor(a)
    requires forall t :: t in s.live ==> Isolated(s.disk, s.live[t])
    ensures Isolated(Next(s, a).disk, Next(s, a).live[u])
  {
    OthersKeep(s, a, u);
    if a.Commit? {
      IsolatedAcrossCommit(s, a.txn, u);
    } else {
      DiskKept(s, a);
    }
  }

  /** A step of its own. */
  lemma IsolatedOwnStep(s: State, a: Action, u: TxnId)
    requires Enabled(s, a) && u in Next(s, a).live && u == Actor(a)
    requires forall t :: t in s.live ==> Isolated(s.disk, s.live[t])
    ensures Isolated(Next(s, a).disk, Next(s, a).live[u])
  {
    assert s.disk + map[] == s.disk;
    match a
    case ReadAt(t, f, pos, len) => IsolatedRead(s, t, f, pos, len);
    case WriteAt(t, f, pos, data) => IsolatedWrite(s, t, f, pos, data);
    case Request(t, f, m, loc) => RequestFrame(s, t, f, m, loc);
    case _ => DiskKept(s, a);
  }

  lemma IsolatedAfter(s: State, a: Action, u: TxnId)
    requires Safe(s) && Enabled(s, a) && u in Next(s, a).live
    requires forall t :: t in s.live ==> Isolated(s.disk, s.live[t])
    ensures Isolated(Next(s, a).disk, Next(s, a).live[u])
  {
    if u == Actor(a) {
      IsolatedOwnStep(s, a, u);
    } else {
      IsolatedFromOther(s, a, u);
    }
  }

  /** Only a commit changes the disk or the committed history. */
  lemma DiskKept(s: State, a: Action)
    requires Enabled(s, a) && !a.Commit?
    ensures Next(s, a).disk == s.disk && Next(s, a).committed == s.committed
  {
    if a.Request? { RequestFrame(s, a.txn, a.file, a.mode, a.loc); }
  }

  lemma HistoryAfter(initial: Disk, s: State, a: Action)
    requires Safe(s) && Serializable(initial, s) && Enabled(s, a)
    ensures SerialFaithful(initial, Next(s, a).committed)
    ensures Serial(initial, Next(s, a).committed) == Next(s, a).disk
  {
    if a.Commit? {
      var x := s.live[a.txn];
      var c := Committed(a.txn, x.side, x.ops);
      assert (s.committed + [c])[..|s.committed|] == s.committed;
    } else {
      DiskKept(s, a);
    }
  }

  lemma SerializableStep(initial: Disk, s: State, a: Action)
    requires Safe(s) && Serializable(initial, s) && Enabled(s, a)
    ensures Serializable(initial, Next(s, a))
  {
    HistoryAfter(initial, s, a);
    forall u | u in Next(s, a).live ensures Isolated(Next(s, a).disk, Next(s, a).live[u]) {
      IsolatedAfter(s, a, u);
    }
  }

  /** For every interleaving of lock requests, waits, pauses, reads, writes, commits, aborts (of deadlock
      victims too) and backup steps: each read of each committed transaction returned what it would have
      returned in the serial execution in commit order, and the disk is what that serial execution leaves. */
  lemma {:induction false} StrictTwoPhaseLocking(s: State, actions: seq<Action>)
    requires IsInitial(s) && Run(s, actions).Reached?
    ensures Safe(Run(s, actions).state)
    ensures Serializable(s.disk, Run(s, actions).state)
  {
    SafeInitially(s);
    if actions != [] {
      var front := actions[..|actions| - 1];
      StrictTwoPhaseLocking(s, front);
      SafeStep(Run(s, front).state, actions[|actions| - 1]);
      SerializableStep(s.disk, Run(s, front).state, actions[|actions| - 1]);
    }
  }
}

/** The purpose of the server: a backup taken while transactions run is the state that some serial
    execution passes through, namely the one that runs the "before" transactions, then the backup,
    then the "after" transactions. */
module BackupConsistency {
  import opened Storage
  import opened Protocol
  import opened Invariants
  import opened Serializability

  /** The transactions of one side, in commit order. */
  function OnSide(cs: seq<Committed>, side: bool): seq<Committed> {
    if cs == [] then []
    else
      var front := OnSide(cs[..|cs| - 1], side);
      if cs[|cs| - 1].side == side then front + [cs[|cs| - 1]] else front
  }

  /** Everything committed before the backup started, then what committed on the unread side during it. */
  function Befores(cs: seq<Committed>, start: nat, mark: bool): seq<Committed>
    requires start <= |cs|
  {
    cs[..start] + OnSide(cs[start..], !mark)
  }

  function Afters(cs: seq<Committed>, start: nat, mark: bool): seq<Committed>
    requires start <= |cs|
  {
    OnSide(cs[start..], mark)
  }

  /** The befores followed by the afters explain all reads and lead to disk `d`; the afters are confined
      to the files already marked; and what is copied is what the befores leave. */
  ghost predicate Split(initial: Disk, before: seq<Committed>, after: seq<Committed>,
                        d: Disk, done: set<File>, image: Disk) {
    && SerialFaithful(initial, before + after)
    && Serial(initial, before + after) == d
    && TouchOnly(after, done)
    && CopyOf(image, Serial(initial, before))
  }

  /** The split holds of the running backup, if there is one. */
  ghost predicate Splits(initial: Disk, s: State) {
    s.backup.Active? && s.backup.start <= |s.committed| ==>
      Split(initial,
            Befores(s.committed, s.backup.start, s.backup.mark),
            Afters(s.committed, s.backup.start, s.backup.mark),
            s.disk, s.backup.done, s.backup.image)
  }

  ghost predicate CopyOf(image: Disk, d: Disk) {
    forall f :: f in image ==> f in d && image[f] == d[f]
  }

  lemma {:induction false} OnSideCounts(cs: seq<Committed>)
    ensures multiset(OnSide(cs, false)) + multiset(OnSide(cs, true)) == multiset(cs)
  {
    if cs != [] {
      OnSideCounts(cs[..|cs| - 1]);
      assert cs == cs[..|cs| - 1] + [cs[|cs| - 1]];
    }
  }

  lemma CommitExtends(cs: seq<Committed>, c: Committed, start: nat, mark: bool)
    requires start <= |cs|
    ensures Befores(cs + [c], start, mark) == Befores(cs, start, mark) + (if c.side != mark then [c] else [])
    ensures Afters(cs + [c], start, mark) == Afters(cs, start, mark) + (if c.side == mark then [c] else [])
  {
    assert (cs + [c])[..start] == cs[..start];
    assert (cs + [c])[start..] == cs[start..] + [c];
    assert (cs[start..] + [c])[..|cs[start..]|] == cs[start..];
  }

  /** A transaction on the read side touched only marked files; one on the unread side touched no marked
      file, nor the file the backup is working on. */
  lemma SideConfines(s: State, t: TxnId)
    requires Safe(s) && !s.strayed && s.backup.Active? && t in s.live && t != BACKUP_TXN
    ensures var x := s.live[t];
            && (x.side == s.backup.mark ==> Touched(x.ops) <= s.backup.done)
            && (x.side != s.backup.mark ==> Touched(x.ops) !! s.backup.done)
            && (s.backup.stage != Idle ==> s.backup.stage.file !in Touched(x.ops))
  {
    var x := s.live[t];
    assert Covered(s, x);
    forall op | op in x.ops
      ensures op.file in s.walked && op.file in s.bits && s.bits[op.file] == x.side
      ensures s.backup.stage != Idle ==> s.backup.stage.file != op.file
    {
      assert x.Holds(op.file);
      var l := if Lock(op.file, Shared) in x.held then Lock(op.file, Shared) else Lock(op.file, Exclusive);
      assert l in x.held;
      if s.backup.stage != Idle { MarkedIsPrivate(s, t, l); }
    }
  }

  /** A committing "after" transaction goes to the end of the order. */
  lemma AppendAfter(initial: Disk, before: seq<Committed>, after: seq<Committed>, c: Committed,
                    d: Disk, done: set<File>, image: Disk)
    requires Split(initial, before, after, d, done, image)
    requires Faithful(d, c.ops) && Touched(c.ops) <= done
    ensures Split(initial, before, after + [c], Effect(d, c.ops), done, image)
  {
    assert before + (after + [c]) == (before + after) + [c];
    SerialSplit(initial, before + after, [c]);
    SerialOne(d, c);
    forall k | k in after + [c] ensures Touched(k.ops) <= done {
      assert k in after || k == c;
    }
  }

  /** A committing "before" transaction is moved ahead of all the "after" ones: they share no file. */
  lemma InsertBefore(initial: Disk, before: seq<Committed>, after: seq<Committed>, c: Committed,
                     d: Disk, done: set<File>, image: Disk)
    requires Split(initial, before, after, d, done, image)
    requires Faithful(d, c.ops) && Touched(c.ops) !! done && Touched(c.ops) !! image.Keys
    ensures Split(initial, before + [c], after, Effect(d, c.ops), done, image)
  {
    MovedInFront(initial, before, after, c, d, done);
    CopyStays(initial, before, c, image);
  }

  /** The order with the transaction moved in front of those it shares no file with. */
  lemma MovedInFront(initial: Disk, before: seq<Committed>, after: seq<Committed>, c: Committed,
                     d: Disk, done: set<File>)
    requires SerialFaithful(initial, before + after) && Serial(initial, before + after) == d
    requires TouchOnly(after, done) && Faithful(d, c.ops) && Touched(c.ops) !! done
    ensures SerialFaithful(initial, (before + [c]) + after)
    ensures Serial(initial, (before + [c]) + after) == Effect(d, c.ops)
  {
    SerialSplit(initial, before, after);
    MovedAlone(Serial(initial, before), after, c, done);
    SerialSplit(initial, before, [c] + after);
    assert before + ([c] + after) == (before + [c]) + after;
  }

  lemma MovedAlone(base: Disk, after: seq<Committed>, c: Committed, done: set<File>)
    requires SerialFaithful(base, after) && TouchOnly(after, done)
    requires Faithful(Serial(base, after), c.ops) && Touched(c.ops) !! done
    ensures SerialFaithful(base, [c] + after)
    ensures Serial(base, [c] + after) == Effect(Serial(base, after), c.ops)
  {
    SerialSplit(base, after, [c]);
    SerialOne(Serial(base, after), c);
    MoveAhead(base, after, c, done);
  }

  /** A transaction that touches none of the copied files leaves them as copied. */
  lemma CopyStays(initial: Disk, before: seq<Committed>, c: Committed, image: Disk)
    requires CopyOf(image, Serial(initial, before)) && Touched(c.ops) !! image.Keys
    ensures CopyOf(image, Serial(initial, before + [c]))
  {
    SerialSplit(initial, before, [c]);
    SerialOne(Serial(initial, before), c);
    EffectOutside(Serial(initial, before), c.ops);
  }

  lemma SplitsCommit(initial: Disk, s: State, t: TxnId)
    requires Safe(s) && !s.strayed && Serializable(initial, s) && Splits(initial, s)
    requires Enabled(s, Commit(t)) && s.backup.Active?
    ensures Splits(initial, Next(s, Commit(t)))
  {
    var x, b := s.live[t], s.backup;
    var c := Committed(t, x.side, x.ops);
    assert Isolated(s.disk, x);
    CommitExtends(s.committed, c, b.start, b.mark);
    SideConfines(s, t);
    var before, after := Befores(s.committed, b.start, b.mark), Afters(s.committed, b.start, b.mark);
    if x.side == b.mark {
      AppendAfter(initial, before, after, c, s.disk, b.done, b.image);
      assert before + [] == before;
    } else {
      InsertBefore(initial, before, after, c, s.disk, b.done, b.image);
      assert after + [] == after;
    }
  }

  lemma SplitsStart(initial: Disk, s: State)
    requires Serializable(initial, s) && Enabled(s, BackupStart)
    ensures Splits(initial, Next(s, BackupStart))
  {
    var cs := s.committed;
    assert cs[..|cs|] == cs && cs[|cs|..] == [] && cs + [] == cs;
  }

  /** The afters are confined to the files already marked, so the file copied is as the befores left it. */
  lemma SplitsCopy(initial: Disk, s: State)
    requires Safe(s) && Splits(initial, s) && Enabled(s, BackupCopy)
    ensures Splits(initial, Next(s, BackupCopy))
  {
    var b := s.backup;
    var before, after := Befores(s.committed, b.start, b.mark), Afters(s.committed, b.start, b.mark);
    SerialSplit(initial, before, after);
    SerialOutside(Serial(initial, before), after, b.done);
  }

  lemma SplitsStep(initial: Disk, s: State, a: Action)
    requires Safe(s) && Serializable(initial, s) && Splits(initial, s) && Enabled(s, a)
    requires !Next(s, a).strayed
    ensures Splits(initial, Next(s, a))
  {
    if a.Commit? && s.backup.Active? {
      SplitsCommit(initial, s, a.txn);
    } else if a.Request? {
      RequestFrame(s, a.txn, a.file, a.mode, a.loc);
    } else if a.BackupStart? {
      SplitsStart(initial, s);
    } else if a.BackupCopy? {
      SplitsCopy(initial, s);
    } else if Actor(a) != BACKUP_TXN {
      UserStepFrame(s, a);
      if !a.Commit? { DiskKept(s, a); }
    }
  }

  /** The transactions in another order, which explains all reads and leads to the same disk. */
  ghost predicate Explains(initial: Disk, cs: seq<Committed>, order: seq<Committed>) {
    && SerialFaithful(initial, order)
    && Serial(initial, order) == Serial(initial, cs)
    && multiset(order) == multiset(cs)
  }

  /** The befores, the afters and what was committed once the backup had ended. */
  function Around(cs: seq<Committed>, b: Finished): seq<Committed>
    requires b.start <= b.end <= |cs|
  {
    Befores(cs[..b.end], b.start, b.mark) + Afters(cs[..b.end], b.start, b.mark) + cs[b.end..]
  }

  /** A finished backup is consistent: its image is what the befores leave in the files on the walk, and the
      whole history is view-equivalent to the befores, then the backup, then the afters, then all later ones. */
  ghost predicate ConsistentBackup(initial: Disk, walked: set<File>, cs: seq<Committed>, b: Finished) {
    && b.start <= b.end <= |cs|
    && b.image.Keys == walked && CopyOf(b.image, Serial(initial, Befores(cs[..b.end], b.start, b.mark)))
    && Explains(initial, cs, Around(cs, b))
  }

  /** The image is a state that some serial execution passes through, which explains the whole history: this asks
      for any order of the transactions, whatever their sides. */
  ghost predicate InSomeOrder(initial: Disk, walked: set<File>, cs: seq<Committed>, image: Disk) {
    && image.Keys == walked
    && exists before, after :: Explains(initial, cs, before + after) && CopyOf(image, Serial(initial, before))
  }

  lemma ConsistentIsInOrder(initial: Disk, walked: set<File>, cs: seq<Committed>, b: Finished)
    requires ConsistentBackup(initial, walked, cs, b)
    ensures InSomeOrder(initial, walked, cs, b.image)
  {
    var before := Befores(cs[..b.end], b.start, b.mark);
    var after := Afters(cs[..b.end], b.start, b.mark) + cs[b.end..];
    assert before + after == Around(cs, b);
    ExplainedInOrder(initial, walked, cs, b.image, before, after);
  }

  lemma ExplainedInOrder(initial: Disk, walked: set<File>, cs: seq<Committed>, image: Disk,
                         before: seq<Committed>, after: seq<Committed>)
    requires image.Keys == walked && Explains(initial, cs, before + after) && CopyOf(image, Serial(initial, before))
    ensures InSomeOrder(initial, walked, cs, image)
  {
  }

  /** Every backup that ended before a user transaction asked for a file outside the walk is consistent. */
  ghost predicate AllConsistent(initial: Disk, s: State) {
    forall k :: 0 <= k < |s.finished| && !s.finished[k].strayed ==>
                  ConsistentBackup(initial, s.walked, s.committed, s.finished[k])
  }

  lemma SidesPermute(cs: seq<Committed>, start: nat, mark: bool)
    requires start <= |cs|
    ensures multiset(Befores(cs, start, mark) + Afters(cs, start, mark)) == multiset(cs)
  {
    OnSideCounts(cs[start..]);
    assert cs == cs[..start] + cs[start..];
  }

  /** The image is complete and consistent when the backup ends. */
  lemma EndsConsistent(initial: Disk, s: State)
    requires Safe(s) && Serializable(initial, s) && Splits(initial, s) && Enabled(s, BackupEnd)
    ensures var b := s.backup;
            ConsistentBackup(initial, s.walked, s.committed,
                             Finished(b.mark, b.image, b.start, |s.committed|, s.strayed))
  {
    var b, cs := s.backup, s.committed;
    assert cs[..|cs|] == cs && cs[|cs|..] == [];
    var before, after := Befores(cs, b.start, b.mark), Afters(cs, b.start, b.mark);
    assert before + after + [] == before + after;
    SidesPermute(cs, b.start, b.mark);
  }

  /** Later commits leave a finished backup consistent. */
  lemma StaysConsistent(initial: Disk, walked: set<File>, cs: seq<Committed>, c: Committed, b: Finished)
    requires ConsistentBackup(initial, walked, cs, b)
    requires Faithful(Serial(initial, cs), c.ops)
    ensures ConsistentBackup(initial, walked, cs + [c], b)
  {
    AroundGrows(cs, c, b);
    OrderGrows(initial, cs, Around(cs, b), c);
  }

  lemma AroundGrows(cs: seq<Committed>, c: Committed, b: Finished)
    requires b.start <= b.end <= |cs|
    ensures (cs + [c])[..b.end] == cs[..b.end] && Around(cs + [c], b) == Around(cs, b) + [c]
  {
    assert (cs + [c])[..b.end] == cs[..b.end] && (cs + [c])[b.end..] == cs[b.end..] + [c];
    var front := Befores(cs[..b.end], b.start, b.mark) + Afters(cs[..b.end], b.start, b.mark);
    assert front + (cs[b.end..] + [c]) == front + cs[b.end..] + [c];
  }

  /** A transaction at the end of two equivalent histories. */
  lemma OrderGrows(initial: Disk, cs: seq<Committed>, order: seq<Committed>, c: Committed)
    requires Explains(initial, cs, order) && Faithful(Serial(initial, cs), c.ops)
    ensures Explains(initial, cs + [c], order + [c])
  {
    SerialSplit(initial, order, [c]);
    SerialSplit(initial, cs, [c]);
    SerialOne(Serial(initial, cs), c);
  }

  lemma AllConsistentStep(initial: Disk, s: State, a: Action)
    requires Safe(s) && Serializable(initial, s) && (!s.strayed ==> Splits(initial, s)) && AllConsistent(initial, s)
    requires Enabled(s, a)
    ensures AllConsistent(initial, Next(s, a))
  {
    if a.Commit? {
      var x := s.live[a.txn];
      assert Isolated(s.disk, x);
      forall k | 0 <= k < |s.finished| && !s.finished[k].strayed
        ensures ConsistentBackup(initial, s.walked, Next(s, a).committed, s.finished[k])
      {
        StaysConsistent(initial, s.walked, s.committed, Committed(a.txn, x.side, x.ops), s.finished[k]);
      }
    } else if a.BackupEnd? {
      if !s.strayed { EndsConsistent(initial, s); }
    } else {
      DiskKept(s, a);
      if a.Request? { RequestFrame(s, a.txn, a.file, a.mode, a.loc); }
    }
  }

  /** Backup consistency. In every run, over any number of backups of either bit polarity: a backup that ends
      while user transactions have only asked for files on the walk is consistent, and stays so for good. */
  lemma {:induction false} OnlineBackupIsConsistent(s0: State, actions: seq<Action>)
    requires IsInitial(s0) && Run(s0, actions).Reached?
    ensures var s := Run(s0, actions).state;
            (!s.strayed ==> Splits(s0.disk, s)) && AllConsistent(s0.disk, s)
  {
    if actions != [] {
      var front, a := actions[..|actions| - 1], actions[|actions| - 1];
      OnlineBackupIsConsistent(s0, front);
      StrictTwoPhaseLocking(s0, front);
      var s := Run(s0, front).state;
      if !Next(s, a).strayed { SplitsStep(s0.disk, s, a); }
      AllConsistentStep(s0.disk, s, a);
    }
  }

  /** A request of a user transaction for a file outside the walk. */
  predicate Strays(walked: set<File>, a: Action) {
    a.Request? && a.txn != BACKUP_TXN && a.file !in walked
  }

  /** A run has strayed if and only if it holds such a request. When every file is on the walk none does, so
      that all finished backups are consistent. */
  lemma {:induction false} StrayedIff(s0: State, actions: seq<Action>)
    requires IsInitial(s0) && Run(s0, actions).Reached?
    ensures var s := Run(s0, actions).state;
            && s.walked == s0.walked && s.disk.Keys == s0.disk.Keys
            && (s.strayed <==> exists a :: a in actions && Strays(s0.walked, a))
            && (s0.walked == s0.disk.Keys ==> !s.strayed)
  {
    SafeInitially(s0);
    if actions != [] {
      var front, a := actions[..|actions| - 1], actions[|actions| - 1];
      StrayedIff(s0, front);
      SafeRun(s0, front);
      KeepsFiles(Run(s0, front).state, a);
      StrayedStep(Run(s0, front).state, a);
      StraysMore(s0.walked, actions);
    }
  }

  lemma StraysMore(walked: set<File>, actions: seq<Action>)
    requires actions != []
    ensures (exists a :: a in actions && Strays(walked, a)) <==>
              Strays(walked, actions[|actions| - 1])
              || exists a :: a in actions[..|actions| - 1] && Strays(walked, a)
  {
    assert actions == actions[..|actions| - 1] + [actions[|actions| - 1]];
  }

  lemma StrayedStep(s: State, a: Action)
    requires Enabled(s, a)
    ensures Next(s, a).strayed <==> s.strayed || Strays(s.walked, a)
    ensures s.walked == s.disk.Keys ==> !Strays(s.walked, a)
  {
    if a.Request? { RequestFrame(s, a.txn, a.file, a.mode, a.loc); }
  }
}

/** What the backup does on its own, as a run, and a run in which a transaction is paused in vain. */
module BackupRuns {
  import opened Basics
  import opened Storage
  import opened Protocol
  import opened Invariants
  import opened Sides

  lemma {:induction false} RunAppend(s: State, front: seq<Action>, back: seq<Action>)
    requires Run(s, front).Reached?
    ensures Run(s, front + back) == Run(Run(s, front).state, back)
  {
    if back == [] {
      assert front + back == front;
    } else {
      RunAppend(s, front, back[..|back| - 1]);
      assert (front + back)[..|front + back| - 1] == front + back[..|back| - 1];
    }
  }

  lemma RunTwo(s: State, front: seq<Action>, r: State, back: seq<Action>, end: State)
    requires Run(s, front) == Reached(r) && Run(r, back) == Reached(end)
    ensures Run(s, front + back) == Reached(end)
  {
    RunAppend(s, front, back);
  }

  lemma RunOne(s: State, a: Action)
    requires Enabled(s, a)
    ensures Run(s, [a]) == Reached(Next(s, a))
  {
    assert Run(s, []) == Reached(s);
    RunOneMore(s, [], a);
    assert [] + [a] == [a];
  }

  /** The backup's four steps on one file. */
  function ReadOne(f: File): seq<Action> {
    [Request(BACKUP_TXN, f, Exclusive, BACKUP_TXN), BackupCopy, BackupMark, BackupRelease]
  }

  function Node(side: bool): Txn {
    Txn(side, [], Running, map[], [])
  }

  /** The backup between two files, with `f` free and still to be read. */
  ghost predicate MayRead(s: State, f: File) {
    && s.backup.Active? && s.backup.stage == Idle && f in s.walked && f !in s.backup.done
    && f in s.disk && f in s.bits && f !in s.waits && !s.IsLocked(f)
    && BACKUP_TXN in s.live && s.live[BACKUP_TXN].held == [] && s.live[BACKUP_TXN].phase == Running
    && s.live[BACKUP_TXN].shadow == map[] && s.live[BACKUP_TXN].ops == []
  }

  /** Between two files, with these bits, this image and these files done. */
  function Between(s: State, bits: map<File, bool>, side: bool, image: Disk, done: set<File>): State
    requires s.backup.Active?
  {
    s.(bits := bits, live := s.live[BACKUP_TXN := Node(side)], backup := s.backup.(image := image, done := done))
  }

  lemma BetweenTwice(s: State, b1: map<File, bool>, s1: bool, i1: Disk, d1: set<File>,
                  b2: map<File, bool>, s2: bool, i2: Disk, d2: set<File>)
    requires s.backup.Active?
    ensures Between(Between(s, b1, s1, i1, d1), b2, s2, i2, d2) == Between(s, b2, s2, i2, d2)
  {
    assert s.live[BACKUP_TXN := Node(s1)][BACKUP_TXN := Node(s2)] == s.live[BACKUP_TXN := Node(s2)];
  }

  /** `f` has been read: its bit is turned and its content is in the image. */
  function AfterReading(s: State, f: File): State
    requires s.backup.Active? && f in s.disk && f in s.bits
  {
    Between(s, s.bits[f := !s.bits[f]], s.bits[f], s.backup.image[f := s.disk[f]], s.backup.done + {f})
  }

  lemma LocksFile(s: State, f: File)
    requires MayRead(s, f)
    ensures var a := Request(BACKUP_TXN, f, Exclusive, BACKUP_TXN);
            && Enabled(s, a)
            && Next(s, a) == s.(live := s.live[BACKUP_TXN := Node(s.bits[f]).(held := [Lock(f, Exclusive)])],
                                backup := s.backup.(stage := Locked(f)))
  {
    assert [] + [Lock(f, Exclusive)] == [Lock(f, Exclusive)];
    assert RequestLock(s, BACKUP_TXN, f, Exclusive, BACKUP_TXN) == Grant(s, BACKUP_TXN, f, Exclusive);
  }

  lemma ReleasesFile(s: State, f: File)
    requires s.backup.Active? && s.backup.stage == Marked(f) && f !in s.waits
    requires BACKUP_TXN in s.live && s.live[BACKUP_TXN].held == [Lock(f, Exclusive)]
    ensures Enabled(s, BackupRelease)
    ensures Next(s, BackupRelease) == s.(live := s.live[BACKUP_TXN := s.live[BACKUP_TXN].(held := [])],
                                         backup := s.backup.(stage := Idle))
  {
    var rest := s.live[BACKUP_TXN := s.live[BACKUP_TXN].(held := [])];
    assert Unchain([Lock(f, Exclusive)], f) == [];
    assert Freed(s, BACKUP_TXN, [Lock(f, Exclusive)]) == {};
    assert Signal(rest, {}) == rest;
  }

  lemma CopiesFile(s: State, f: File, s2: State)
    requires MayRead(s, f)
    requires s2 == s.(live := s.live[BACKUP_TXN := Node(s.bits[f]).(held := [Lock(f, Exclusive)])],
                      backup := s.backup.(stage := Copied(f), image := s.backup.image[f := s.disk[f]]))
    ensures Run(s, [Request(BACKUP_TXN, f, Exclusive, BACKUP_TXN), BackupCopy]) == Reached(s2)
  {
    var a := Request(BACKUP_TXN, f, Exclusive, BACKUP_TXN);
    LocksFile(s, f);
    RunOne(s, a);
    RunOneMore(s, [a], BackupCopy);
    assert [a] + [BackupCopy] == [a, BackupCopy];
  }

  lemma ReadsFile(s: State, f: File)
    requires MayRead(s, f)
    ensures Run(s, ReadOne(f)) == Reached(AfterReading(s, f))
  {
    var copied := [Request(BACKUP_TXN, f, Exclusive, BACKUP_TXN), BackupCopy];
    var s2 := s.(live := s.live[BACKUP_TXN := Node(s.bits[f]).(held := [Lock(f, Exclusive)])],
                 backup := s.backup.(stage := Copied(f), image := s.backup.image[f := s.disk[f]]));
    CopiesFile(s, f, s2);
    var s3 := s2.(bits := s.bits[f := !s.bits[f]],
                  backup := s2.backup.(stage := Marked(f), done := s.backup.done + {f}));
    RunOneMore(s, copied, BackupMark);
    assert Run(s, copied + [BackupMark]) == Reached(s3);
    ReleasesFile(s3, f);
    RunOneMore(s, copied + [BackupMark], BackupRelease);
    assert copied + [BackupMark] + [BackupRelease] == ReadOne(f);
    assert s3.live[BACKUP_TXN := Node(s.bits[f])] == s.live[BACKUP_TXN := Node(s.bits[f])];
  }

  /** A request that the check lets through, for a file that nobody has locked. */
  lemma Grants(s: State, t: TxnId, f: File, m: Mode)
    requires t != BACKUP_TXN && t in s.live && s.live[t].phase == Running && t !in s.pauses
    requires f in s.disk && f in s.bits && !s.IsLocked(f)
    requires s.backup.Inactive? || s.live[t].held == [] || s.bits[f] == s.live[t].side
    ensures Enabled(s, Request(t, f, m, t))
    ensures var x := s.live[t];
            Next(s, Request(t, f, m, t)) ==
            s.(live := s.live[t := x.(side := if x.held == [] then s.bits[f] else x.side,
                                      held := x.held + [Lock(f, m)])],
               strayed := s.strayed || f !in s.walked)
  {
    assert s.pauses - {t} == s.pauses;
    assert GrantIfSerializable(s, t, f, m) == Grant(s, t, f, m) || s.backup.Inactive?;
    assert RequestLock(s, t, f, m, t) == Grant(s, t, f, m);
  }

  /** The requests of `t` that are paused in vain: it shares `g`, the backup reads `f`, and then `t` asks
      for `f`. */
  function VainRun(t: TxnId, f: File, g: File): seq<Action> {
    [Begin(t), Request(t, g, Shared, t), BackupStart] + ReadOne(f) + [Request(t, f, Shared, t)]
  }

  lemma BackupStarts(root: File, disk: Disk, walked: set<File>, t: TxnId, g: File)
    requires root in walked && walked <= disk.Keys && g in walked && t != BACKUP_TXN
    ensures Run(Initial(root, disk, walked, true), [Begin(t), Request(t, g, Shared, t), BackupStart])
            == Reached(Initial(root, disk, walked, true)
                       .(live := map[t := Node(true).(held := [Lock(g, Shared)]), BACKUP_TXN := Node(false)],
                         backup := Active(false, Idle, map[], {}, 0)))
  {
    var s0 := Initial(root, disk, walked, true);
    var s1 := s0.(live := map[t := Node(false)]);
    RunOne(s0, Begin(t));
    Grants(s1, t, g, Shared);
    RunOneMore(s0, [Begin(t)], Request(t, g, Shared, t));
    assert [] + [Lock(g, Shared)] == [Lock(g, Shared)];
    RunOneMore(s0, [Begin(t)] + [Request(t, g, Shared, t)], BackupStart);
    assert [Begin(t)] + [Request(t, g, Shared, t)] + [BackupStart] == [Begin(t), Request(t, g, Shared, t), BackupStart];
  }

  /** A transaction is paused because of a file that the backup has read already, for any two files on the
      walk and a backup in which a clear bit means "read". From then on the pause is futile. */
  lemma PausedInVain(root: File, disk: Disk, walked: set<File>, t: TxnId, f: File, g: File)
    requires root in walked && walked <= disk.Keys && f in walked && g in walked && f != g && t != BACKUP_TXN
    ensures var o := Run(Initial(root, disk, walked, true), VainRun(t, f, g));
            o.Reached? && Futile(o.state, t, f) && o.state.live[t].phase == Retrying(f, Shared)
  {
    var s0 := Initial(root, disk, walked, true);
    var s3 := s0.(live := map[t := Node(true).(held := [Lock(g, Shared)]), BACKUP_TXN := Node(false)],
                  backup := Active(false, Idle, map[], {}, 0));
    var started := [Begin(t), Request(t, g, Shared, t), BackupStart];
    BackupStarts(root, disk, walked, t, g);
    ReadsFile(s3, f);
    RunTwo(s0, started, s3, ReadOne(f), AfterReading(s3, f));
    Pauses(AfterReading(s3, f), t, f);
    RunOneMore(s0, started + ReadOne(f), Request(t, f, Shared, t));
  }

  lemma Pauses(s: State, t: TxnId, f: File)
    requires t != BACKUP_TXN && t in s.live && s.live[t].phase == Running && t !in s.pauses
    requires f in s.disk && f in s.bits && !s.IsLocked(f)
    requires s.backup.Active? && s.live[t].held != [] && s.live[t].side && !s.bits[f]
    ensures Enabled(s, Request(t, f, Shared, t))
    ensures var r := Next(s, Request(t, f, Shared, t));
            && t in r.live && r.live[t] == s.live[t].(phase := Retrying(f, Shared))
            && r.backup == s.backup && r.bits == s.bits
  {
    assert GrantIfSerializable(s, t, f, Shared) == SetPhase(s, t, Retrying(f, Shared)).(pauses := s.pauses[t := 1]);
  }

  /** The backup's steps on several files, one after the other. */
  function ReadAll(fs: seq<File>): seq<Action> {
    if fs == [] then [] else ReadOne(fs[0]) + ReadAll(fs[1..])
  }

  ghost predicate MayReadAll(s: State, fs: seq<File>) {
    && s.backup.Active? && s.backup.stage == Idle
    && BACKUP_TXN in s.live && s.live[BACKUP_TXN] == Node(s.live[BACKUP_TXN].side)
    && Distinct(fs) && forall f :: f in fs ==> MayRead(s, f)
  }

  function Turned(bits: map<File, bool>, fs: seq<File>): map<File, bool> {
    bits + map f | f in fs && f in bits :: !bits[f]
  }

  function Copies(d: Disk, fs: seq<File>): Disk {
    map f | f in fs && f in d :: d[f]
  }

  /** The files `fs` have been read: their bits are turned and their contents are in the image. */
  function AllRead(s: State, fs: seq<File>, side: bool): State
    requires s.backup.Active?
  {
    Between(s, Turned(s.bits, fs), side, s.backup.image + Copies(s.disk, fs), s.backup.done + set f | f in fs)
  }

  lemma {:induction false} ReadsAll(s: State, fs: seq<File>) returns (side: bool)
    requires MayReadAll(s, fs)
    ensures Run(s, ReadAll(fs)) == Reached(AllRead(s, fs, side))
    decreases |fs|
  {
    if fs == [] {
      side := s.live[BACKUP_TXN].side;
      assert s.live[BACKUP_TXN := Node(side)] == s.live && Turned(s.bits, fs) == s.bits;
      assert s.backup.image + Copies(s.disk, fs) == s.backup.image && s.backup.done + {} == s.backup.done;
      assert (set f | f in fs) == {};
      assert AllRead(s, fs, side) == s && Run(s, []) == Reached(s);
    } else {
      assert MayRead(s, fs[0]);
      var s1 := AfterReading(s, fs[0]);
      ReadsFile(s, fs[0]);
      MayReadOthers(s, s1, fs);
      side := ReadsAll(s1, fs[1..]);
      RunTwo(s, ReadOne(fs[0]), s1, ReadAll(fs[1..]), AllRead(s1, fs[1..], side));
      ReadOneMore(s, s1, fs, side);
    }
  }

  lemma MayReadOthers(s: State, s1: State, fs: seq<File>)
    requires MayReadAll(s, fs) && fs != [] && MayRead(s, fs[0]) && s1 == AfterReading(s, fs[0])
    ensures MayReadAll(s1, fs[1..])
  {
    forall f | f in fs[1..] ensures MayRead(s1, f) {
      var i :| 1 <= i < |fs| && fs[i] == f;
      assert f != fs[0] && f in fs && MayRead(s, f);
      forall u | u in s1.live ensures !s1.live[u].Holds(f) {
        assert u != BACKUP_TXN ==> s1.live[u] == s.live[u];
      }
    }
  }

  lemma FirstAndRest(fs: seq<File>, f: File)
    requires fs != [] && Distinct(fs)
    ensures f in fs <==> f == fs[0] || f in fs[1..]
    ensures fs[0] !in fs[1..]
  {
    if f in fs {
      var i :| 0 <= i < |fs| && fs[i] == f;
      assert i > 0 ==> fs[1..][i - 1] == f;
    }
  }

  lemma TurnedMore(bits: map<File, bool>, fs: seq<File>)
    requires fs != [] && Distinct(fs) && fs[0] in bits
    ensures Turned(bits[fs[0] := !bits[fs[0]]], fs[1..]) == Turned(bits, fs)
  {
    forall f ensures f in fs <==> f == fs[0] || f in fs[1..] { FirstAndRest(fs, f); }
    FirstAndRest(fs, fs[0]);
  }

  lemma CopiesMore(image: Disk, d: Disk, fs: seq<File>)
    requires fs != [] && Distinct(fs) && fs[0] in d
    ensures image[fs[0] := d[fs[0]]] + Copies(d, fs[1..]) == image + Copies(d, fs)
  {
    forall f ensures f in fs <==> f == fs[0] || f in fs[1..] { FirstAndRest(fs, f); }
  }

  lemma DoneMore(done: set<File>, fs: seq<File>)
    requires fs != [] && Distinct(fs)
    ensures done + {fs[0]} + (set f | f in fs[1..]) == done + set f | f in fs
  {
    forall f ensures f in fs <==> f == fs[0] || f in fs[1..] { FirstAndRest(fs, f); }
  }

  /** Reading the first file and then the others. */
  lemma ReadOneMore(s: State, s1: State, fs: seq<File>, side: bool)
    requires s.backup.Active? && Distinct(fs) && fs != [] && fs[0] in s.disk && fs[0] in s.bits
    requires s1 == AfterReading(s, fs[0])
    ensures AllRead(s1, fs[1..], side) == AllRead(s, fs, side)
  {
    TurnedMore(s.bits, fs);
    CopiesMore(s.backup.image, s.disk, fs);
    DoneMore(s.backup.done, fs);
    BetweenTwice(s, s1.bits, s.bits[fs[0]], s1.backup.image, s1.backup.done,
              Turned(s.bits, fs), side, s.backup.image + Copies(s.disk, fs), s.backup.done + set f | f in fs);
  }
}

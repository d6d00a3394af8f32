/** A file outside the walk: when user transactions ask for it, a backup may copy half of what one of them
    writes. Backups are always consistent exactly when the walk comes to every file. */
module HiddenFiles {
  import opened Basics
  import opened Storage
  import opened Protocol
  import opened Invariants
  import opened Serializability
  import opened BackupConsistency
  import opened BackupRuns

  /** Nobody is active, and the files on the walk have one bit. */
  ghost predicate Quiet(s: State) {
    && s.root in s.walked && s.walked <= s.disk.Keys && s.walked <= s.bits.Keys && Uniform(s)
    && s.live == map[] && s.waits == map[] && s.pauses == map[] && s.backup.Inactive?
  }

  ghost predicate Lists(fs: seq<File>, files: set<File>) {
    Distinct(fs) && (set f | f in fs) == files
  }

  /** A whole backup that nothing interrupts. */
  function BackUp(fs: seq<File>): seq<Action> {
    [BackupStart] + ReadAll(fs) + [BackupEnd]
  }

  function BackedUp(s: State, fs: seq<File>): State
    requires s.root in s.bits
  {
    s.(bits := Turned(s.bits, fs),
       finished := s.finished +
         [Finished(!s.bits[s.root], Copies(s.disk, fs), |s.committed|, |s.committed|, s.strayed)])
  }

  /** A backup that has just begun may read any files on the walk that are free. */
  lemma MayReadFree(s: State, fs: seq<File>)
    requires s.backup.Active? && s.backup.stage == Idle && s.waits == map[] && Distinct(fs)
    requires BACKUP_TXN in s.live && s.live[BACKUP_TXN] == Node(s.live[BACKUP_TXN].side)
    requires forall f :: f in fs ==> f in s.walked && f !in s.backup.done && f in s.disk && f in s.bits
    requires forall f, u :: f in fs && u in s.live ==> !s.live[u].Holds(f)
    ensures MayReadAll(s, fs)
  {
    forall f | f in fs ensures MayRead(s, f) {
      assert !s.IsLocked(f);
    }
  }

  /** The end of a backup that has read everything. */
  lemma Ends(s: State, r: State)
    requires s.backup.Active? && s.backup.stage == Idle && s.backup.done == s.walked
    requires exists side :: s.live == map[BACKUP_TXN := Node(side)]
    requires r == s.(live := map[], backup := Inactive,
                     finished := s.finished + [Finished(s.backup.mark, s.backup.image, s.backup.start,
                                                        |s.committed|, s.strayed)])
    ensures Run(s, [BackupEnd]) == Reached(r)
  {
    RunOne(s, BackupEnd);
    assert s.live - {BACKUP_TXN} == map[];
  }

  function Opened(s: State): State
    requires s.root in s.bits
  {
    s.(live := map[BACKUP_TXN := Node(false)],
       backup := Active(!s.bits[s.root], Idle, map[], {}, |s.committed|))
  }

  lemma ReadsWalk(s: State, fs: seq<File>) returns (side: bool)
    requires Quiet(s) && Lists(fs, s.walked)
    ensures Run(s, [BackupStart] + ReadAll(fs)) == Reached(AllRead(Opened(s), fs, side))
  {
    RunOne(s, BackupStart);
    assert forall f :: f in fs ==> f in (set f | f in fs);
    MayReadFree(Opened(s), fs);
    side := ReadsAll(Opened(s), fs);
    RunTwo(s, [BackupStart], Opened(s), ReadAll(fs), AllRead(Opened(s), fs, side));
  }

  lemma BacksUp(s: State, fs: seq<File>)
    requires Quiet(s) && Lists(fs, s.walked)
    ensures Run(s, BackUp(fs)) == Reached(BackedUp(s, fs))
  {
    var side := ReadsWalk(s, fs);
    EndsOpened(s, AllRead(Opened(s), fs, side), fs, side);
    RunTwo(s, [BackupStart] + ReadAll(fs), AllRead(Opened(s), fs, side), [BackupEnd], BackedUp(s, fs));
  }

  lemma EndsOpened(s: State, s2: State, fs: seq<File>, side: bool)
    requires Quiet(s) && Lists(fs, s.walked) && s2 == AllRead(Opened(s), fs, side)
    ensures Run(s2, [BackupEnd]) == Reached(BackedUp(s, fs))
  {
    assert s2.backup.done == s.walked && s2.backup.image == Copies(s.disk, fs);
    assert s2.live == map[BACKUP_TXN := Node(side)];
    Ends(s2, BackedUp(s, fs));
  }

  /** A transaction locks `h` and `g` unchecked, and then a backup starts. */
  function LockedEarly(t: TxnId, g: File, h: File): seq<Action> {
    [Begin(t), Request(t, h, Exclusive, t), Request(t, g, Exclusive, t), BackupStart]
  }

  function Started(s: State, t: TxnId, g: File, h: File): State
    requires s.root in s.bits && h in s.bits
  {
    s.(live := map[t := Node(s.bits[h]).(held := [Lock(h, Exclusive), Lock(g, Exclusive)]),
                   BACKUP_TXN := Node(false)],
       strayed := true,
       backup := Active(!s.bits[s.root], Idle, map[], {}, |s.committed|))
  }

  lemma LocksTwo(s: State, r: State, t: TxnId, g: File, h: File)
    requires Quiet(s) && g in s.walked && t != BACKUP_TXN
    requires h !in s.walked && h in s.disk && h in s.bits
    requires r == s.(live := map[t := Node(s.bits[h]).(held := [Lock(h, Exclusive), Lock(g, Exclusive)])],
                     strayed := true)
    ensures Run(s, [Begin(t), Request(t, h, Exclusive, t), Request(t, g, Exclusive, t)]) == Reached(r)
  {
    var s1 := s.(live := map[t := Node(false)]);
    var a, b := Request(t, h, Exclusive, t), Request(t, g, Exclusive, t);
    RunOne(s, Begin(t));
    Grants(s1, t, h, Exclusive);
    assert [] + [Lock(h, Exclusive)] == [Lock(h, Exclusive)];
    var s2 := s.(live := map[t := Node(s.bits[h]).(held := [Lock(h, Exclusive)])], strayed := true);
    RunOneMore(s, [Begin(t)], a);
    Grants(s2, t, g, Exclusive);
    assert [Lock(h, Exclusive)] + [Lock(g, Exclusive)] == [Lock(h, Exclusive), Lock(g, Exclusive)];
    RunOneMore(s, [Begin(t)] + [a], b);
    assert [Begin(t)] + [a] + [b] == [Begin(t), a, b];
  }

  lemma LocksEarly(s: State, t: TxnId, g: File, h: File)
    requires Quiet(s) && g in s.walked && t != BACKUP_TXN
    requires h !in s.walked && h in s.disk && h in s.bits
    ensures Run(s, LockedEarly(t, g, h)) == Reached(Started(s, t, g, h))
  {
    var r := s.(live := map[t := Node(s.bits[h]).(held := [Lock(h, Exclusive), Lock(g, Exclusive)])],
                strayed := true);
    var locking := [Begin(t), Request(t, h, Exclusive, t), Request(t, g, Exclusive, t)];
    LocksTwo(s, r, t, g, h);
    RunOneMore(s, locking, BackupStart);
    assert locking + [BackupStart] == LockedEarly(t, g, h);
  }

  /** The transaction goes on to write `f` and `g`, and commits. */
  function WriteBoth(t: TxnId, f: File, g: File, data: Content): seq<Action> {
    [Request(t, f, Exclusive, t), WriteAt(t, f, 0, data), WriteAt(t, g, 0, data), Commit(t)]
  }

  function Written(s: State, t: TxnId, side: bool, f: File, g: File, data: Content): State
    requires f in s.disk && g in s.disk
  {
    s.(live := s.live - {t},
       disk := s.disk + map[f := Patch(s.disk[f], 0, data), g := Patch(s.disk[g], 0, data)],
       committed := s.committed + [Committed(t, side, [Write(f, 0, data), Write(g, 0, data)])])
  }

  lemma CommitsAlone(s: State, t: TxnId)
    requires t != BACKUP_TXN && t in s.live && s.live[t].phase == Running && s.waits == map[]
    ensures Enabled(s, Commit(t))
    ensures Next(s, Commit(t)) ==
            s.(live := s.live - {t}, disk := s.disk + s.live[t].shadow,
               committed := s.committed + [Committed(t, s.live[t].side, s.live[t].ops)])
  {
    assert Freed(s, t, s.live[t].held) == {};
    assert Signal(s.live - {t}, {}) == s.live - {t};
  }

  lemma WritesTwo(s: State, t: TxnId, f: File, g: File, data: Content)
    requires t != BACKUP_TXN && t in s.live && f != g && f in s.disk && g in s.disk
    requires s.live[t].phase == Running && s.live[t].shadow == map[] && s.live[t].ops == []
    requires s.live[t].HoldsExclusively(f) && s.live[t].HoldsExclusively(g)
    ensures Run(s, [WriteAt(t, f, 0, data), WriteAt(t, g, 0, data)]) ==
            Reached(s.(live := s.live[t := s.live[t].(
                         shadow := map[f := Patch(s.disk[f], 0, data), g := Patch(s.disk[g], 0, data)],
                         ops := [Write(f, 0, data), Write(g, 0, data)])]))
  {
    RunOne(s, WriteAt(t, f, 0, data));
    RunOneMore(s, [WriteAt(t, f, 0, data)], WriteAt(t, g, 0, data));
    assert [] + [Write(f, 0, data)] == [Write(f, 0, data)];
    assert [Write(f, 0, data)] + [Write(g, 0, data)] == [Write(f, 0, data), Write(g, 0, data)];
    assert [WriteAt(t, f, 0, data)] + [WriteAt(t, g, 0, data)] == [WriteAt(t, f, 0, data), WriteAt(t, g, 0, data)];
  }

  /** Once `f` has been read, the transaction may lock it and write. */
  ghost predicate MayWrite(s: State, t: TxnId, side: bool, f: File, g: File, h: File) {
    && f in s.disk && g in s.disk && f in s.bits && f in s.walked
    && t in s.live && s.live[t] == Node(side).(held := [Lock(h, Exclusive), Lock(g, Exclusive)])
    && s.waits == map[] && t !in s.pauses && !s.IsLocked(f) && s.bits[f] == side
  }

  lemma LocksThird(s: State, r: State, t: TxnId, side: bool, f: File, g: File, h: File)
    requires t != BACKUP_TXN && MayWrite(s, t, side, f, g, h)
    requires r == s.(live := s.live[t := Node(side).(
                       held := [Lock(h, Exclusive), Lock(g, Exclusive), Lock(f, Exclusive)])])
    ensures Run(s, [Request(t, f, Exclusive, t)]) == Reached(r)
    ensures r.live[t].HoldsExclusively(f) && r.live[t].HoldsExclusively(g)
  {
    Grants(s, t, f, Exclusive);
    assert [Lock(h, Exclusive), Lock(g, Exclusive)] + [Lock(f, Exclusive)] == r.live[t].held;
    RunOne(s, Request(t, f, Exclusive, t));
    assert r.live[t].held[1] == Lock(g, Exclusive) && r.live[t].held[2] == Lock(f, Exclusive);
  }

  lemma WritesBoth(s: State, t: TxnId, side: bool, f: File, g: File, h: File, data: Content)
    requires t != BACKUP_TXN && f != g && MayWrite(s, t, side, f, g, h)
    ensures Run(s, WriteBoth(t, f, g, data)) == Reached(Written(s, t, side, f, g, data))
  {
    var locked := Node(side).(held := [Lock(h, Exclusive), Lock(g, Exclusive), Lock(f, Exclusive)]);
    var s1 := s.(live := s.live[t := locked]);
    var request, writes := [Request(t, f, Exclusive, t)], [WriteAt(t, f, 0, data), WriteAt(t, g, 0, data)];
    LocksThird(s, s1, t, side, f, g, h);
    WritesTwo(s1, t, f, g, data);
    var s2 := Run(s1, writes).state;
    RunTwo(s, request, s1, writes, s2);
    CommitsAlone(s2, t);
    RunOneMore(s, request + writes, Commit(t));
    assert s2.live - {t} == s.live - {t};
    assert request + writes + [Commit(t)] == WriteBoth(t, f, g, data);
  }

  /** What the run needs: `front` and `back` list the walk, `f` is read first, `g` later, `h` never. */
  ghost predicate Halves(s: State, front: seq<File>, back: seq<File>, f: File, g: File, h: File) {
    && Quiet(s) && Lists(front + back, s.walked) && f in front && g in back && f != g
    && h !in s.walked && h in s.disk && h in s.bits && s.bits[h] != s.bits[s.root]
  }

  lemma FrontIsFree(s: State, s1: State, t: TxnId, front: seq<File>, back: seq<File>, f: File, g: File, h: File)
    requires Halves(s, front, back, f, g, h) && t != BACKUP_TXN && s1 == Started(s, t, g, h)
    ensures MayReadAll(s1, front)
  {
    HalvesApart(front, back, s.walked);
    assert forall u :: u in s1.live ==> u == t || u == BACKUP_TXN;
    MayReadFree(s1, front);
  }

  lemma HalvesApart(front: seq<File>, back: seq<File>, walked: set<File>)
    requires Lists(front + back, walked)
    ensures Distinct(front) && Distinct(back) && forall f :: f in front ==> f !in back && f in walked
    ensures forall f :: f in back ==> f in walked
    ensures (set f | f in front) + (set f | f in back) == walked
  {
    var all := front + back;
    assert forall i :: 0 <= i < |front| ==> all[i] == front[i];
    assert forall i :: 0 <= i < |back| ==> all[|front| + i] == back[i];
    assert forall f :: f in all ==> f in walked;
    assert forall f :: f in walked ==> f in all;
  }

  /** Once the first half has been read, the transaction may write. */
  lemma MayWriteNow(s: State, s1: State, t: TxnId, front: seq<File>, back: seq<File>, f: File, g: File, h: File,
                    side: bool)
    requires Halves(s, front, back, f, g, h) && t != BACKUP_TXN && s1 == Started(s, t, g, h)
    ensures MayWrite(AllRead(s1, front, side), t, s.bits[h], f, g, h)
  {
    var s2 := AllRead(s1, front, side);
    HalvesApart(front, back, s.walked);
    assert s2.bits[f] == !s.bits[f];
    assert forall u :: u in s2.live ==> u == t || u == BACKUP_TXN;
  }

  /** The state when the transaction has committed. */
  function HalfTorn(s: State, t: TxnId, front: seq<File>, f: File, g: File, h: File, data: Content, side: bool): State
    requires f in s.disk && g in s.disk && s.root in s.bits && h in s.bits
  {
    Written(AllRead(Started(s, t, g, h), front, side), t, s.bits[h], f, g, data)
  }

  lemma TearsHalf(s: State, t: TxnId, front: seq<File>, back: seq<File>, f: File, g: File, h: File, data: Content)
    returns (side: bool)
    requires Halves(s, front, back, f, g, h) && f in s.disk && g in s.disk && t != BACKUP_TXN
    ensures Run(s, LockedEarly(t, g, h) + ReadAll(front) + WriteBoth(t, f, g, data))
            == Reached(HalfTorn(s, t, front, f, g, h, data, side))
  {
    var s1 := Started(s, t, g, h);
    HalvesApart(front, back, s.walked);
    LocksEarly(s, t, g, h);
    FrontIsFree(s, s1, t, front, back, f, g, h);
    side := ReadsAll(s1, front);
    var s2 := AllRead(s1, front, side);
    RunTwo(s, LockedEarly(t, g, h), s1, ReadAll(front), s2);
    MayWriteNow(s, s1, t, front, back, f, g, h, side);
    WritesBoth(s2, t, s.bits[h], f, g, h, data);
    RunTwo(s, LockedEarly(t, g, h) + ReadAll(front), s2, WriteBoth(t, f, g, data),
           HalfTorn(s, t, front, f, g, h, data, side));
  }

  /** The second half of the backup, once the transaction has gone. */
  lemma ReadsBack(s: State, front: seq<File>, back: seq<File>) returns (r: State)
    requires s.backup.Active? && s.backup.stage == Idle && s.waits == map[]
    requires s.walked <= s.disk.Keys && s.walked <= s.bits.Keys
    requires Lists(front + back, s.walked) && s.backup.done == set f | f in front
    requires exists side :: s.live == map[BACKUP_TXN := Node(side)]
    ensures Run(s, ReadAll(back) + [BackupEnd]) == Reached(r)
    ensures r.committed == s.committed && r.walked == s.walked
    ensures r.finished == s.finished + [Finished(s.backup.mark, s.backup.image + Copies(s.disk, back), s.backup.start,
                                                 |s.committed|, s.strayed)]
  {
    HalvesApart(front, back, s.walked);
    MayReadFree(s, back);
    var side := ReadsAll(s, back);
    var s2 := AllRead(s, back, side);
    assert s2.live == map[BACKUP_TXN := Node(side)];
    r := s2.(live := map[], backup := Inactive,
             finished := s.finished + [Finished(s.backup.mark, s2.backup.image, s.backup.start,
                                                |s.committed|, s.strayed)]);
    Ends(s2, r);
    RunTwo(s, ReadAll(back), s2, [BackupEnd], r);
  }

  /** The transaction commits between the two halves of the backup. */
  function TornRun(t: TxnId, front: seq<File>, back: seq<File>, f: File, g: File, h: File, data: Content): seq<Action> {
    LockedEarly(t, g, h) + ReadAll(front) + WriteBoth(t, f, g, data) + (ReadAll(back) + [BackupEnd])
  }

  lemma Tears(s: State, t: TxnId, front: seq<File>, back: seq<File>, f: File, g: File, h: File, data: Content)
    returns (r: State)
    requires Halves(s, front, back, f, g, h) && f in s.disk && g in s.disk && t != BACKUP_TXN
    ensures Run(s, TornRun(t, front, back, f, g, h, data)) == Reached(r) && r.walked == s.walked
    ensures r.committed == s.committed + [Committed(t, s.bits[h], [Write(f, 0, data), Write(g, 0, data)])]
    ensures var d := s.disk + map[f := Patch(s.disk[f], 0, data), g := Patch(s.disk[g], 0, data)];
            r.finished == s.finished + [Finished(!s.bits[s.root], map[] + Copies(s.disk, front) + Copies(d, back),
                                                 |s.committed|, |s.committed| + 1, true)]
  {
    var side := TearsHalf(s, t, front, back, f, g, h, data);
    var s3 := HalfTorn(s, t, front, f, g, h, data, side);
    assert s3.live == map[BACKUP_TXN := Node(side)];
    assert s3.backup.done == set f | f in front;
    r := ReadsBack(s3, front, back);
    RunTwo(s, LockedEarly(t, g, h) + ReadAll(front) + WriteBoth(t, f, g, data), s3, ReadAll(back) + [BackupEnd], r);
  }

  /** Listed are exactly these files. */
  lemma Listed(fs: seq<File>, files: set<File>)
    requires Lists(fs, files)
    ensures forall f :: f in fs <==> f in files
  {
    forall f ensures f in fs <==> f in files {
      assert f in fs <==> f in (set g | g in fs);
    }
  }

  lemma Any(files: set<File>) returns (f: File)
    requires files != {}
    ensures f in files
  {
    if forall g :: g !in files { NoFiles(files); }
    f :| f in files;
  }

  lemma NoFiles(files: set<File>)
    requires forall f :: f !in files
    ensures files == {}
  {
    var none: set<File> := {};
    assert forall f :: f in files <==> f in none;
  }

  lemma {:induction false} ListOf(files: set<File>) returns (fs: seq<File>)
    ensures Lists(fs, files)
    decreases |files|
  {
    if files == {} {
      fs := [];
    } else {
      var f := Any(files);
      var rest := ListOf(files - {f});
      Listed(rest, files - {f});
      fs := rest + [f];
      assert forall g :: g in fs <==> g in files;
    }
  }

  /** The walk, with the root and `f` first. */
  lemma ListWalk(walked: set<File>, root: File, f: File) returns (back: seq<File>)
    requires root in walked && f in walked && root != f
    ensures Lists([root, f] + back, walked) && forall g :: g in walked && g != root && g != f ==> g in back
  {
    back := ListOf(walked - {root, f});
    Listed(back, walked - {root, f});
    var all := [root, f] + back;
    forall g ensures g in all <==> g == root || g == f || g in back {
      assert all[0] == root && all[1] == f;
    }
    forall i, j | 0 <= i < j < |all| ensures all[i] != all[j] {
      assert j >= 2 ==> all[j] == back[j - 2] && all[j] in back;
      assert i >= 2 ==> all[i] == back[i - 2];
    }
    assert forall g :: g in all <==> g in walked;
  }

  /** One byte that changes both files. */
  lemma Changes(a: Content, b: Content) returns (data: Content)
    ensures Patch(a, 0, data) != a && Patch(b, 0, data) != b
  {
    var y: Byte := if 0 !in a[..Min(1, |a|)] + b[..Min(1, |b|)] then 0
                   else if 1 !in a[..Min(1, |a|)] + b[..Min(1, |b|)] then 1 else 2;
    data := [y];
    assert Patch(a, 0, data)[0] == y && Patch(b, 0, data)[0] == y;
  }

  /** The old content of one file and the new content of the other are in no order of the one transaction. */
  lemma TornImage(disk: Disk, walked: set<File>, c: Committed, f: File, g: File, data: Content, image: Disk)
    requires f != g && f in disk && g in disk && f in image && g in image
    requires Patch(disk[f], 0, data) != disk[f] && Patch(disk[g], 0, data) != disk[g]
    requires image[f] == disk[f] && image[g] == Patch(disk[g], 0, data)
    requires c.ops == [Write(f, 0, data), Write(g, 0, data)]
    ensures !InSomeOrder(disk, walked, [c], image)
  {
    TornAgainst(disk, c, f, g, data, image);
    forall before, after | Explains(disk, [c], before + after) ensures !CopyOf(image, Serial(disk, before)) {
      assert |before + after| == |multiset(before + after)| == 1;
      if before != [] {
        assert before == before + after && before[0] in multiset(before + after);
        assert before == [c];
      } else {
        assert Serial(disk, before) == disk;
      }
    }
  }

  lemma TornAgainst(disk: Disk, c: Committed, f: File, g: File, data: Content, image: Disk)
    requires f != g && f in disk && g in disk && f in image && g in image
    requires Patch(disk[f], 0, data) != disk[f] && Patch(disk[g], 0, data) != disk[g]
    requires image[f] == disk[f] && image[g] == Patch(disk[g], 0, data)
    requires c.ops == [Write(f, 0, data), Write(g, 0, data)]
    ensures !CopyOf(image, disk) && !CopyOf(image, Serial(disk, [c]))
  {
    var ops := c.ops;
    assert ops[..1][..0] == [] && ops[..1] == [Write(f, 0, data)] && ops[..2] == ops;
    assert Effect(disk, ops[..1]) == disk[f := Patch(disk[f], 0, data)];
    assert Effect(disk, ops)[f] == Patch(disk[f], 0, data);
    SerialOne(disk, c);
  }

  /** A file outside the walk is never marked, so that after one backup its bit is the one that means "read" to
      the next. A transaction that locks it first, between the two, and then an unread file, is taken to be on
      the read side; it may go on to write a file that has been copied. The next backup then has one half of
      its writes, and the other half not: it is the state neither before nor after the only transaction that
      ever committed. */
  lemma HiddenFileTearsBackup(root: File, disk: Disk, walked: set<File>, bit: bool, f: File, g: File, h: File)
    returns (actions: seq<Action>, data: Content)
    requires root in walked && walked <= disk.Keys && h in disk && h !in walked
    requires f in walked && g in walked && f != root && g != root && f != g
    ensures Patch(disk[f], 0, data) != disk[f] && Patch(disk[g], 0, data) != disk[g]
    ensures var o := Run(Initial(root, disk, walked, bit), actions);
            && o.Reached?
            && o.state.committed == [Committed(1, bit, [Write(f, 0, data), Write(g, 0, data)])]
            && |o.state.finished| == 2
            && var image := o.state.finished[1].image;
               && image.Keys == walked && image[f] == disk[f] && image[g] == Patch(disk[g], 0, data)
               && !InSomeOrder(disk, walked, o.state.committed, image)
  {
    var s0, front := Initial(root, disk, walked, bit), [root, f];
    var back := ListWalk(walked, root, f);
    var s1 := BackedUp(s0, front + back);
    data := Changes(disk[f], disk[g]);
    BacksUp(s0, front + back);
    AfterFirst(s0, s1, front, back, f, g, h, bit);
    var r := Tears(s1, 1, front, back, f, g, h, data);
    actions := BackUp(front + back) + TornRun(1, front, back, f, g, h, data);
    RunTwo(s0, BackUp(front + back), s1, TornRun(1, front, back, f, g, h, data), r);
    assert [] + r.committed == r.committed;
    HalfCopied(disk, walked, front, back, f, g, data);
    TornImage(disk, walked, r.committed[0], f, g, data, r.finished[1].image);
  }

  lemma AfterFirst(s0: State, s1: State, front: seq<File>, back: seq<File>, f: File, g: File, h: File, bit: bool)
    requires Quiet(s0) && Lists(front + back, s0.walked) && s1 == BackedUp(s0, front + back)
    requires forall x :: x in s0.bits ==> s0.bits[x] == bit
    requires f in front && g in back && f != g && h !in s0.walked && h in s0.disk && h in s0.bits
    ensures Halves(s1, front, back, f, g, h) && s1.bits[h] == bit
  {
    var fs := front + back;
    assert forall x :: x in fs <==> x in (set x | x in fs);
    assert forall x :: x in s0.walked ==> s1.bits[x] == !bit;
  }

  lemma HalfCopied(disk: Disk, walked: set<File>, front: seq<File>, back: seq<File>, f: File, g: File, data: Content)
    requires Lists(front + back, walked) && walked <= disk.Keys && f in front && g in back && f in walked && g in walked
    ensures var d := disk + map[f := Patch(disk[f], 0, data), g := Patch(disk[g], 0, data)];
            var image := map[] + Copies(disk, front) + Copies(d, back);
            image.Keys == walked && image[f] == disk[f] && image[g] == Patch(disk[g], 0, data)
  {
    HalvesApart(front, back, walked);
  }

  /** Every finished backup of the run is a state of some serial execution. */
  ghost predicate BackupsInOrder(s0: State, actions: seq<Action>) {
    Run(s0, actions).Reached? ==>
      var s := Run(s0, actions).state;
      forall k :: 0 <= k < |s.finished| ==> InSomeOrder(s0.disk, s0.walked, s.committed, s.finished[k].image)
  }

  /** All backups of all runs are consistent if and only if the walk comes to every file, whenever there are two
      files on it besides the root. */
  lemma ConsistentIffAllWalked(root: File, disk: Disk, walked: set<File>, bit: bool, f: File, g: File)
    requires root in walked && walked <= disk.Keys
    requires f in walked && g in walked && f != root && g != root && f != g
    ensures (forall actions :: BackupsInOrder(Initial(root, disk, walked, bit), actions)) <==> walked == disk.Keys
  {
    var s0 := Initial(root, disk, walked, bit);
    if walked != disk.Keys {
      assert walked == disk.Keys - (disk.Keys - walked);
      var h := Any(disk.Keys - walked);
      var actions, data := HiddenFileTearsBackup(root, disk, walked, bit, f, g, h);
      assert !BackupsInOrder(s0, actions);
    } else {
      forall actions ensures BackupsInOrder(s0, actions) {
        AllWalked(s0, actions);
      }
    }
  }

  lemma AllWalked(s0: State, actions: seq<Action>)
    requires IsInitial(s0) && s0.walked == s0.disk.Keys
    ensures BackupsInOrder(s0, actions)
  {
    if Run(s0, actions).Reached? {
      var s := Run(s0, actions).state;
      StrayedIff(s0, actions);
      OnlineBackupIsConsistent(s0, actions);
      NoneStrayed(s0, actions);
      forall k | 0 <= k < |s.finished| ensures InSomeOrder(s0.disk, s0.walked, s.committed, s.finished[k].image) {
        ConsistentIsInOrder(s0.disk, s0.walked, s.committed, s.finished[k]);
      }
    }
  }

  /** In a run that has not strayed no backup is marked as having ended after it strayed. */
  lemma {:induction false} NoneStrayed(s0: State, actions: seq<Action>)
    requires IsInitial(s0) && Run(s0, actions).Reached? && !Run(s0, actions).state.strayed
    ensures var s := Run(s0, actions).state; forall k :: 0 <= k < |s.finished| ==> !s.finished[k].strayed
  {
    if actions != [] {
      var front, a := actions[..|actions| - 1], actions[|actions| - 1];
      StrayedStep(Run(s0, front).state, a);
      NoneStrayed(s0, front);
      FinishedStep(Run(s0, front).state, a);
    }
  }

  /** Only the end of a backup adds to the finished ones. */
  lemma FinishedStep(s: State, a: Action)
    requires Enabled(s, a)
    ensures a.BackupEnd? ==>
              var b := s.backup;
              Next(s, a).finished == s.finished + [Finished(b.mark, b.image, b.start, |s.committed|, s.strayed)]
    ensures !a.BackupEnd? ==> Next(s, a).finished == s.finished
  {
    if a.Request? { RequestFrame(s, a.txn, a.file, a.mode, a.loc); }
  }
}

/** The situations in which the deadlock detector fails, brought about on a server that has just been started. */
module DetectorRuns {
  import opened Basics
  import opened Storage
  import opened Protocol
  import opened Invariants
  import opened WaitEdges
  import opened Detection
  import opened DepthFirst
  import opened DeadlockDetector
  import W = WaitForGraph
  import D = DetectorLimits
  import L = LockList
  import S = LockServer
  import V = Service

  /** Who is live, who sleeps on which file, and the holders of every file. */
  datatype Picture = Picture(txns: set<TxnId>, asleep: map<TxnId, File>, holders: map<File, seq<Holder>>) {
    function At(f: File): seq<Holder> {
      if f in holders then holders[f] else []
    }

    function With(f: File, h: Holder): Picture {
      this.(holders := holders[f := At(f) + [h]])
    }
  }

  /** Transactions on the "before" side that run or sleep, on files which no backup has read. */
  ghost predicate Calm(s: State, files: set<File>, pic: Picture) {
    && s.backup.Inactive? && s.live.Keys == pic.txns
    && (forall t :: t in s.live ==> t > BACKUP_TXN && !s.live[t].side && PhaseIn(s.live[t].phase, pic.asleep, t))
    && (forall f :: f in s.waits ==> SleptOn(pic.asleep, f))
    && (forall f :: f in files ==> f in s.disk && f in s.bits && !s.bits[f])
  }

  ghost predicate SleptOn(asleep: map<TxnId, File>, f: File) {
    exists t :: t in asleep && asleep[t] == f
  }

  ghost predicate PhaseIn(p: Phase, asleep: map<TxnId, File>, t: TxnId) {
    if t in asleep then p.Waiting? && p.file == asleep[t] else p == Running
  }

  ghost predicate Lists(list: seq<L.FileLock>, pic: Picture) {
    forall f :: HoldersOf(list, f) == pic.At(f)
  }

  /** The server is as the picture says. */
  ghost predicate Shows(server: V.Server, files: set<File>, pic: Picture)
    reads server.locking, server.locking.locks
  {
    Calm(server.Abs(), files, pic) && Lists(server.locking.locks.list, pic)
  }

  lemma {:induction false} DistinctSize(chain: seq<L.FileLock>)
    requires Distinct(chain)
    ensures |set r | r in chain| == |chain|
  {
    if chain != [] {
      var front, last := chain[..|chain| - 1], chain[|chain| - 1];
      DistinctSize(front);
      assert (set r | r in chain) == (set r | r in front) + {last};
    }
  }

  /** A transaction whose chain is as long as before, and has all that was on it, has nothing new on it. */
  lemma NothingNew(was: seq<L.FileLock>, now: seq<L.FileLock>, a: map<TxnId, S.Node>, b: map<TxnId, S.Node>,
                   r: L.FileLock)
    requires S.Owned(was, a) && S.Owned(now, b) && r in now && forall q :: q in was ==> q in now
    requires r.parentTxn in a && |a[r.parentTxn].chain| == |b[r.parentTxn].chain|
    ensures r in was
  {
    var t := r.parentTxn;
    var older, newer := set q | q in a[t].chain, set q | q in b[t].chain;
    DistinctSize(a[t].chain);
    DistinctSize(b[t].chain);
    forall q | q in older ensures q in newer {
      assert q in was && q in now;
    }
    SameSize(older, newer);
    assert r in newer;
  }

  lemma SameSize<T>(a: set<T>, b: set<T>)
    requires a <= b && |a| == |b|
    ensures a == b
  {
    assert b == a + (b - a);
  }

  lemma HeldSize(live: map<TxnId, S.Node>, s: State, t: TxnId)
    requires s.live == S.LiveOf(live) && t in live
    ensures |s.live[t].held| == |live[t].chain|
  {
  }

  /** A request that leaves all chains as long as they were leaves the list as it was. */
  lemma SameList(was: seq<L.FileLock>, now: seq<L.FileLock>, a: map<TxnId, S.Node>, b: map<TxnId, S.Node>,
                 s: State, r: State, f: File)
    requires S.Owned(was, a) && S.Owned(now, b) && L.Grown(was, now, f) && Distinct(now)
    requires s.live == S.LiveOf(a) && r.live == S.LiveOf(b) && a.Keys == b.Keys
    requires forall t :: t in s.live && t in r.live ==> |r.live[t].held| == |s.live[t].held|
    ensures now == was
  {
    if now != was {
      var p: nat :| p <= |was| && L.GrownAt(was, now, f, p);
      var t := now[p].parentTxn;
      HeldSize(a, s, t);
      HeldSize(b, r, t);
      InsertedIsNew(was, p, now[p]);
      NothingNew(was, now, a, b, now[p]);
    }
  }

  lemma SameHolders(was: seq<L.FileLock>, now: seq<L.FileLock>, a: map<TxnId, S.Node>, b: map<TxnId, S.Node>,
                    s: State, r: State, t: TxnId, f: File, pic: Picture, pic': Picture)
    requires S.Owned(was, a) && S.Owned(now, b) && L.Grown(was, now, f) && Distinct(now) && Lists(was, pic)
    requires s.live == S.LiveOf(a) && r.live == S.LiveOf(b) && t in s.live && t in r.live
    requires r.live == s.live[t := r.live[t]] && r.live[t].held == s.live[t].held && pic'.holders == pic.holders
    ensures Lists(now, pic')
  {
    assert a.Keys == s.live.Keys && b.Keys == r.live.Keys;
    SameList(was, now, a, b, s, r, f);
    assert forall g :: pic'.At(g) == pic.At(g);
  }

  lemma InsertedIsNew(was: seq<L.FileLock>, p: nat, rec: L.FileLock)
    requires p <= |was| && Distinct(Inserted(was, p, rec))
    ensures rec !in was
  {
    forall i | 0 <= i < |was| ensures was[i] != rec {
      assert Inserted(was, p, rec)[if i < p then i else i + 1] == was[i];
    }
  }

  /** A request that gives the transaction its first record of a file puts that record behind all others of it. */
  lemma OneHolderMore(was: seq<L.FileLock>, now: seq<L.FileLock>, a: map<TxnId, S.Node>, b: map<TxnId, S.Node>,
                      s: State, r: State, t: TxnId, f: File, m: Mode, pic: Picture)
    requires S.Owned(was, a) && S.Owned(now, b) && L.Grown(was, now, f) && Lists(was, pic)
    requires s.live == S.LiveOf(a) && r.live == S.LiveOf(b) && t in r.live && t in s.live
    requires !s.live[t].Holds(f) && Lock(f, m) in r.live[t].held
    ensures Lists(now, pic.With(f, Holder(t, m == Exclusive)))
  {
    var rec := S.HeldIsRecord(now, b, t, f, m);
    if rec in was {
      S.RecordIsHeld(was, a, rec);
    }
    var p: nat :| p <= |was| && L.GrownAt(was, now, f, p);
    GrownHolders(was, now, f, p, rec, pic);
  }

  lemma GrownHolders(was: seq<L.FileLock>, now: seq<L.FileLock>, f: File, p: nat, rec: L.FileLock, pic: Picture)
    requires p <= |was| && L.GrownAt(was, now, f, p) && Lists(was, pic) && rec in now && rec !in was
    ensures Lists(now, pic.With(f, HolderOf(rec)))
  {
    OldOrNew(was, p, now[p], rec);
    NoneFrom(was, f, p);
    forall g ensures HoldersOf(now, g) == pic.With(f, HolderOf(rec)).At(g) {
      assert HoldersOf(was, g) == pic.At(g);
      InsertedHolders(was, p, rec, g);
      MoreAt(pic, f, HolderOf(rec), g);
    }
  }

  lemma NoneFrom(list: seq<L.FileLock>, f: File, p: nat)
    requires p <= |list| && forall i :: p <= i < |list| ==> list[i].inode > f
    ensures HoldersOf(list[p..], f) == []
  {
    assert forall q :: q in list[p..] ==> q.inode != f;
    NoHolders(list[p..], f);
  }

  lemma MoreAt(pic: Picture, f: File, h: Holder, g: File)
    ensures pic.With(f, h).At(g) == pic.At(g) + if g == f then [h] else []
  {
  }

  lemma OldOrNew(was: seq<L.FileLock>, p: nat, x: L.FileLock, rec: L.FileLock)
    requires p <= |was| && rec in Inserted(was, p, x)
    ensures rec == x || rec in was
  {
    var more := Inserted(was, p, x);
    var i :| 0 <= i < |more| && more[i] == rec;
    assert i != p ==> more[i] == was[if i < p then i else i - 1];
  }

  lemma InsertedHolders(was: seq<L.FileLock>, p: nat, rec: L.FileLock, g: File)
    requires p <= |was| && (rec.inode == g ==> HoldersOf(was[p..], g) == [])
    ensures HoldersOf(Inserted(was, p, rec), g) == HoldersOf(was, g) + if rec.inode == g then [HolderOf(rec)] else []
  {
    var front, rest := was[..p], was[p..];
    assert was == front + rest;
    HoldersAppend(front, rest, g);
    HoldersMore(front, rec, g);
    HoldersAppend(front + [rec], rest, g);
  }

  /** What the picture says about the records of a file is so in the protocol machine. */
  lemma PictureHolds(list: seq<L.FileLock>, live: map<TxnId, S.Node>, s: State, pic: Picture, f: File)
    requires S.Owned(list, live) && s.live == S.LiveOf(live) && Lists(list, pic)
    ensures s.IsLocked(f) <==> pic.At(f) != []
    ensures forall t :: t in s.live && s.live[t].Holds(f) ==> exists h :: h in pic.At(f) && h.txn == t
    ensures s.IsExclusive(f) <==> exists h :: h in pic.At(f) && h.exclusive
  {
    assert HoldersOf(list, f) == pic.At(f);
    S.LockedIffRecord(list, s, live, f);
    forall h ensures h in pic.At(f) <==> exists r :: r in list && r.inode == f && HolderOf(r) == h {
      HoldersExact(list, f, h);
    }
    forall r | r in list && r.inode == f ensures HolderOf(r) in pic.At(f) {}
    if pic.At(f) != [] { assert pic.At(f)[0] in pic.At(f); }
    forall t | t in s.live && s.live[t].Holds(f) ensures exists h :: h in pic.At(f) && h.txn == t {
      HoldsIff(list, live, s, f, t);
    }
  }

  /** The transaction has no record of the file, and there is none, or it may join the readers. */
  ghost predicate Joins(pic: Picture, t: TxnId, f: File, m: Mode) {
    && (forall h :: h in pic.At(f) ==> h.txn != t && !h.exclusive)
    && (pic.At(f) != [] ==> m == Shared && !SleptOn(pic.asleep, f))
  }

  /** The file is locked by others, in a mode that does not go with that of the request. */
  ghost predicate Blocked(pic: Picture, t: TxnId, f: File, m: Mode) {
    && pic.At(f) != [] && (forall h :: h in pic.At(f) ==> h.txn != t)
    && (m == Exclusive || exists h :: h in pic.At(f) && h.exclusive)
  }

  /** A request that is granted. */
  lemma Granted(s: State, r: State, files: set<File>, pic: Picture, t: TxnId, f: File, m: Mode, loc: TxnId)
    requires Calm(s, files, pic) && f in files && t in pic.txns && t !in pic.asleep
    requires Enabled(s, Request(t, f, m, loc)) && r == Next(s, Request(t, f, m, loc))
    requires s.IsLocked(f) ==> loc != t && m == Shared && !s.IsExclusive(f) && f !in s.waits
    ensures r.live == s.live[t := r.live[t]] && r.live[t].held == s.live[t].held + [Lock(f, m)]
    ensures Calm(r, files, pic)
  {
    var q := RequestLock(s, t, f, m, loc);
    assert q.live == Grant(s, t, f, m).live && q.waits == s.waits && q.bits == s.bits && q.disk == s.disk;
    RequestFrame(s, t, f, m, loc);
  }

  /** A request that is not. */
  lemma PutToSleep(s: State, r: State, files: set<File>, pic: Picture, t: TxnId, f: File, m: Mode, loc: TxnId)
    requires Calm(s, files, pic) && f in files && t in pic.txns && t !in pic.asleep
    requires Enabled(s, Request(t, f, m, loc)) && r == Next(s, Request(t, f, m, loc))
    requires s.IsLocked(f) && loc != t && (m == Exclusive || s.IsExclusive(f))
    ensures r.live == s.live[t := r.live[t]] && r.live[t].held == s.live[t].held
    ensures Calm(r, files, pic.(asleep := pic.asleep[t := f]))
  {
    assert RequestLock(s, t, f, m, loc) == Block(s, t, f, m);
    MoreAsleep(pic.asleep, t, f);
  }

  lemma MoreAsleep(asleep: map<TxnId, File>, t: TxnId, f: File)
    requires t !in asleep
    ensures SleptOn(asleep[t := f], f) && forall g :: SleptOn(asleep, g) ==> SleptOn(asleep[t := f], g)
  {
    var more := asleep[t := f];
    assert more[t] == f;
    forall g | SleptOn(asleep, g) ensures SleptOn(more, g) {
      var u :| u in asleep && asleep[u] == g;
      assert more[u] == g;
    }
  }

  /** A transaction begins, gets a lock, or has to wait for one. */
  datatype Step =
    | Come(txn: TxnId)
    | Get(txn: TxnId, file: File, mode: Mode)
    | Stay(txn: TxnId, file: File, mode: Mode)

  ghost predicate Fits(pic: Picture, files: set<File>, x: Step) {
    match x
    case Come(t) => t !in pic.txns && t !in pic.asleep && t > BACKUP_TXN
    case Get(t, f, m) => f in files && t in pic.txns && t !in pic.asleep && Joins(pic, t, f, m)
    case Stay(t, f, m) => f in files && t in pic.txns && t !in pic.asleep && Blocked(pic, t, f, m)
  }

  function After(pic: Picture, x: Step): Picture {
    match x
    case Come(t) => pic.(txns := pic.txns + {t})
    case Get(t, f, m) => pic.With(f, Holder(t, m == Exclusive))
    case Stay(t, f, m) => pic.(asleep := pic.asleep[t := f])
  }

  ghost predicate Playable(pic: Picture, files: set<File>, script: seq<Step>)
    decreases |script|
  {
    script == [] || (Fits(pic, files, script[0]) && Playable(After(pic, script[0]), files, script[1..]))
  }

  function Played(pic: Picture, script: seq<Step>): Picture
    decreases |script|
  {
    if script == [] then pic else Played(After(pic, script[0]), script[1..])
  }

  method Enter(server: V.Server, ghost files: set<File>, ghost pic: Picture, t: TxnId)
    requires server.Valid() && Shows(server, files, pic) && Fits(pic, files, Come(t))
    modifies server`trace, server.locking`live
    ensures server.Valid() && Shows(server, files, After(pic, Come(t)))
  {
    server.Begin(t);
    assert forall f :: After(pic, Come(t)).At(f) == pic.At(f);
  }

  /** A request for a lock that is granted. */
  method Take(server: V.Server, ghost files: set<File>, ghost pic: Picture, t: TxnId, f: File, m: Mode)
    requires server.Valid() && Shows(server, files, pic) && Fits(pic, files, Get(t, f, m))
    modifies server`trace, server.locking, server.locking.locks, server.locking.locks.list, server.locking.waits
    modifies server.locking.pauses, server.locking.pauses.entries
    ensures server.Valid() && server.locking.OnlyNewRecords(old(server.locking.locks.list))
    ensures Shows(server, files, After(pic, Get(t, f, m)))
  {
    ghost var s, list, live := server.Abs(), server.locking.locks.list, server.locking.live;
    PictureHolds(list, live, s, pic, f);
    var overrun;
    ghost var owner;
    overrun, owner := server.Request(t, f, m);
    Granted(s, server.Abs(), files, pic, t, f, m, owner);
    OneHolderMore(list, server.locking.locks.list, live, server.locking.live, s, server.Abs(), t, f, m, pic);
  }

  /** A request for a lock that has to wait. */
  method Wait(server: V.Server, ghost files: set<File>, ghost pic: Picture, t: TxnId, f: File, m: Mode)
    requires server.Valid() && Shows(server, files, pic) && Fits(pic, files, Stay(t, f, m))
    modifies server`trace, server.locking, server.locking.locks, server.locking.locks.list, server.locking.waits
    modifies server.locking.pauses, server.locking.pauses.entries
    ensures server.Valid() && server.locking.OnlyNewRecords(old(server.locking.locks.list))
    ensures Shows(server, files, After(pic, Stay(t, f, m)))
  {
    ghost var s, list, live := server.Abs(), server.locking.locks.list, server.locking.live;
    PictureHolds(list, live, s, pic, f);
    var overrun;
    ghost var owner;
    overrun, owner := server.Request(t, f, m);
    PutToSleep(s, server.Abs(), files, pic, t, f, m, owner);
    SameHolders(list, server.locking.locks.list, live, server.locking.live, s, server.Abs(), t, f, pic,
                After(pic, Stay(t, f, m)));
  }

  method Do(server: V.Server, ghost files: set<File>, ghost pic: Picture, x: Step)
    requires server.Valid() && Shows(server, files, pic) && Fits(pic, files, x)
    modifies server`trace, server.locking, server.locking.locks, server.locking.locks.list, server.locking.waits
    modifies server.locking.pauses, server.locking.pauses.entries
    ensures server.Valid() && server.locking.OnlyNewRecords(old(server.locking.locks.list))
    ensures Shows(server, files, After(pic, x))
  {
    match x
    case Come(t) => Enter(server, files, pic, t);
    case Get(t, f, m) => Take(server, files, pic, t, f, m);
    case Stay(t, f, m) => Wait(server, files, pic, t, f, m);
  }

  const NOBODY := Picture({}, map[], map[])

  /** All calls of the script are made. `frame` are the records of the list. */
  method PlayOn(server: V.Server, ghost files: set<File>, ghost pic: Picture, script: seq<Step>,
                ghost frame: set<L.FileLock>)
    requires server.Valid() && Shows(server, files, pic) && Playable(pic, files, script)
    requires forall r :: r in server.locking.locks.list ==> r in frame
    modifies server`trace, server.locking, server.locking.locks, server.locking.waits, frame
    modifies server.locking.pauses, server.locking.pauses.entries
    ensures server.Valid() && Shows(server, files, Played(pic, script))
    decreases |script|
  {
    if script != [] {
      Do(server, files, pic, script[0]);
      ghost var more := set r | r in server.locking.locks.list && r !in frame;
      assert forall r :: r in more ==> fresh(r);
      PlayOn(server, files, After(pic, script[0]), script[1..], frame + more);
    }
  }

  /** A server that has just been started, after the steps of the script. */
  method Play(disk: Disk, bits: map<File, bool>, ghost initial: State, ghost files: set<File>, script: seq<Step>)
    returns (server: V.Server)
    requires IsInitial(initial) && initial.disk == disk && initial.bits == bits
    requires forall f :: f in files ==> f in disk && f in bits && !bits[f]
    requires Playable(NOBODY, files, script)
    ensures server.Valid() && server.start == initial && Shows(server, files, Played(NOBODY, script))
  {
    server := new V.Server(disk, bits, initial);
    PlayOn(server, files, NOBODY, script, {});
  }

  lemma FirstStep(pic: Picture, files: set<File>, x: Step, rest: seq<Step>)
    ensures Playable(pic, files, [x] + rest) <==> Fits(pic, files, x) && Playable(After(pic, x), files, rest)
    ensures Played(pic, [x] + rest) == Played(After(pic, x), rest)
  {
    assert ([x] + rest)[1..] == rest;
  }

  /** The first parts of a script first. */
  lemma {:induction false} PlayAppend(pic: Picture, files: set<File>, a: seq<Step>, b: seq<Step>)
    ensures Playable(pic, files, a + b) <==> Playable(pic, files, a) && Playable(Played(pic, a), files, b)
    ensures Played(pic, a + b) == Played(Played(pic, a), b)
    decreases |a|
  {
    if a == [] {
      assert a + b == b;
    } else {
      PlayAppend(After(pic, a[0]), files, a[1..], b);
      FirstStep(pic, files, a[0], a[1..] + b);
      assert a + b == [a[0]] + (a[1..] + b);
    }
  }

  lemma SameMap(a: map<File, seq<Holder>>, b: map<File, seq<Holder>>)
    requires a.Keys == b.Keys && forall f :: f in a ==> a[f] == b[f]
    ensures a == b
  {
    assert forall f :: f in a <==> f in b;
    forall f | f in a ensures a[f] == b[f] {}
  }

  /** A lock that is got while nobody sleeps. */
  lemma GetStep(pic: Picture, files: set<File>, t: TxnId, f: File, m: Mode, now: map<File, seq<Holder>>)
    requires f in files && t in pic.txns && pic.asleep == map[]
    requires forall h :: h in pic.At(f) ==> h.txn != t && !h.exclusive
    requires pic.At(f) != [] ==> m == Shared
    requires now.Keys == pic.holders.Keys + {f} && now[f] == pic.At(f) + [Holder(t, m == Exclusive)]
    requires forall g :: g in pic.holders && g != f ==> now[g] == pic.holders[g]
    ensures Fits(pic, files, Get(t, f, m)) && After(pic, Get(t, f, m)) == pic.(holders := now)
  {
    var more := pic.holders[f := pic.At(f) + [Holder(t, m == Exclusive)]];
    SameMap(more, now);
  }

  const MISSED_FILES: set<File> := {10, 20}

  const MISSED_COME: seq<Step> := [Come(1), Come(2), Come(9)]

  const MISSED_GET: seq<Step> := [Get(9, 10, Shared), Get(2, 10, Shared), Get(1, 20, Exclusive)]

  const MISSED_STAY: seq<Step> := [Stay(1, 10, Exclusive), Stay(2, 20, Exclusive)]

  /** 9 and 2 share a file, 1 locks another one, and then 1 waits for the first and 2 for the second. */
  const MISSED_SCRIPT: seq<Step> := MISSED_COME + MISSED_GET + MISSED_STAY

  lemma MissedCome()
    ensures Playable(NOBODY, MISSED_FILES, MISSED_COME)
    ensures Played(NOBODY, MISSED_COME) == Picture({1, 2, 9}, map[], map[])
  {
    assert NOBODY.txns + {1} + {2} + {9} == {1, 2, 9};
  }

  lemma MissedGet()
    ensures var p := Picture({1, 2, 9}, map[], map[]);
            && Playable(p, MISSED_FILES, MISSED_GET)
            && Played(p, MISSED_GET) == Picture({1, 2, 9}, map[], D.MISSED_LOCKS)
  {
    var p := Picture({1, 2, 9}, map[], map[]);
    var h1 := map[10 := [Holder(9, false)]];
    var h2 := map[10 := [Holder(9, false), Holder(2, false)]];
    GetStep(p, MISSED_FILES, 9, 10, Shared, h1);
    GetStep(p.(holders := h1), MISSED_FILES, 2, 10, Shared, h2);
    GetStep(p.(holders := h2), MISSED_FILES, 1, 20, Exclusive, D.MISSED_LOCKS);
  }

  lemma MissedStay()
    ensures var p := Picture({1, 2, 9}, map[], D.MISSED_LOCKS);
            && Playable(p, MISSED_FILES, MISSED_STAY)
            && Played(p, MISSED_STAY) == p.(asleep := map[1 := 10, 2 := 20])
  {
    assert Holder(1, true) in D.MISSED_LOCKS[20];
  }

  lemma MissedPlays()
    ensures Playable(NOBODY, MISSED_FILES, MISSED_SCRIPT)
    ensures Played(NOBODY, MISSED_SCRIPT) == Picture({1, 2, 9}, map[1 := 10, 2 := 20], D.MISSED_LOCKS)
  {
    MissedCome();
    MissedGet();
    MissedStay();
    PlayAppend(NOBODY, MISSED_FILES, MISSED_COME, MISSED_GET);
    PlayAppend(NOBODY, MISSED_FILES, MISSED_COME + MISSED_GET, MISSED_STAY);
  }

  const TRAP_FILES: set<File> := {10, 11, 12, 13}

  const TRAP_COME: seq<Step> := [Come(1), Come(2), Come(3), Come(4)]

  const TRAP_GET: seq<Step> := [
    Get(4, 10, Exclusive), Get(3, 11, Exclusive), Get(1, 12, Shared),
    Get(2, 12, Shared), Get(1, 13, Shared), Get(3, 13, Shared)]

  const TRAP_STAY: seq<Step> :=
    [Stay(1, 10, Exclusive), Stay(2, 11, Exclusive), Stay(3, 12, Exclusive), Stay(4, 13, Exclusive)]

  /** 4 and 3 lock a file each, 1 and 2 share one, and 1 and 3; then each of the four waits for one of them. */
  const TRAP_SCRIPT: seq<Step> := TRAP_COME + TRAP_GET + TRAP_STAY

  lemma TrapCome()
    ensures Playable(NOBODY, TRAP_FILES, TRAP_COME)
    ensures Played(NOBODY, TRAP_COME) == Picture({1, 2, 3, 4}, map[], map[])
  {
    assert NOBODY.txns + {1} + {2} + {3} + {4} == {1, 2, 3, 4};
  }

  lemma TrapGet()
    ensures var p := Picture({1, 2, 3, 4}, map[], map[]);
            && Playable(p, TRAP_FILES, TRAP_GET)
            && Played(p, TRAP_GET) == Picture({1, 2, 3, 4}, map[], D.TRAP_LOCKS)
  {
    var p := Picture({1, 2, 3, 4}, map[], map[]);
    var h1, h2 := map[10 := [Holder(4, true)]], map[10 := [Holder(4, true)], 11 := [Holder(3, true)]];
    var h3, h4 := h2[12 := [Holder(1, false)]], h2[12 := [Holder(1, false), Holder(2, false)]];
    var h5 := h4[13 := [Holder(1, false)]];
    GetStep(p, TRAP_FILES, 4, 10, Exclusive, h1);
    GetStep(p.(holders := h1), TRAP_FILES, 3, 11, Exclusive, h2);
    GetStep(p.(holders := h2), TRAP_FILES, 1, 12, Shared, h3);
    GetStep(p.(holders := h3), TRAP_FILES, 2, 12, Shared, h4);
    GetStep(p.(holders := h4), TRAP_FILES, 1, 13, Shared, h5);
    GetStep(p.(holders := h5), TRAP_FILES, 3, 13, Shared, D.TRAP_LOCKS);
  }

  lemma TrapStay()
    ensures var p := Picture({1, 2, 3, 4}, map[], D.TRAP_LOCKS);
            && Playable(p, TRAP_FILES, TRAP_STAY)
            && Played(p, TRAP_STAY) == p.(asleep := map[1 := 10, 2 := 11, 3 := 12, 4 := 13])
  {
  }

  lemma TrapPlays()
    ensures Playable(NOBODY, TRAP_FILES, TRAP_SCRIPT)
    ensures Played(NOBODY, TRAP_SCRIPT) ==
            Picture({1, 2, 3, 4}, map[1 := 10, 2 := 11, 3 := 12, 4 := 13], D.TRAP_LOCKS)
  {
    TrapCome();
    TrapGet();
    TrapStay();
    PlayAppend(NOBODY, TRAP_FILES, TRAP_COME, TRAP_GET);
    PlayAppend(NOBODY, TRAP_FILES, TRAP_COME + TRAP_GET, TRAP_STAY);
  }

  /** The picture shows these waiting transactions, each of which waits for a locked file, and the holders of the
      files waited for. */
  ghost predicate ShowsWaiting(pic: Picture, waiting: seq<Wait>) {
    && (forall i, j :: 0 <= i < j < |waiting| ==> waiting[i].txn < waiting[j].txn)
    && (forall i :: 0 <= i < |waiting| ==> AsleepOn(pic, waiting[i].txn, waiting[i].inode))
    && (forall t :: t in pic.asleep ==> IsListed(waiting, t) && pic.At(pic.asleep[t]) != [])
    && (forall f :: f in pic.holders <==> WaitedFor(waiting, f))
  }

  ghost predicate AsleepOn(pic: Picture, t: TxnId, f: File) {
    t in pic.txns && t in pic.asleep && pic.asleep[t] == f
  }

  ghost predicate WaitedFor(waiting: seq<Wait>, f: File) {
    exists i :: 0 <= i < |waiting| && waiting[i].inode == f
  }

  /** What a picture shows of the sleepers is what the detector reads off. */
  lemma SleepersShown(s: State, files: set<File>, pic: Picture, waiting: seq<Wait>)
    requires Calm(s, files, pic) && ShowsWaiting(pic, waiting)
    ensures ListsSleepers(s, waiting)
  {
    forall i | 0 <= i < |waiting| ensures Sleeps(s, waiting[i].txn, waiting[i].inode) {
      assert AsleepOn(pic, waiting[i].txn, waiting[i].inode);
      assert PhaseIn(s.live[waiting[i].txn].phase, pic.asleep, waiting[i].txn);
    }
    forall t | t in s.live && s.live[t].phase.Waiting? ensures IsListed(waiting, t) {
      assert PhaseIn(s.live[t].phase, pic.asleep, t);
    }
  }

  lemma LockedShown(list: seq<L.FileLock>, live: map<TxnId, S.Node>, s: State, files: set<File>, pic: Picture,
                    waiting: seq<Wait>)
    requires S.Owned(list, live) && s.live == S.LiveOf(live) && Lists(list, pic)
    requires Calm(s, files, pic) && ShowsWaiting(pic, waiting)
    ensures WaitForLocked(s)
  {
    forall t | t in s.live && s.live[t].phase.Waiting? ensures s.IsLocked(s.live[t].phase.file) {
      assert PhaseIn(s.live[t].phase, pic.asleep, t);
      PictureHolds(list, live, s, pic, pic.asleep[t]);
    }
  }

  lemma LocksShown(list: seq<L.FileLock>, pic: Picture, waiting: seq<Wait>, found: Locks)
    requires Lists(list, pic) && ListsLocks(list, waiting, found) && ShowsWaiting(pic, waiting)
    ensures found == pic.holders
  {
    forall f ensures f in found <==> f in pic.holders {
      assert f in pic.holders <==> WaitedFor(waiting, f);
    }
    forall f | f in found ensures found[f] == pic.holders[f] {
      assert HoldersOf(list, f) == pic.At(f);
    }
    SameMap(found, pic.holders);
  }

  /** What a round of detection finds on a server that looks like the picture. */
  method DetectShown(server: V.Server, ghost files: set<File>, ghost pic: Picture, waiting: seq<Wait>)
    returns (listed: seq<nat>, overrun: bool)
    requires server.Valid() && Shows(server, files, pic) && ShowsWaiting(pic, waiting)
    ensures ListsSleepers(server.Abs(), waiting) && WaitForLocked(server.Abs())
    ensures DistinctTxns(waiting) && AllLocked(waiting, pic.holders) && W.WellFormed(GraphOf(waiting, pic.holders))
    ensures listed != [] <==> W.Cyclic(GraphOf(waiting, pic.holders))
    ensures overrun <==> RunsOver(GraphOf(waiting, pic.holders))
    ensures forall v: nat :: Deadlocked(waiting, pic.holders, v) <==>
                             v < |waiting| && InDeadlock(server.Abs(), waiting[v].txn)
  {
    ghost var s, list, live := server.Abs(), server.locking.locks.list, server.locking.live;
    SleepersShown(s, files, pic, waiting);
    LockedShown(list, live, s, files, pic, waiting);
    var found;
    listed, overrun, found := Detect(server, waiting);
    LocksShown(list, pic, waiting, found);
    InMachineTerms(list, live, s, waiting, found);
  }

  /** The same on a server that has just been started, when the steps of a script have led to that picture. */
  method DetectAfter(disk: Disk, bits: map<File, bool>, ghost initial: State, ghost files: set<File>,
                     script: seq<Step>, ghost pic: Picture, waiting: seq<Wait>)
    returns (server: V.Server, listed: seq<nat>, overrun: bool)
    requires IsInitial(initial) && initial.disk == disk && initial.bits == bits
    requires forall f :: f in files ==> f in disk && f in bits && !bits[f]
    requires Playable(NOBODY, files, script) && Played(NOBODY, script) == pic && ShowsWaiting(pic, waiting)
    ensures server.Valid() && server.start == initial
    ensures ListsSleepers(server.Abs(), waiting) && WaitForLocked(server.Abs())
    ensures DistinctTxns(waiting) && AllLocked(waiting, pic.holders) && W.WellFormed(GraphOf(waiting, pic.holders))
    ensures listed != [] <==> W.Cyclic(GraphOf(waiting, pic.holders))
    ensures overrun <==> RunsOver(GraphOf(waiting, pic.holders))
    ensures forall v: nat :: Deadlocked(waiting, pic.holders, v) <==>
                             v < |waiting| && InDeadlock(server.Abs(), waiting[v].txn)
  {
    server := Play(disk, bits, initial, files, script);
    listed, overrun := DetectShown(server, files, pic, waiting);
  }

  /** There is a back edge whose walk does not come back in time. */
  ghost predicate RunsOver(g: W.Graph)
    requires W.WellFormed(g)
  {
    exists b :: b in BackEdges(g) && !Returns(g, b)
  }

  const MISSED_PICTURE := Picture({1, 2, 9}, map[1 := 10, 2 := 20], D.MISSED_LOCKS)

  lemma MissedShown()
    ensures ShowsWaiting(MISSED_PICTURE, D.MISSED)
  {
    assert D.MISSED[0].txn == 1 && D.MISSED[1].txn == 2;
    assert D.MISSED[0].inode == 10 && D.MISSED[1].inode == 20;
  }

  /** On a server that has just been started two transactions come to be deadlocked, and the round of detection
      that follows finds nothing. */
  method MissedOnServer(disk: Disk, bits: map<File, bool>, ghost initial: State)
    returns (server: V.Server, listed: seq<nat>)
    requires IsInitial(initial) && initial.disk == disk && initial.bits == bits
    requires forall f :: f in MISSED_FILES ==> f in disk && f in bits && !bits[f]
    ensures server.Valid() && server.start == initial && InDeadlock(server.Abs(), 1) && InDeadlock(server.Abs(), 2)
    ensures ListsSleepers(server.Abs(), D.MISSED) && WaitForLocked(server.Abs()) && listed == []
  {
    MissedPlays();
    MissedShown();
    D.DeadlockMissed();
    var overrun;
    server, listed, overrun :=
      DetectAfter(disk, bits, initial, MISSED_FILES, MISSED_SCRIPT, MISSED_PICTURE, D.MISSED);
    assert D.MISSED[0].txn == 1 && D.MISSED[1].txn == 2;
  }

  const TRAP_PICTURE := Picture({1, 2, 3, 4}, map[1 := 10, 2 := 11, 3 := 12, 4 := 13], D.TRAP_LOCKS)

  lemma TrapShown()
    ensures ShowsWaiting(TRAP_PICTURE, D.TRAP)
  {
    assert D.TRAP[0].txn == 1 && D.TRAP[1].txn == 2 && D.TRAP[2].txn == 3 && D.TRAP[3].txn == 4;
    assert D.TRAP[0].inode == 10 && D.TRAP[1].inode == 11 && D.TRAP[2].inode == 12 && D.TRAP[3].inode == 13;
  }

  lemma TrapRunsOver()
    ensures AllLocked(D.TRAP, D.TRAP_LOCKS) && W.WellFormed(GraphOf(D.TRAP, D.TRAP_LOCKS))
    ensures RunsOver(GraphOf(D.TRAP, D.TRAP_LOCKS))
  {
    D.TrapGraph();
    D.TrapIsMet();
    D.TrapNeverReturns();
  }

  /** On a server that has just been started four transactions come to wait so that the search runs over its array. */
  method OverrunOnServer(disk: Disk, bits: map<File, bool>, ghost initial: State)
    returns (server: V.Server, overrun: bool)
    requires IsInitial(initial) && initial.disk == disk && initial.bits == bits
    requires forall f :: f in TRAP_FILES ==> f in disk && f in bits && !bits[f]
    ensures server.Valid() && server.start == initial
    ensures ListsSleepers(server.Abs(), D.TRAP) && WaitForLocked(server.Abs()) && overrun
  {
    TrapPlays();
    TrapShown();
    TrapRunsOver();
    var listed;
    server, listed, overrun := DetectAfter(disk, bits, initial, TRAP_FILES, TRAP_SCRIPT, TRAP_PICTURE, D.TRAP);
  }
}

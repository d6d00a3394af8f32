/** The three handle tables of the file-system interface, as values: a handle refers to a file
    descriptor, a descriptor to an in-memory inode, an inode slot to an object. */
module HandleTables {
  import opened Basics

  /** An object of the file system; 0 stands for none. */
  type Obj = nat

  datatype Handle = Handle(fdId: int, useCount: int)

  datatype FileDes = FileDes(inodeId: int, handleCount: int, reading: bool, writing: bool, append: bool,
                             shareRead: bool, shareWrite: bool, position: int)

  datatype Inode = Inode(obj: Obj, count: int)

  datatype Tables = Tables(handles: seq<Handle>, fds: seq<FileDes>, inodes: seq<Inode>)

  const FREE_HANDLE := Handle(-1, 0)

  /** A descriptor slot after `memset`, with no inode. */
  const NO_FILE := FileDes(-1, 0, false, false, false, false, false, 0)

  /** What a handle slot points at; -1 when it is free. */
  function HandleTarget(h: Handle): int {
    if h.useCount > 0 then h.fdId else -1
  }

  function FdTarget(d: FileDes): int {
    if d.handleCount > 0 then d.inodeId else -1
  }

  function HandleTargets(t: Tables): (r: seq<int>)
    ensures |r| == |t.handles| && forall k :: 0 <= k < |r| ==> r[k] == HandleTarget(t.handles[k])
  {
    seq(|t.handles|, k requires 0 <= k < |t.handles| => HandleTarget(t.handles[k]))
  }

  function FdTargets(t: Tables): (r: seq<int>)
    ensures |r| == |t.fds| && forall k :: 0 <= k < |r| ==> r[k] == FdTarget(t.fds[k])
  {
    seq(|t.fds|, k requires 0 <= k < |t.fds| => FdTarget(t.fds[k]))
  }

  /** The tables have one size and references are in range; a free descriptor has no inode. */
  ghost predicate InRange(t: Tables) {
    && |t.handles| == |t.fds| == |t.inodes|
    && (forall k :: 0 <= k < |t.handles| ==>
                      && t.handles[k].useCount >= 0
                      && (t.handles[k].useCount > 0 ==> 0 <= t.handles[k].fdId < |t.fds|))
    && (forall i :: 0 <= i < |t.fds| ==>
                      && -1 <= t.fds[i].inodeId < |t.inodes|
                      && (t.fds[i].handleCount == 0 ==> t.fds[i].inodeId == -1))
  }

  /** Each descriptor counts the live handles that point at it. */
  ghost predicate HandleCountsExact(t: Tables) {
    forall i :: 0 <= i < |t.fds| ==> t.fds[i].handleCount == multiset(HandleTargets(t))[i]
  }

  /** Each inode slot counts the live descriptors that point at it, and is used iff there are some. */
  ghost predicate InodeCountsExact(t: Tables) {
    forall j :: 0 <= j < |t.inodes| ==>
                  && t.inodes[j].count == multiset(FdTargets(t))[j]
                  && (t.inodes[j].obj == 0 <==> t.inodes[j].count == 0)
  }

  ghost predicate Counted(t: Tables) {
    InRange(t) && HandleCountsExact(t) && InodeCountsExact(t)
  }

  /** Two used inode slots hold different objects. */
  ghost predicate DistinctObjects(t: Tables) {
    forall i, j :: 0 <= i < j < |t.inodes| && t.inodes[i].obj != 0 ==> t.inodes[i].obj != t.inodes[j].obj
  }

  /** Every descriptor in use has an inode. Only inside an open call it may lack one. */
  ghost predicate Settled(t: Tables) {
    forall i :: 0 <= i < |t.fds| && t.fds[i].handleCount > 0 ==> t.fds[i].inodeId >= 0
  }

  /** Sharing modes are compatible: if one descriptor of an object reads, every other one lets others
      read, and likewise for writing. */
  ghost predicate SharingKept(t: Tables) {
    forall i, j :: && 0 <= i < |t.fds| && 0 <= j < |t.fds| && i != j
                   && t.fds[i].handleCount > 0 && t.fds[j].handleCount > 0
                   && t.fds[i].inodeId == t.fds[j].inodeId >= 0 ==>
                     && (t.fds[i].reading ==> t.fds[j].shareRead)
                     && (t.fds[i].writing ==> t.fds[j].shareWrite)
  }

  ghost predicate Consistent(t: Tables) {
    Counted(t) && DistinctObjects(t) && SharingKept(t)
  }

  function Fresh(n: nat): Tables {
    Tables(seq(n, _ => FREE_HANDLE), seq(n, _ => NO_FILE), seq(n, _ => Inode(0, 0)))
  }

  /** Drops one descriptor's reference to an inode slot; the last one empties the slot. */
  function PutInode(t: Tables, id: int): Tables {
    if 0 <= id < |t.inodes| then
      var n := t.inodes[id];
      t.(inodes := t.inodes[id := if n.count - 1 <= 0 then Inode(0, 0) else n.(count := n.count - 1)])
    else t
  }

  /** Drops one handle's reference to a descriptor; the last one lets go of its inode. */
  function PutFileDes(t: Tables, id: int): Tables {
    if 0 <= id < |t.fds| then
      var d := t.fds[id].(handleCount := t.fds[id].handleCount - 1);
      if d.handleCount < 1 && d.inodeId >= 0
      then PutInode(t, d.inodeId).(fds := t.fds[id := d.(inodeId := -1)])
      else t.(fds := t.fds[id := d])
    else t
  }

  /** Drops one use of a handle; the last one frees its slot. */
  function PutHandle(t: Tables, h: int): Tables {
    if 0 <= h < |t.handles| && t.handles[h].useCount > 0 then
      var x := t.handles[h];
      if x.useCount - 1 < 1
      then PutFileDes(t, x.fdId).(handles := t.handles[h := FREE_HANDLE])
      else t.(handles := t.handles[h := x.(useCount := x.useCount - 1)])
    else t
  }

  /** The descriptor behind a handle, or -1. */
  function FdOf(t: Tables, h: int): int {
    if 0 <= h < |t.handles| && t.handles[h].useCount > 0 && 0 <= t.handles[h].fdId < |t.fds|
    then t.handles[h].fdId else -1
  }

  /** The object behind a handle, or 0. */
  function ObjectOf(t: Tables, h: int): Obj {
    var i := FdOf(t, h);
    if i >= 0 && t.fds[i].handleCount > 0 && 0 <= t.fds[i].inodeId < |t.inodes|
    then t.inodes[t.fds[i].inodeId].obj else 0
  }

  /** The first slot from `k` on that satisfies `free`, or the table size. */
  function FirstFreeHandle(s: seq<Handle>, k: nat): (r: nat)
    requires k <= |s|
    ensures k <= r <= |s| && (r < |s| ==> s[r].useCount < 1)
    ensures forall m :: k <= m < r ==> s[m].useCount >= 1
    decreases |s| - k
  {
    if k == |s| || s[k].useCount < 1 then k else FirstFreeHandle(s, k + 1)
  }

  function FirstFreeFd(s: seq<FileDes>, k: nat): (r: nat)
    requires k <= |s|
    ensures k <= r <= |s| && (r < |s| ==> s[r].handleCount < 1)
    ensures forall m :: k <= m < r ==> s[m].handleCount >= 1
    decreases |s| - k
  {
    if k == |s| || s[k].handleCount < 1 then k else FirstFreeFd(s, k + 1)
  }

  function FirstWithObject(s: seq<Inode>, obj: Obj, k: nat): (r: nat)
    requires k <= |s|
    ensures k <= r <= |s| && (r < |s| ==> s[r].obj == obj)
    ensures forall m :: k <= m < r ==> s[m].obj != obj
    decreases |s| - k
  {
    if k == |s| || s[k].obj == obj then k else FirstWithObject(s, obj, k + 1)
  }

  /** The tables with handle slot `k` used for a new reference to descriptor `i`. */
  function WithHandle(t: Tables, k: nat, i: nat): Tables
    requires k < |t.handles| && i < |t.fds|
  {
    t.(handles := t.handles[k := Handle(i, 1)],
       fds := t.fds[i := t.fds[i].(handleCount := t.fds[i].handleCount + 1)])
  }

  /** A new handle on a new descriptor, both in the first free slots. */
  function NewHandleAndFileDes(t: Tables): (Tables, int) {
    var k: int := FirstFreeHandle(t.handles, 0);
    var i := FirstFreeFd(t.fds, 0);
    if k == |t.handles| then (t, -1)
    else if i == |t.fds| then (t.(handles := t.handles[k := Handle(-1, 0)]), -1)
    else (t.(handles := t.handles[k := Handle(i, 1)], fds := t.fds[i := NO_FILE.(handleCount := 1)]), k)
  }

  /** The slot that already holds an object, else the first empty one, or the table size. */
  function InodeSlot(t: Tables, obj: Obj): nat {
    var k := FirstWithObject(t.inodes, obj, 0);
    if k < |t.inodes| then k else FirstWithObject(t.inodes, 0, 0)
  }

  /** Descriptor `i` takes a reference to the object in slot `j` and its open mode. */
  function Attach(t: Tables, i: nat, j: nat, obj: Obj, d: FileDes): Tables
    requires i < |t.fds| && j < |t.inodes|
  {
    t.(inodes := t.inodes[j := Inode(obj, (if t.inodes[j].obj == 0 then 0 else t.inodes[j].count) + 1)],
       fds := t.fds[i := d.(inodeId := j, handleCount := t.fds[i].handleCount)])
  }

  lemma FreshConsistent(n: nat)
    ensures Consistent(Fresh(n)) && Settled(Fresh(n))
  {
    var t := Fresh(n);
    forall i | 0 <= i < n ensures multiset(HandleTargets(t))[i] == 0 && multiset(FdTargets(t))[i] == 0 {
      assert i !in HandleTargets(t) && i !in FdTargets(t);
    }
  }

  /** Updating one reference moves one unit of count. */
  lemma RetargetHandle(t: Tables, k: nat, h: Handle)
    requires k < |t.handles|
    ensures var r := t.(handles := t.handles[k := h]);
            && multiset(HandleTargets(r)) + multiset{HandleTarget(t.handles[k])}
            == multiset(HandleTargets(t)) + multiset{HandleTarget(h)}
            && FdTargets(r) == FdTargets(t)
  {
    var r := t.(handles := t.handles[k := h]);
    assert HandleTargets(r) == HandleTargets(t)[k := HandleTarget(h)];
  }

  lemma RetargetFd(t: Tables, i: nat, d: FileDes)
    requires i < |t.fds|
    ensures var r := t.(fds := t.fds[i := d]);
            && multiset(FdTargets(r)) + multiset{FdTarget(t.fds[i])}
            == multiset(FdTargets(t)) + multiset{FdTarget(d)}
            && HandleTargets(r) == HandleTargets(t)
  {
    var r := t.(fds := t.fds[i := d]);
    assert FdTargets(r) == FdTargets(t)[i := FdTarget(d)];
  }

  /** If one of `|s|` references into a range of that size is void, something in the range is unreferenced. */
  lemma Pigeonhole(s: seq<int>, k: nat) returns (free: nat)
    requires k < |s| && !(0 <= s[k] < |s|)
    ensures free < |s| && free !in s
  {
    var rest := s[..k] + s[k + 1..];
    var hit := set m | 0 <= m < |rest| :: rest[m];
    Elements(rest);
    if forall m :: 0 <= m < |s| ==> m in s {
      forall m | m in UpTo(|s|) ensures m in hit {
        assert m in s;
        var p :| 0 <= p < |s| && s[p] == m;
        assert rest[if p < k then p else p - 1] == m;
      }
      SubsetSize(UpTo(|s|), hit);
    }
    free :| 0 <= free < |s| && free !in s;
  }

  lemma {:induction false} Elements(s: seq<int>)
    ensures |set m | 0 <= m < |s| :: s[m]| <= |s|
  {
    var hit := set m | 0 <= m < |s| :: s[m];
    if s == [] {
      assert hit == {};
    } else {
      var front := s[..|s| - 1];
      Elements(front);
      assert hit == (set m | 0 <= m < |front| :: front[m]) + {s[|s| - 1]};
    }
  }

  /** A descriptor with a live handle is in use. */
  lemma TargetInUse(t: Tables, h: nat)
    requires Counted(t) && h < |t.handles| && t.handles[h].useCount > 0
    ensures 0 <= t.handles[h].fdId < |t.fds| && t.fds[t.handles[h].fdId].handleCount > 0
  {
    assert HandleTargets(t)[h] in multiset(HandleTargets(t));
  }

  lemma InodeInUse(t: Tables, i: nat)
    requires Counted(t) && i < |t.fds| && t.fds[i].handleCount > 0 && t.fds[i].inodeId >= 0
    ensures t.inodes[t.fds[i].inodeId].count > 0 && t.inodes[t.fds[i].inodeId].obj != 0
  {
    assert FdTargets(t)[i] in multiset(FdTargets(t));
  }

  /** Letting go of a handle: the handle counts. */
  lemma DropHandleCounts(t: Tables, h: nat, d: FileDes)
    requires HandleCountsExact(t) && h < |t.handles| && t.handles[h].useCount == 1
    requires 0 <= t.handles[h].fdId < |t.fds|
    requires d.handleCount == t.fds[t.handles[h].fdId].handleCount - 1
    ensures HandleCountsExact(t.(handles := t.handles[h := FREE_HANDLE], fds := t.fds[t.handles[h].fdId := d]))
  {
    var i := t.handles[h].fdId;
    var r := t.(handles := t.handles[h := FREE_HANDLE]);
    RetargetHandle(t, h, FREE_HANDLE);
    RetargetFd(r, i, d);
    var q := r.(fds := t.fds[i := d]);
    assert q == t.(handles := t.handles[h := FREE_HANDLE], fds := t.fds[i := d]);
    assert HandleTargets(q) == HandleTargets(r);
    forall m | 0 <= m < |q.fds| ensures q.fds[m].handleCount == multiset(HandleTargets(q))[m] {
      MovedCount(multiset(HandleTargets(t)), multiset(HandleTargets(r)), i, -1, m);
    }
  }

  /** How often `m` occurs after one `a` has become a `b`. */
  lemma MovedCount(x: multiset<int>, y: multiset<int>, a: int, b: int, m: int)
    requires y + multiset{a} == x + multiset{b}
    ensures y[m] + (if m == a then 1 else 0) == x[m] + (if m == b then 1 else 0)
  {
    assert (y + multiset{a})[m] == (x + multiset{b})[m];
  }

  /** Letting go of a descriptor: the inode counts. */
  lemma DropFdCounts(t: Tables, i: nat, d: FileDes)
    requires InodeCountsExact(t) && i < |t.fds| && t.fds[i].handleCount > 0
    requires 0 <= t.fds[i].inodeId < |t.inodes| && FdTarget(d) == -1
    requires t.inodes[t.fds[i].inodeId].count > 0
    ensures InodeCountsExact(PutInode(t, t.fds[i].inodeId).(fds := t.fds[i := d]))
  {
    var r := PutInode(t, t.fds[i].inodeId);
    RetargetFd(r, i, d);
    assert FdTargets(r) == FdTargets(t);
    var q := r.(fds := t.fds[i := d]);
    assert r.fds == t.fds && q.inodes == r.inodes;
    forall m | 0 <= m < |q.inodes|
      ensures q.inodes[m].count == multiset(FdTargets(q))[m] && (q.inodes[m].obj == 0 <==> q.inodes[m].count == 0)
    {
      MovedCount(multiset(FdTargets(t)), multiset(FdTargets(q)), t.fds[i].inodeId, -1, m);
    }
  }

  lemma SameFdTargets(t: Tables, r: Tables)
    requires InodeCountsExact(t) && r.inodes == t.inodes && FdTargets(r) == FdTargets(t)
    ensures InodeCountsExact(r)
  {
  }

  lemma PutHandleCounted(t: Tables, h: int)
    requires Counted(t)
    ensures Counted(PutHandle(t, h))
  {
    var r := PutHandle(t, h);
    if 0 <= h < |t.handles| && t.handles[h].useCount > 0 {
      var i := t.handles[h].fdId;
      TargetInUse(t, h);
      if t.handles[h].useCount > 1 {
        assert HandleTargets(r) == HandleTargets(t) && FdTargets(r) == FdTargets(t);
      } else {
        var d := r.fds[i];
        assert r.handles == t.handles[h := FREE_HANDLE] && r.fds == t.fds[i := d];
        DropHandleCounts(t, h, d);
        assert HandleTargets(r) == HandleTargets(t.(handles := r.handles, fds := r.fds));
        if d.handleCount < 1 && t.fds[i].inodeId >= 0 {
          InodeInUse(t, i);
          DropFdCounts(t, i, d);
          SameFdTargets(PutInode(t, t.fds[i].inodeId).(fds := t.fds[i := d]), r);
        } else {
          assert FdTargets(r) == FdTargets(t);
          SameFdTargets(t, r);
        }
      }
    }
  }

  /** What dropping references may change: a descriptor in use stays what it was or is given up, and an
      inode slot keeps its object or is emptied. */
  ghost predicate Shrinks(t: Tables, r: Tables) {
    && |r.fds| == |t.fds| && |r.inodes| == |t.inodes|
    && (forall i :: 0 <= i < |t.fds| && r.fds[i].handleCount > 0 ==>
                      && t.fds[i].handleCount > 0
                      && r.fds[i] == t.fds[i].(handleCount := r.fds[i].handleCount))
    && (forall j :: 0 <= j < |t.inodes| ==> r.inodes[j].obj == 0 || r.inodes[j].obj == t.inodes[j].obj)
  }

  lemma ShrinkingKeeps(t: Tables, r: Tables)
    requires Shrinks(t, r)
    ensures DistinctObjects(t) ==> DistinctObjects(r)
    ensures SharingKept(t) ==> SharingKept(r)
    ensures Settled(t) ==> Settled(r)
  {
  }

  lemma PutHandleShrinks(t: Tables, h: int)
    requires Counted(t)
    ensures Shrinks(t, PutHandle(t, h))
  {
  }

  /** Dropping references keeps everything in order. */
  lemma PutHandleKeeps(t: Tables, h: int)
    requires Consistent(t)
    ensures Consistent(PutHandle(t, h))
    ensures Settled(t) ==> Settled(PutHandle(t, h))
  {
    PutHandleCounted(t, h);
    PutHandleShrinks(t, h);
    ShrinkingKeeps(t, PutHandle(t, h));
  }

  /** What dropping a handle does, slot by slot: one use fewer; with the last use the slot is free and its descriptor
      counts one handle fewer; with the last handle the descriptor lets go of its inode slot, which counts one
      fewer, and with the last descriptor the slot is empty. Nothing else changes. */
  lemma PutHandleEffect(t: Tables, h: nat)
    requires Counted(t) && Settled(t) && h < |t.handles| && t.handles[h].useCount > 0
    ensures var r, i := PutHandle(t, h), t.handles[h].fdId;
            var lastUse := t.handles[h].useCount == 1;
            var lastHandle := lastUse && t.fds[i].handleCount == 1;
            && |r.handles| == |t.handles| && |r.fds| == |t.fds| && |r.inodes| == |t.inodes|
            && r.handles[h] == Handle(if lastUse then -1 else i, t.handles[h].useCount - 1)
            && (forall k :: 0 <= k < |t.handles| && k != h ==> r.handles[k] == t.handles[k])
            && (forall m :: 0 <= m < |t.fds| && m != i ==> r.fds[m] == t.fds[m])
            && r.fds[i].handleCount == t.fds[i].handleCount - (if lastUse then 1 else 0)
            && r.fds[i] == t.fds[i].(handleCount := r.fds[i].handleCount,
                                     inodeId := if lastHandle then -1 else t.fds[i].inodeId)
            && var j := t.fds[i].inodeId;
               && 0 <= j < |t.inodes|
               && (forall m :: 0 <= m < |t.inodes| && m != j ==> r.inodes[m] == t.inodes[m])
               && r.inodes[j].count == t.inodes[j].count - (if lastHandle then 1 else 0)
               && r.inodes[j].obj == if r.inodes[j].count == 0 then 0 else t.inodes[j].obj
  {
    TargetInUse(t, h);
    InodeInUse(t, t.handles[h].fdId);
  }

  /** A second handle leads to the same descriptor and object as the first. */
  lemma WithHandleEffect(t: Tables, h: nat, k: nat)
    requires Counted(t) && h < |t.handles| && t.handles[h].useCount > 0 && k < |t.handles| && t.handles[k].useCount == 0
    ensures 0 <= t.handles[h].fdId < |t.fds|
    ensures var i := t.handles[h].fdId;
            var r := WithHandle(t, k, i);
            && |r.handles| == |t.handles| && |r.fds| == |t.fds| && r.inodes == t.inodes
            && r.handles[k] == Handle(i, 1)
            && (forall m :: 0 <= m < |t.handles| && m != k ==> r.handles[m] == t.handles[m])
            && r.fds[i] == t.fds[i].(handleCount := t.fds[i].handleCount + 1)
            && (forall m :: 0 <= m < |t.fds| && m != i ==> r.fds[m] == t.fds[m])
            && ObjectOf(r, k) == ObjectOf(r, h) == ObjectOf(t, h)
  {
    TargetInUse(t, h);
  }

  /** Slots never run out, descriptors: while some handle slot is free, so is some descriptor slot. */
  lemma FreeFdExists(t: Tables)
    requires Counted(t) && FirstFreeHandle(t.handles, 0) < |t.handles|
    ensures FirstFreeFd(t.fds, 0) < |t.fds|
  {
    var k := FirstFreeHandle(t.handles, 0);
    var free := Pigeonhole(HandleTargets(t), k);
    assert free !in multiset(HandleTargets(t));
    assert t.fds[free].handleCount == 0;
  }

  /** Slots never run out, inodes: while some descriptor has no inode, an object finds a slot. */
  lemma FreeInodeExists(t: Tables, i: nat, obj: Obj)
    requires Counted(t) && i < |t.fds| && t.fds[i].inodeId == -1
    ensures InodeSlot(t, obj) < |t.inodes|
  {
    var free := Pigeonhole(FdTargets(t), i);
    assert free !in multiset(FdTargets(t));
    assert t.inodes[free].obj == 0;
  }

  /** A new reference from a free handle slot. */
  lemma AddHandleCounts(t: Tables, k: nat, i: nat, d: FileDes)
    requires HandleCountsExact(t) && k < |t.handles| && t.handles[k].useCount == 0 && i < |t.fds|
    requires d.handleCount == t.fds[i].handleCount + 1
    ensures HandleCountsExact(t.(handles := t.handles[k := Handle(i, 1)], fds := t.fds[i := d]))
  {
    var r := t.(handles := t.handles[k := Handle(i, 1)]);
    RetargetHandle(t, k, Handle(i, 1));
    RetargetFd(r, i, d);
    var q := r.(fds := t.fds[i := d]);
    assert q == t.(handles := t.handles[k := Handle(i, 1)], fds := t.fds[i := d]);
    assert HandleTargets(q) == HandleTargets(r);
    forall m | 0 <= m < |q.fds| ensures q.fds[m].handleCount == multiset(HandleTargets(q))[m] {
      MovedCount(multiset(HandleTargets(t)), multiset(HandleTargets(r)), -1, i, m);
    }
  }

  lemma WithHandleKeeps(t: Tables, k: nat, i: nat)
    requires Consistent(t) && k < |t.handles| && t.handles[k].useCount == 0
    requires i < |t.fds| && t.fds[i].handleCount > 0
    ensures Consistent(WithHandle(t, k, i))
    ensures Settled(t) ==> Settled(WithHandle(t, k, i))
  {
    var r := WithHandle(t, k, i);
    AddHandleCounts(t, k, i, r.fds[i]);
    assert FdTargets(r) == FdTargets(t);
    SameFdTargets(t, r);
    ShrinkingKeeps(t, r);
  }

  lemma AllocateKeeps(t: Tables, k: nat, i: nat)
    requires Consistent(t) && k < |t.handles| && t.handles[k].useCount == 0 && i < |t.fds| && t.fds[i].handleCount == 0
    ensures Consistent(t.(handles := t.handles[k := Handle(i, 1)], fds := t.fds[i := NO_FILE.(handleCount := 1)]))
  {
    var r := t.(handles := t.handles[k := Handle(i, 1)], fds := t.fds[i := NO_FILE.(handleCount := 1)]);
    AddHandleCounts(t, k, i, NO_FILE.(handleCount := 1));
    assert FdTargets(r) == FdTargets(t);
    SameFdTargets(t, r);
  }

  /** A new handle with a new descriptor: it fails exactly when every handle is in use. */
  lemma NewHandleAndFileDesKeeps(t: Tables)
    requires Consistent(t)
    ensures var (r, h) := NewHandleAndFileDes(t);
            && Consistent(r)
            && (h < 0 <==> FirstFreeHandle(t.handles, 0) == |t.handles|)
            && (h < 0 ==> r == t)
            && (h >= 0 ==>
                  && h < |t.handles| && t.handles[h].useCount < 1 && r.handles[h].useCount == 1
                  && FdOf(r, h) >= 0 && t.fds[FdOf(r, h)].handleCount < 1
                  && r.fds[FdOf(r, h)] == NO_FILE.(handleCount := 1)
                  && (forall i :: 0 <= i < |t.fds| && i != FdOf(r, h) ==> r.fds[i] == t.fds[i])
                  && (forall k :: 0 <= k < |t.handles| && k != h ==> r.handles[k] == t.handles[k])
                  && |r.handles| == |t.handles| && |r.fds| == |t.fds| && r.inodes == t.inodes)
  {
    var (r, h) := NewHandleAndFileDes(t);
    if h >= 0 {
      FreeFdExists(t);
      AllocateKeeps(t, h, FirstFreeFd(t.fds, 0));
    } else if FirstFreeHandle(t.handles, 0) < |t.handles| {
      FreeFdExists(t);
    }
  }

  /** The object a descriptor has open, or 0. */
  function OpenObject(t: Tables, i: nat): Obj
    requires i < |t.fds|
  {
    if t.fds[i].handleCount > 0 && 0 <= t.fds[i].inodeId < |t.inodes|
    then t.inodes[t.fds[i].inodeId].obj else 0
  }

  /** What the scan of the descriptor table at open time lets through: `d` may join the descriptors that
      already have `obj` open. */
  ghost predicate MayShare(t: Tables, obj: Obj, d: FileDes) {
    forall i :: 0 <= i < |t.fds| && OpenObject(t, i) == obj ==>
                  && (d.reading ==> t.fds[i].shareRead) && (t.fds[i].reading ==> d.shareRead)
                  && (d.writing ==> t.fds[i].shareWrite) && (t.fds[i].writing ==> d.shareWrite)
  }

  lemma AttachCounts(t: Tables, i: nat, obj: Obj, d: FileDes)
    requires InRange(t) && InodeCountsExact(t) && obj != 0 && i < |t.fds|
    requires t.fds[i].handleCount > 0 && t.fds[i].inodeId == -1 && InodeSlot(t, obj) < |t.inodes|
    ensures InodeCountsExact(Attach(t, i, InodeSlot(t, obj), obj, d))
  {
    var j := InodeSlot(t, obj);
    var r := Attach(t, i, j, obj, d);
    RetargetFd(t, i, r.fds[i]);
    var q := t.(fds := t.fds[i := r.fds[i]]);
    assert FdTargets(q) == FdTargets(r);
    forall m | 0 <= m < |r.inodes|
      ensures r.inodes[m].count == multiset(FdTargets(r))[m] && (r.inodes[m].obj == 0 <==> r.inodes[m].count == 0)
    {
      MovedCount(multiset(FdTargets(t)), multiset(FdTargets(r)), -1, j, m);
    }
  }

  lemma AttachCounted(t: Tables, i: nat, obj: Obj, d: FileDes)
    requires Counted(t) && obj != 0 && i < |t.fds| && t.fds[i].handleCount > 0 && t.fds[i].inodeId == -1
    ensures InodeSlot(t, obj) < |t.inodes|
    ensures Counted(Attach(t, i, InodeSlot(t, obj), obj, d))
  {
    FreeInodeExists(t, i, obj);
    AttachCounts(t, i, obj, d);
    var r := Attach(t, i, InodeSlot(t, obj), obj, d);
    assert HandleTargets(r) == HandleTargets(t);
  }

  lemma AttachDistinct(t: Tables, i: nat, obj: Obj, d: FileDes)
    requires Counted(t) && DistinctObjects(t) && obj != 0 && i < |t.fds| && InodeSlot(t, obj) < |t.inodes|
    ensures DistinctObjects(Attach(t, i, InodeSlot(t, obj), obj, d))
  {
  }

  lemma AttachShares(t: Tables, i: nat, obj: Obj, d: FileDes)
    requires Counted(t) && SharingKept(t) && obj != 0 && i < |t.fds| && InodeSlot(t, obj) < |t.inodes|
    requires t.fds[i].inodeId == -1 && MayShare(t, obj, d)
    ensures SharingKept(Attach(t, i, InodeSlot(t, obj), obj, d))
  {
    var j := InodeSlot(t, obj);
    var r := Attach(t, i, j, obj, d);
    forall m | 0 <= m < |t.fds| && m != i && t.fds[m].handleCount > 0 && t.fds[m].inodeId == j
      ensures OpenObject(t, m) == obj
    {
      InodeInUse(t, m);
    }
  }

  /** Opening an object on a new descriptor keeps everything in order, sharing modes included. */
  lemma AttachKeeps(t: Tables, i: nat, obj: Obj, d: FileDes)
    requires Consistent(t) && obj != 0 && i < |t.fds| && t.fds[i].handleCount > 0 && t.fds[i].inodeId == -1
    requires MayShare(t, obj, d)
    requires forall m :: 0 <= m < |t.fds| && m != i && t.fds[m].handleCount > 0 ==> t.fds[m].inodeId >= 0
    ensures InodeSlot(t, obj) < |t.inodes|
    ensures var r := Attach(t, i, InodeSlot(t, obj), obj, d);
            Consistent(r) && Settled(r) && OpenObject(r, i) == obj
  {
    AttachCounted(t, i, obj, d);
    AttachDistinct(t, i, obj, d);
    AttachShares(t, i, obj, d);
  }

  /** One more, or one fewer but not the last, use of a live handle. */
  lemma UseKeeps(t: Tables, h: nat, uses: int)
    requires Consistent(t) && h < |t.handles| && t.handles[h].useCount > 0 && uses > 0
    ensures var r := t.(handles := t.handles[h := t.handles[h].(useCount := uses)]);
            Consistent(r) && (Settled(t) ==> Settled(r))
  {
    var r := t.(handles := t.handles[h := t.handles[h].(useCount := uses)]);
    assert HandleTargets(r) == HandleTargets(t) && FdTargets(r) == FdTargets(t);
  }
}

/** The open-file layer: three arrays updated in place. */
module FileTable {
  import opened HandleTables

  datatype Error = None | ENFILE | EISDIR | EEXIST | EROFS | EACCES | EBUSY | ENOTDIR | ELOOP | ENOENT
                 | ENOSPC | EBADF | ENOMEM

  /** What the path lookup of an open call found; `existing` is a file or directory, `created` the file
      that creating it would give, or 0. */
  datatype Lookup = Lookup(existing: Obj, isDirectory: bool, readable: bool, writable: bool, readOnly: bool,
                           dirFound: bool, notDir: bool, loop: bool, created: Obj)

  /** `rw` is the access part of the flags: 0 read only, 1 write only, 2 both. */
  datatype Flags = Flags(creat: bool, excl: bool, rw: int, append: bool, shareRead: bool, shareWrite: bool)
  {
    predicate Reads() { rw == 2 || rw == 0 }

    predicate Writes() { rw == 2 || rw == 1 }

    function Descriptor(): FileDes {
      FileDes(-1, 0, Reads(), Writes(), append, shareRead, shareWrite, 0)
    }
  }

  /** Why the object found may not be opened at all, whoever else has it open. */
  function Refusal(look: Lookup, f: Flags): Error
    requires look.existing != 0
  {
    if look.isDirectory then EISDIR
    else if f.creat && f.excl then EEXIST
    else if f.Writes() && look.readOnly then EROFS
    else if (f.Reads() && !look.readable) || (f.Writes() && !look.writable) then EACCES
    else None
  }

  /** The outcome of an open call that found no object: the one it creates, or an error. */
  function Creation(look: Lookup, f: Flags): (Obj, Error) {
    if !look.dirFound && look.notDir then (0, ENOTDIR)
    else if look.loop then (0, ELOOP)
    else if !look.dirFound then (0, ENOENT)
    else if !f.creat then (0, ENOENT)
    else if look.readOnly then (0, EROFS)
    else if look.created == 0 then (0, ENOSPC)
    else (look.created, None)
  }

  /** The object an open call opens, or 0 and the reason. */
  ghost function OpenOutcome(t: Tables, look: Lookup, f: Flags): (Obj, Error) {
    if FirstFreeHandle(t.handles, 0) == |t.handles| then (0, ENFILE) else Decision(t, look, f)
  }

  /** Descriptor `i` has `obj` open in a way that does not go with the access and sharing that `f` asks for. */
  ghost predicate Conflicts(t: Tables, i: nat, obj: Obj, f: Flags) {
    && i < |t.fds| && t.fds[i].handleCount > 0 && 0 <= t.fds[i].inodeId < |t.inodes|
    && t.inodes[t.fds[i].inodeId].obj == obj
    && (|| (!t.fds[i].shareRead && (f.rw == 0 || f.rw == 2)) || (t.fds[i].reading && !f.shareRead)
        || (!t.fds[i].shareWrite && (f.rw == 1 || f.rw == 2)) || (t.fds[i].writing && !f.shareWrite))
  }

  /** Which check makes an open call fail that has a handle: the first one that fails; `None` when none does. */
  ghost predicate Refuses(t: Tables, look: Lookup, f: Flags, e: Error) {
    var present, missing := look.existing != 0, look.existing == 0;
    var file := present && !look.isDirectory && !(f.creat && f.excl);
    var readOnly := look.readOnly && (f.rw == 1 || f.rw == 2);
    var denied := ((f.rw == 0 || f.rw == 2) && !look.readable) || ((f.rw == 1 || f.rw == 2) && !look.writable);
    var busy := exists i: nat :: Conflicts(t, i, look.existing, f);
    var inDir := missing && look.dirFound && !look.loop;
    match e
    case EISDIR => present && look.isDirectory
    case EEXIST => present && !look.isDirectory && f.creat && f.excl
    case EROFS => (file && readOnly) || (inDir && f.creat && look.readOnly)
    case EACCES => file && !readOnly && denied
    case EBUSY => file && !readOnly && !denied && busy
    case ENOTDIR => missing && !look.dirFound && look.notDir
    case ELOOP => missing && (look.dirFound || !look.notDir) && look.loop
    case ENOENT => (missing && !look.dirFound && !look.notDir && !look.loop) || (inDir && !f.creat)
    case ENOSPC => inDir && f.creat && !look.readOnly && look.created == 0
    case None => (file && !readOnly && !denied && !busy) || (inDir && f.creat && !look.readOnly && look.created != 0)
    case _ => false
  }

  /** The same for any open call: it fails with ENFILE iff all handles are in use. */
  ghost predicate FailsWith(t: Tables, look: Lookup, f: Flags, e: Error) {
    if forall k :: 0 <= k < |t.handles| ==> t.handles[k].useCount >= 1 then e == ENFILE else Refuses(t, look, f, e)
  }

  /** The outcome of an open call is the error of the first check that fails. */
  lemma OutcomeFits(t: Tables, look: Lookup, f: Flags)
    ensures forall e :: OpenOutcome(t, look, f).1 == e <==> FailsWith(t, look, f, e)
    ensures OpenOutcome(t, look, f).1 == None ==>
              OpenOutcome(t, look, f).0 == if look.existing != 0 then look.existing else look.created
  {
    DecisionFits(t, look, f);
  }

  /** What is decided once there is a handle. */
  ghost function Decision(t: Tables, look: Lookup, f: Flags): (Obj, Error) {
    if look.existing == 0 then Creation(look, f)
    else if Refusal(look, f) != None then (0, Refusal(look, f))
    else if !MayShare(t, look.existing, f.Descriptor()) then (0, EBUSY)
    else (look.existing, None)
  }

  lemma DecisionFits(t: Tables, look: Lookup, f: Flags)
    ensures forall e :: Decision(t, look, f).1 == e <==> Refuses(t, look, f, e)
    ensures Decision(t, look, f).0 == if Decision(t, look, f).1 != None then 0
                                      else if look.existing != 0 then look.existing else look.created
  {
    if look.existing != 0 { BusyIff(t, look.existing, f); }
  }

  lemma BusyIff(t: Tables, obj: Obj, f: Flags)
    requires obj != 0
    ensures MayShare(t, obj, f.Descriptor()) <==> !exists i: nat :: Conflicts(t, i, obj, f)
  {
    forall i: nat | i < |t.fds| && OpenObject(t, i) == obj
      ensures Conflicts(t, i, obj, f) <==>
              !(&& (f.Descriptor().reading ==> t.fds[i].shareRead) && (t.fds[i].reading ==> f.Descriptor().shareRead)
                && (f.Descriptor().writing ==> t.fds[i].shareWrite) && (t.fds[i].writing ==> f.Descriptor().shareWrite))
    {
    }
  }

  /** The same handles, descriptors and inodes are in use, with the same values. */
  ghost predicate SameInUse(t: Tables, r: Tables) {
    && |r.handles| == |t.handles| && |r.fds| == |t.fds| && r.inodes == t.inodes
    && (forall k :: 0 <= k < |t.handles| ==>
                      (t.handles[k].useCount > 0 || r.handles[k].useCount > 0 ==> r.handles[k] == t.handles[k]))
    && (forall i :: 0 <= i < |t.fds| ==>
                      (t.fds[i].handleCount > 0 || r.fds[i].handleCount > 0 ==> r.fds[i] == t.fds[i]))
  }

  /** `h` is a new handle with a descriptor of its own, which has `obj` open in the mode asked for;
      everything else in use is as it was. */
  ghost predicate Opened(t: Tables, r: Tables, h: int, obj: Obj, f: Flags) {
    && |r.handles| == |t.handles| && |r.fds| == |t.fds|
    && 0 <= h < |t.handles| && t.handles[h].useCount < 1 && r.handles[h].useCount == 1 && FdOf(r, h) >= 0
    && t.fds[FdOf(r, h)].handleCount < 1
    && ObjectOf(r, h) == obj
    && r.fds[FdOf(r, h)] == f.Descriptor().(inodeId := r.fds[FdOf(r, h)].inodeId, handleCount := 1)
    && (forall k :: 0 <= k < |t.handles| && k != h ==> r.handles[k] == t.handles[k])
    && (forall i :: 0 <= i < |t.fds| && i != FdOf(r, h) ==>
                      r.fds[i] == t.fds[i] && OpenObject(r, i) == OpenObject(t, i))
  }

  /** Objects stay where they are when another one takes a slot. */
  lemma AttachKeepsObjects(t: Tables, i: nat, obj: Obj, d: FileDes, m: nat)
    requires Counted(t) && obj != 0 && i < |t.fds| && InodeSlot(t, obj) < |t.inodes| && m < |t.fds| && m != i
    ensures OpenObject(Attach(t, i, InodeSlot(t, obj), obj, d), m) == OpenObject(t, m)
  {
    if t.fds[m].handleCount > 0 && t.fds[m].inodeId >= 0 { InodeInUse(t, m); }
  }

  /** `r` is `t` with descriptor slot `i`, free before, allocated and still without an inode. */
  ghost predicate Allocated(t: Tables, r: Tables, i: int) {
    && |r.fds| == |t.fds| && 0 <= i < |t.fds| && r.inodes == t.inodes
    && t.fds[i].handleCount < 1 && r.fds[i].inodeId == -1
    && forall m :: 0 <= m < |t.fds| && m != i ==> r.fds[m] == t.fds[m]
  }

  /** A descriptor without an inode does not matter to the scan. */
  lemma SameSharing(t: Tables, r: Tables, i: int, obj: Obj, d: FileDes)
    requires Allocated(t, r, i) && obj != 0
    ensures MayShare(t, obj, d) <==> MayShare(r, obj, d)
  {
    forall m | 0 <= m < |t.fds| ensures OpenObject(t, m) == OpenObject(r, m) {}
  }

  /** A file that has just been created is open nowhere. */
  lemma NewObjectMayShare(t: Tables, r: Tables, i: int, obj: Obj, d: FileDes)
    requires Allocated(t, r, i) && obj != 0
    requires forall m :: 0 <= m < |t.fds| ==> OpenObject(t, m) != obj
    ensures MayShare(r, obj, d)
  {
    forall m | 0 <= m < |t.fds| ensures OpenObject(t, m) == OpenObject(r, m) {}
  }

  /** What a scan of the first `n` descriptors has found about the readers of `obj`. */
  ghost predicate ScannedRead(t: Tables, obj: Obj, n: int, allowed: bool, reading: bool) {
    && 0 <= n <= |t.fds|
    && (allowed <==> forall m :: 0 <= m < n && OpenObject(t, m) == obj ==> t.fds[m].shareRead)
    && (reading <==> exists m :: 0 <= m < n && OpenObject(t, m) == obj && t.fds[m].reading)
  }

  ghost predicate ScannedWrite(t: Tables, obj: Obj, n: int, allowed: bool, writing: bool) {
    && 0 <= n <= |t.fds|
    && (allowed <==> forall m :: 0 <= m < n && OpenObject(t, m) == obj ==> t.fds[m].shareWrite)
    && (writing <==> exists m :: 0 <= m < n && OpenObject(t, m) == obj && t.fds[m].writing)
  }

  /** After the break: no handle, descriptor or inode slot is in use. */
  ghost predicate AllFree(t: Tables) {
    && (forall k :: 0 <= k < |t.handles| ==> t.handles[k].useCount == 0)
    && (forall i :: 0 <= i < |t.fds| ==> t.fds[i].handleCount == 0)
    && (forall j :: 0 <= j < |t.inodes| ==> t.inodes[j].obj == 0)
  }

  /** A forced break has dealt with the first `n` handle slots of `t`. */
  ghost predicate Broken(t: Tables, r: Tables, n: int) {
    && |r.handles| == |t.handles| && |r.fds| == |t.fds| && |r.inodes| == |t.inodes| && 0 <= n <= |t.handles|
    && (forall k :: 0 <= k < n ==> r.handles[k].useCount == 0)
    && (forall k :: n <= k < |t.handles| ==> r.handles[k] == t.handles[k])
    && (forall i :: 0 <= i < |t.fds| ==>
                      r.fds[i] == t.fds[i] || (r.fds[i].handleCount == 0 && r.fds[i].inodeId == -1))
    && (forall k :: 0 <= k < n && HandleTarget(t.handles[k]) >= 0 ==>
                      HandleTarget(t.handles[k]) < |t.fds| && r.fds[HandleTarget(t.handles[k])].handleCount == 0)
    && InodeCountsExact(r)
  }

  /** One turn of the break: the handle goes, and with the first handle of a descriptor the descriptor. */
  function BreakOne(r: Tables, n: nat): Tables
    requires n < |r.handles|
  {
    var i := FdOf(r, n);
    var s := if i >= 0 && ObjectOf(r, n) != 0
             then HandleTables.PutInode(r, r.fds[i].inodeId)
                  .(fds := r.fds[i := r.fds[i].(handleCount := 0, inodeId := -1)])
             else r;
    if r.handles[n].useCount > 0 then s.(handles := r.handles[n := Handle(0, 0)]) else s
  }

  lemma BreakOneCounts(t: Tables, r: Tables, n: nat)
    requires Counted(t) && Settled(t) && Broken(t, r, n) && n < |t.handles|
    ensures InodeCountsExact(BreakOne(r, n))
    ensures FdOf(r, n) >= 0 && r.fds[FdOf(r, n)].handleCount > 0 ==> ObjectOf(r, n) != 0
  {
    var i := FdOf(r, n);
    if i >= 0 {
      TargetInUse(t, n);
      if r.fds[i].handleCount > 0 {
        assert r.fds[i] == t.fds[i];
        assert FdTargets(r)[i] in multiset(FdTargets(r));
        DropFdCounts(r, i, r.fds[i].(handleCount := 0, inodeId := -1));
        var s := HandleTables.PutInode(r, r.fds[i].inodeId)
                 .(fds := r.fds[i := r.fds[i].(handleCount := 0, inodeId := -1)]);
        assert FdTargets(BreakOne(r, n)) == FdTargets(s);
      } else {
        assert FdTargets(BreakOne(r, n)) == FdTargets(r);
      }
    } else {
      assert FdTargets(BreakOne(r, n)) == FdTargets(r);
    }
  }

  lemma BreakOneStep(t: Tables, r: Tables, n: nat)
    requires Counted(t) && Settled(t) && Broken(t, r, n) && n < |t.handles|
    ensures Broken(t, BreakOne(r, n), n + 1)
  {
    BreakOneCounts(t, r, n);
    var q, i := BreakOne(r, n), FdOf(r, n);
    if t.handles[n].useCount > 0 { TargetInUse(t, n); }
    assert i >= 0 ==> q.fds[i].handleCount == 0;
    forall m | 0 <= m < |t.fds| && m != i ensures q.fds[m] == r.fds[m] {}
  }

  lemma BrokenFrees(t: Tables, r: Tables)
    requires Counted(t) && Settled(t) && Broken(t, r, |t.handles|)
    ensures AllFree(r) && Consistent(r) && Settled(r)
  {
    forall i | 0 <= i < |t.fds| ensures r.fds[i].handleCount == 0 && r.fds[i].inodeId == -1 {
      if t.fds[i].handleCount > 0 {
        assert i in multiset(HandleTargets(t));
        var k :| 0 <= k < |t.handles| && HandleTargets(t)[k] == i;
        assert HandleTarget(t.handles[k]) == i;
      }
    }
    forall i | 0 <= i < |t.fds| ensures multiset(HandleTargets(r))[i] == 0 && multiset(FdTargets(r))[i] == 0 {
      assert i !in HandleTargets(r) && i !in FdTargets(r);
    }
  }

  lemma AttachKeepsOpen(t: Tables, i: nat, obj: Obj, d: FileDes)
    requires Counted(t) && obj != 0 && i < |t.fds| && InodeSlot(t, obj) < |t.inodes|
    ensures forall m :: 0 <= m < |t.fds| && m != i ==>
                          OpenObject(Attach(t, i, InodeSlot(t, obj), obj, d), m) == OpenObject(t, m)
  {
    forall m | 0 <= m < |t.fds| && m != i
      ensures OpenObject(Attach(t, i, InodeSlot(t, obj), obj, d), m) == OpenObject(t, m)
    {
      AttachKeepsObjects(t, i, obj, d, m);
    }
  }

  /** `r` is `t` after a new handle and descriptor have been allocated. */
  ghost predicate NewlyAllocated(t: Tables, r: Tables, h: int) {
    && |r.handles| == |t.handles| && 0 <= h < |t.handles| && t.handles[h].useCount < 1
    && r.handles[h].useCount == 1 && FdOf(r, h) >= 0 && Allocated(t, r, FdOf(r, h))
    && r.fds[FdOf(r, h)] == NO_FILE.(handleCount := 1)
    && forall k :: 0 <= k < |t.handles| && k != h ==> r.handles[k] == t.handles[k]
  }

  lemma AttachOpens(t: Tables, r: Tables, h: int, obj: Obj, f: Flags)
    requires Counted(r) && NewlyAllocated(t, r, h) && obj != 0 && InodeSlot(r, obj) < |r.inodes|
    ensures Opened(t, Attach(r, FdOf(r, h), InodeSlot(r, obj), obj, f.Descriptor()), h, obj, f)
  {
    var q := Attach(r, FdOf(r, h), InodeSlot(r, obj), obj, f.Descriptor());
    AttachKeepsOpen(r, FdOf(r, h), obj, f.Descriptor());
    forall i | 0 <= i < |t.fds| && i != FdOf(r, h)
      ensures q.fds[i] == t.fds[i] && OpenObject(q, i) == OpenObject(t, i)
    {
    }
  }

  /** Giving the new handle back leaves everything in use as it was. */
  lemma PutHandleUndoes(t: Tables, r: Tables, h: int)
    requires NewlyAllocated(t, r, h)
    ensures SameInUse(t, HandleTables.PutHandle(r, h))
  {
  }

  lemma DupKeeps(t: Tables, h: int)
    requires Consistent(t) && Settled(t) && FdOf(t, h) >= 0 && FirstFreeHandle(t.handles, 0) < |t.handles|
    ensures Consistent(WithHandle(t, FirstFreeHandle(t.handles, 0), FdOf(t, h)))
    ensures Settled(WithHandle(t, FirstFreeHandle(t.handles, 0), FdOf(t, h)))
  {
    TargetInUse(t, h);
    WithHandleKeeps(t, FirstFreeHandle(t.handles, 0), FdOf(t, h));
  }

  class Files {
    const inode: array<Inode>
    const fd: array<FileDes>
    const handle: array<Handle>

    ghost function T(): Tables
      reads inode, fd, handle
    {
      Tables(handle[..], fd[..], inode[..])
    }

    ghost predicate Valid()
      reads inode, fd, handle
    {
      Consistent(T()) && Settled(T())
    }

    constructor (n: nat)
      ensures Valid() && T() == Fresh(n) && fresh(inode) && fresh(fd) && fresh(handle)
    {
      inode := new Inode[n](_ => Inode(0, 0));
      fd := new FileDes[n](_ => NO_FILE);
      handle := new Handle[n](_ => FREE_HANDLE);
      new;
      FreshConsistent(n);
      assert T() == Fresh(n);
    }

    /** Takes the first free handle slot. */
    method NewHandle() returns (k: int)
      modifies handle
      ensures var free := FirstFreeHandle(old(T()).handles, 0);
              if free == |old(T()).handles| then k == -1 && T() == old(T())
              else k == free && T() == old(T()).(handles := old(T()).handles[free := Handle(-1, 1)])
    {
      for i := 0 to handle.Length
        invariant FirstFreeHandle(handle[..], 0) == FirstFreeHandle(handle[..], i)
      {
        if handle[i].useCount < 1 {
          handle[i] := Handle(-1, 1);
          return i;
        }
      }
      return -1;
    }

    method NewHandleAndFileDes() returns (h: int)
      modifies handle, fd
      ensures (T(), h) == HandleTables.NewHandleAndFileDes(old(T()))
    {
      h := NewHandle();
      if h < 0 { return -1; }
      for i := 0 to fd.Length
        invariant FirstFreeFd(fd[..], 0) == FirstFreeFd(fd[..], i) && fd[..] == old(fd[..])
        invariant 0 <= h < handle.Length && handle[..] == old(handle[..])[h := Handle(-1, 1)]
      {
        if fd[i].handleCount < 1 {
          fd[i] := NO_FILE.(handleCount := 1);
          handle[h] := handle[h].(fdId := i);
          assert handle[..] == old(handle[..])[h := Handle(i, 1)];
          return;
        }
      }
      // the handle is dumped because there is no descriptor for it
      handle[h] := handle[h].(useCount := 0);
      assert handle[..] == old(handle[..])[h := Handle(-1, 0)];
      h := -1;
    }

    method PutInode(id: int)
      modifies inode
      ensures T() == HandleTables.PutInode(old(T()), id)
    {
      if 0 <= id < inode.Length {
        inode[id] := inode[id].(count := inode[id].count - 1);
        if inode[id].count <= 0 {
          inode[id] := Inode(0, 0);
        }
      }
    }

    method PutFileDes(id: int)
      modifies inode, fd
      ensures T() == HandleTables.PutFileDes(old(T()), id)
    {
      if 0 <= id < fd.Length {
        fd[id] := fd[id].(handleCount := fd[id].handleCount - 1);
        if fd[id].handleCount < 1 && fd[id].inodeId >= 0 {
          PutInode(fd[id].inodeId);
          fd[id] := fd[id].(inodeId := -1);
        }
      }
    }

    method PutHandle(h: int)
      modifies inode, fd, handle
      ensures T() == HandleTables.PutHandle(old(T()), h)
    {
      if 0 <= h < handle.Length && handle[h].useCount > 0 {
        handle[h] := handle[h].(useCount := handle[h].useCount - 1);
        if handle[h].useCount < 1 {
          PutFileDes(handle[h].fdId);
          handle[h] := handle[h].(fdId := -1);
        }
      }
    }

    /** Protects a handle while it is read or written through. */
    method GetHandle(h: int) returns (ok: bool)
      requires Valid()
      modifies handle
      ensures Valid()
      ensures ok <==> 0 <= h < handle.Length && old(handle[..])[h].useCount > 0
      ensures T() == if ok
                     then var x := old(T()).handles[h];
                          old(T()).(handles := old(T()).handles[h := x.(useCount := x.useCount + 1)])
                     else old(T())
    {
      if 0 <= h < handle.Length && handle[h].useCount > 0 {
        UseKeeps(T(), h, handle[h].useCount + 1);
        handle[h] := handle[h].(useCount := handle[h].useCount + 1);
        assert handle[..] == old(handle[..])[h := old(handle[h]).(useCount := old(handle[h]).useCount + 1)];
        return true;
      }
      return false;
    }

    method FindInode(obj: Obj) returns (j: int)
      ensures var k := FirstWithObject(T().inodes, obj, 0);
              j == if k < inode.Length then k else -1
    {
      for i := 0 to inode.Length
        invariant FirstWithObject(inode[..], obj, 0) == FirstWithObject(inode[..], obj, i)
      {
        if inode[i].obj == obj { return i; }
      }
      return -1;
    }

    /** Takes a reference to the slot of an object, or to an empty slot. */
    method GetInodeIdForObject(obj: Obj) returns (j: int)
      modifies inode
      ensures var k := InodeSlot(old(T()), obj);
              if k == inode.Length then j == -1 && T() == old(T())
              else
                && j == k
                && T() == old(T()).(inodes := old(T()).inodes[k :=
                            Inode(obj, (if old(T()).inodes[k].obj == 0 then 0 else old(T()).inodes[k].count) + 1)])
    {
      j := FindInode(obj);
      if j < 0 {
        j := FindInode(0);
      }
      if j >= 0 {
        if inode[j].obj == 0 {
          inode[j] := inode[j].(count := 0);
        }
        inode[j] := Inode(obj, inode[j].count + 1);
      }
    }

    /** Points a handle that has just been taken at a descriptor. */
    method Refer(k: nat, i: nat, ghost t: Tables)
      requires k < |t.handles| && i < |t.fds| && T() == t.(handles := t.handles[k := Handle(-1, 1)])
      modifies handle, fd
      ensures T() == WithHandle(t, k, i)
    {
      assert handle[..][k] == Handle(-1, 1);
      handle[k] := handle[k].(fdId := i);
      fd[i] := fd[i].(handleCount := fd[i].handleCount + 1);
      assert handle[..] == t.handles[k := Handle(i, 1)];
      assert fd[..] == WithHandle(t, k, i).fds;
    }

    /** A second handle on the same descriptor. */
    method Dup(h: int) returns (k: int, err: Error)
      requires Valid()
      modifies handle, fd
      ensures Valid()
      ensures var t, free := old(T()), FirstFreeHandle(old(T()).handles, 0);
              if FdOf(t, h) < 0 then k == -1 && err == EBADF && T() == t
              else if free == |t.handles| then k == -1 && err == ENOMEM && T() == t
              else k == free && err == None && T() == WithHandle(t, free, FdOf(t, h))
    {
      ghost var t := T();
      if 0 <= h < handle.Length && handle[h].useCount > 0 && 0 <= handle[h].fdId < fd.Length {
        var i := handle[h].fdId;
        if FirstFreeHandle(t.handles, 0) < |t.handles| { DupKeeps(t, h); }
        k := NewHandle();
        if k < 0 { return -1, ENOMEM; }
        Refer(k, i, t);
        err := None;
      } else {
        k, err := -1, EBADF;
      }
    }

    /** The scan of the open descriptors of `obj` at open time. */
    method SharingAllows(obj: Obj, d: FileDes) returns (ok: bool)
      requires InRange(T()) && obj != 0
      ensures ok <==> MayShare(T(), obj, d)
    {
      ghost var t := T();
      var readAllowed, writeAllowed, reading, writing := true, true, false, false;
      for i := 0 to fd.Length
        invariant ScannedRead(t, obj, i, readAllowed, reading)
        invariant ScannedWrite(t, obj, i, writeAllowed, writing)
      {
        if fd[i].handleCount > 0 && fd[i].inodeId >= 0 && inode[fd[i].inodeId].obj == obj {
          if !fd[i].shareRead { readAllowed := false; }
          if !fd[i].shareWrite { writeAllowed := false; }
          if fd[i].reading { reading := true; }
          if fd[i].writing { writing := true; }
        }
      }
      ok := !((!readAllowed && d.reading) || (!d.shareRead && reading)
              || (!writeAllowed && d.writing) || (!d.shareWrite && writing));
    }

    method Close(h: int) returns (err: Error)
      requires Valid()
      modifies inode, fd, handle
      ensures Valid()
      ensures if ObjectOf(old(T()), h) == 0 then err == EBADF && T() == old(T())
              else err == None && T() == HandleTables.PutHandle(old(T()), h)
    {
      if ObjectOfHandle(h) == 0 { return EBADF; }
      PutHandleKeeps(T(), h);
      PutHandle(h);
      return None;
    }

    function ObjectOfHandle(h: int): (o: Obj)
      reads inode, fd, handle
      ensures o == ObjectOf(T(), h)
    {
      if 0 <= h < handle.Length && handle[h].useCount > 0 && 0 <= handle[h].fdId < fd.Length
         && fd[handle[h].fdId].handleCount > 0 && 0 <= fd[handle[h].fdId].inodeId < inode.Length
      then inode[fd[handle[h].fdId].inodeId].obj else 0
    }

    method BreakHandle(n: nat)
      requires n < handle.Length
      modifies inode, fd, handle
      ensures T() == BreakOne(old(T()), n)
    {
      var d := if handle[n].useCount > 0 && 0 <= handle[n].fdId < fd.Length then handle[n].fdId else -1;
      var obj := ObjectOfHandle(n);
      if handle[n].useCount > 0 {
        handle[n] := Handle(0, 0);
      }
      if d >= 0 && fd[d].handleCount > 0 && obj != 0 {
        fd[d] := fd[d].(handleCount := 0);
        PutInode(fd[d].inodeId);
        fd[d] := fd[d].(inodeId := -1);
      }
    }

    /** Forced unmount of the only device: every handle is cut off and everything it held is let go. */
    method BreakDeviceHandles()
      requires Valid()
      modifies inode, fd, handle
      ensures Valid() && AllFree(T())
    {
      ghost var t := T();
      for n := 0 to handle.Length
        invariant Broken(t, T(), n)
      {
        BreakOneStep(t, T(), n);
        BreakHandle(n);
      }
      BrokenFrees(t, T());
    }

    /** Decides an open call, in the order of the checks: directory, exclusive creation, permissions,
        read-only device, sharing; then, if there is no object, the missing directory or the creation. */
    method Decide(look: Lookup, f: Flags) returns (obj: Obj, err: Error)
      requires InRange(T())
      ensures (obj, err) == Decision(T(), look, f)
      ensures forall e :: err == e <==> Refuses(T(), look, f, e)
      ensures obj == if err != None then 0 else if look.existing != 0 then look.existing else look.created
      ensures obj != 0 <==> err == None
    {
      DecisionFits(T(), look, f);
      err := None;
      obj := look.existing;
      var denied := false;
      if obj != 0 {
        if look.isDirectory {
          denied, err := true, EISDIR;
        }
        if err == None && f.creat && f.excl {
          denied, err := true, EEXIST;
        }
        if (f.Reads() && !look.readable) || (f.Writes() && !look.writable) {
          denied := true;
        }
        if err == None && f.Writes() && look.readOnly {
          denied, err := true, EROFS;
        }
        if denied && err == None {
          err := EACCES;
        }
        if !denied {
          var ok := SharingAllows(obj, f.Descriptor());
          if !ok { denied, err := true, EBUSY; }
        }
      }
      if obj == 0 && err == None {
        if !look.dirFound && look.notDir { err := ENOTDIR; }
        else if look.loop { err := ELOOP; }
        else if !look.dirFound { err := ENOENT; }
      }
      if obj == 0 && look.dirFound && err == None && f.creat {
        if look.readOnly { err := EROFS; } else { obj := look.created; }
        if obj == 0 && err == None { err := ENOSPC; }
      }
      if obj == 0 && look.dirFound && err == None && !f.creat {
        err := ENOENT;
      }
      if denied { obj := 0; }
    }

    /** Hooks a new descriptor to its object. */
    method AttachObject(i: nat, obj: Obj, d: FileDes)
      requires Consistent(T()) && obj != 0 && i < fd.Length && fd[i].handleCount > 0 && fd[i].inodeId == -1
      requires MayShare(T(), obj, d)
      requires forall m :: 0 <= m < |T().fds| && m != i && T().fds[m].handleCount > 0 ==> T().fds[m].inodeId >= 0
      modifies inode, fd
      ensures Valid() && InodeSlot(old(T()), obj) < |old(T()).inodes|
      ensures T() == Attach(old(T()), i, InodeSlot(old(T()), obj), obj, d) && OpenObject(T(), i) == obj
    {
      AttachKeeps(T(), i, obj, d);
      SetAttached(i, obj, d);
    }

    /** The slot that holds the object or is to hold it counts one more, and the descriptor refers to it. */
    method SetAttached(i: nat, obj: Obj, d: FileDes)
      requires i < fd.Length && InodeSlot(T(), obj) < |T().inodes|
      modifies inode, fd
      ensures T() == Attach(old(T()), i, InodeSlot(old(T()), obj), obj, d)
    {
      var j := GetInodeIdForObject(obj);
      fd[i] := d.(inodeId := j, handleCount := fd[i].handleCount);
    }

    /** The new handle and descriptor of an open call. */
    method Allocate() returns (h: int)
      requires Valid()
      modifies handle, fd
      ensures Consistent(T()) && (h < 0 <==> FirstFreeHandle(old(T()).handles, 0) == |old(T()).handles|)
      ensures h < 0 ==> T() == old(T())
      ensures h >= 0 ==> NewlyAllocated(old(T()), T(), h)
    {
      NewHandleAndFileDesKeeps(T());
      h := NewHandleAndFileDes();
    }

    /** The open call goes through. */
    method Hook(h: int, obj: Obj, f: Flags, ghost t: Tables)
      requires Consistent(T()) && Settled(t) && NewlyAllocated(t, T(), h) && obj != 0
      requires MayShare(T(), obj, f.Descriptor())
      modifies inode, fd
      ensures Valid() && Opened(t, T(), h, obj, f)
    {
      ghost var r := T();
      var i := handle[h].fdId;
      assert FdOf(r, h) == i;
      AttachObject(i, obj, f.Descriptor());
      AttachOpens(t, r, h, obj, f);
    }

    /** The open call fails: the new handle is given back. */
    method GiveBack(h: int, ghost t: Tables)
      requires Consistent(T()) && Settled(t) && NewlyAllocated(t, T(), h)
      modifies inode, fd, handle
      ensures Valid() && SameInUse(t, T())
    {
      PutHandleKeeps(T(), h);
      PutHandleUndoes(t, T(), h);
      PutHandle(h);
    }

    /** Opens a file in a sharing mode. The path lookup is a parameter. */
    method OpenSharing(look: Lookup, f: Flags) returns (h: int, err: Error)
      requires Valid()
      requires look.created != 0 ==> forall m :: 0 <= m < |T().fds| ==> OpenObject(T(), m) != look.created
      modifies inode, fd, handle
      ensures Valid()
      ensures forall e :: err == e <==> FailsWith(old(T()), look, f, e)
      ensures err == None ==>
                && 0 <= h < |T().handles| && T().handles[h].useCount == 1 && 0 <= T().handles[h].fdId < |T().fds|
                && var d := T().fds[T().handles[h].fdId];
                   && 0 <= d.inodeId < |T().inodes| && d.position == 0
                   && T().inodes[d.inodeId].obj == (if look.existing != 0 then look.existing else look.created)
                   && (d.reading <==> f.rw == 0 || f.rw == 2) && (d.writing <==> f.rw == 1 || f.rw == 2)
                   && d.shareRead == f.shareRead && d.shareWrite == f.shareWrite && d.append == f.append
      ensures err == None ==>
                Opened(old(T()), T(), h, if look.existing != 0 then look.existing else look.created, f)
      ensures err != None ==> h == -1 && SameInUse(old(T()), T())
    {
      ghost var t := T();
      h, err := AllocateAndOpen(look, f);
      OutcomeFits(t, look, f);
      if err == None {
        OpenedAsAsked(t, T(), h, OpenOutcome(t, look, f).0, f);
      }
    }

    /** Takes a handle, and either hooks the object to it or gives it back. */
    method AllocateAndOpen(look: Lookup, f: Flags) returns (h: int, err: Error)
      requires Valid()
      requires look.created != 0 ==> forall m :: 0 <= m < |T().fds| ==> OpenObject(T(), m) != look.created
      modifies inode, fd, handle
      ensures Valid()
      ensures err == OpenOutcome(old(T()), look, f).1
      ensures err == None ==> OpenOutcome(old(T()), look, f).0 != 0
      ensures if err == None then Opened(old(T()), T(), h, OpenOutcome(old(T()), look, f).0, f)
              else h == -1 && SameInUse(old(T()), T())
    {
      ghost var t := T();
      h := Allocate();
      if h < 0 { return -1, ENFILE; }
      var obj;
      obj, err := Decide(look, f);
      DecisionCarriesOver(t, T(), h, look, f);
      if err == None {
        Hook(h, obj, f, t);
      } else {
        GiveBack(h, t);
        h := -1;
      }
    }
  }

  /** The new descriptor reads and writes as the access part of the flags says, and shares as asked for. */
  lemma OpenedAsAsked(t: Tables, r: Tables, h: int, obj: Obj, f: Flags)
    requires Opened(t, r, h, obj, f) && obj != 0 && HandleCountsExact(r) && InRange(r)
    ensures 0 <= h < |r.handles| && r.handles[h].useCount == 1 && 0 <= r.handles[h].fdId < |r.fds|
    ensures var d := r.fds[r.handles[h].fdId];
            && 0 <= d.inodeId < |r.inodes| && d.position == 0 && r.inodes[d.inodeId].obj == obj
            && (d.reading <==> f.rw == 0 || f.rw == 2) && (d.writing <==> f.rw == 1 || f.rw == 2)
            && d.shareRead == f.shareRead && d.shareWrite == f.shareWrite && d.append == f.append
  {
  }

  /** The new descriptor makes no difference to what may be opened, and a new file may. */
  lemma DecisionCarriesOver(t: Tables, r: Tables, h: int, look: Lookup, f: Flags)
    requires NewlyAllocated(t, r, h)
    requires look.created != 0 ==> forall m :: 0 <= m < |t.fds| ==> OpenObject(t, m) != look.created
    ensures look.existing != 0 ==>
              (MayShare(t, look.existing, f.Descriptor()) <==> MayShare(r, look.existing, f.Descriptor()))
    ensures look.created != 0 ==> MayShare(r, look.created, f.Descriptor())
  {
    if look.existing != 0 { SameSharing(t, r, FdOf(r, h), look.existing, f.Descriptor()); }
    if look.created != 0 { NewObjectMayShare(t, r, FdOf(r, h), look.created, f.Descriptor()); }
  }
}

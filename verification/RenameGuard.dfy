/** Renaming keeps the directory tree a tree: the guard refuses exactly the moves that would cut a
    directory off from its root. */
module RenameGuard {
  import opened Basics

  type Obj = int
  type Device = int

  datatype Error = ENOTDIR | ELOOP | EINVAL | ENOENT | EROFS | ENOTEMPTY | EXDEV

  /** What the two paths resolve to; `dotName` says that the old name is ".". */
  datatype Lookups = Lookups(
    oldDir: Option<Obj>, newDir: Option<Obj>, obj: Option<Obj>, newObj: Option<Obj>,
    notOldDir: bool, notNewDir: bool, oldLoop: bool, newLoop: bool, dotName: bool)

  datatype Outcome = Renamed | Refused(error: Error) | LowerLayerFailed

  /** The way up from `p[0]`: each object is followed by its parent, and the last one has none. */
  ghost predicate WayUp(parent: map<Obj, Obj>, p: seq<Obj>) {
    && |p| > 0
    && (forall i :: 0 <= i < |p| - 1 ==> p[i] in parent && p[i + 1] == parent[p[i]])
    && p[|p| - 1] !in parent
  }

  ghost predicate ReachesRoot(parent: map<Obj, Obj>, o: Obj) {
    exists p :: WayUp(parent, p) && p[0] == o
  }

  /** `a` is `o` or one of the directories above it. */
  ghost predicate Above(parent: map<Obj, Obj>, a: Obj, o: Obj) {
    exists p :: WayUp(parent, p) && p[0] == o && a in p
  }

  lemma WayUpTail(parent: map<Obj, Obj>, p: seq<Obj>, i: nat)
    requires WayUp(parent, p) && i < |p|
    ensures WayUp(parent, p[i..])
  {
    var q := p[i..];
    forall j | 0 <= j < |q| - 1 ensures q[j] in parent && q[j + 1] == parent[q[j]] {
      assert p[i + j] in parent && p[i + j + 1] == parent[p[i + j]];
    }
  }

  lemma {:induction false} WayUpUnique(parent: map<Obj, Obj>, p: seq<Obj>, q: seq<Obj>)
    requires WayUp(parent, p) && WayUp(parent, q) && p[0] == q[0]
    ensures p == q
    decreases |p|
  {
    if |p| > 1 {
      assert p[0] in parent && p[1] == parent[p[0]];
      assert |q| > 1 && q[1] == parent[q[0]];
      WayUpTail(parent, p, 1);
      WayUpTail(parent, q, 1);
      WayUpUnique(parent, p[1..], q[1..]);
      assert p == [p[0]] + p[1..] && q == [q[0]] + q[1..];
    }
  }

  /** The way up does not come back to where it began. */
  lemma WayUpOnce(parent: map<Obj, Obj>, p: seq<Obj>, i: nat)
    requires WayUp(parent, p) && 0 < i < |p|
    ensures p[i] != p[0]
  {
    WayUpTail(parent, p, i);
    if p[i] == p[0] {
      WayUpUnique(parent, p[i..], p);
    }
  }

  /** Away from the moved object nothing changes. */
  lemma WayUpKept(parent: map<Obj, Obj>, p: seq<Obj>, o: Obj, dir: Obj)
    requires WayUp(parent, p) && o !in p
    ensures WayUp(parent[o := dir], p)
  {
    forall i | 0 <= i < |p| - 1 ensures p[i] in parent[o := dir] && p[i + 1] == parent[o := dir][p[i]] {
      assert p[i] in p;
    }
  }

  /** An object without children is on nobody's way up but its own. */
  lemma WayUpWithout(parent: map<Obj, Obj>, p: seq<Obj>, leaf: Obj)
    requires WayUp(parent, p) && p[0] != leaf && forall y :: y in parent ==> parent[y] != leaf
    ensures WayUp(parent - {leaf}, p)
  {
    forall i | 0 < i < |p| ensures p[i] != leaf {
      var y := p[i - 1];
      assert y in parent && p[i] == parent[y];
    }
  }

  /** Moving `o` into a directory that is not below it leaves everything connected to a root. */
  lemma MoveKeepsTree(parent: map<Obj, Obj>, o: Obj, dir: Obj, x: Obj)
    requires ReachesRoot(parent, x) && ReachesRoot(parent, dir) && !Above(parent, o, dir)
    ensures ReachesRoot(parent[o := dir], x)
  {
    var p :| WayUp(parent, p) && p[0] == x;
    var q :| WayUp(parent, q) && q[0] == dir;
    var moved := parent[o := dir];
    WayUpKept(parent, q, o, dir);
    if o in p {
      var i :| 0 <= i < |p| && p[i] == o;
      WayUpTail(parent, p, i);
      forall j | 0 <= j < i ensures p[j] != o {
        WayUpTail(parent, p, j);
        WayUpOnce(parent, p[j..], i - j);
      }
      var r := p[..i + 1] + q;
      forall j | 0 <= j < |r| - 1 ensures r[j] in moved && r[j + 1] == moved[r[j]] {
        if j < i {
          assert p[j] in parent && p[j + 1] == parent[p[j]];
        } else if j > i {
          assert q[j - i - 1] in moved && q[j - i] == moved[q[j - i - 1]];
        }
      }
      assert WayUp(moved, r) && r[0] == x;
    } else {
      WayUpKept(parent, p, o, dir);
    }
  }

  /** Moving `o` into itself or into a directory below it cuts it off. */
  lemma MoveBelowCutsOff(parent: map<Obj, Obj>, o: Obj, dir: Obj)
    requires Above(parent, o, dir)
    ensures !ReachesRoot(parent[o := dir], o)
  {
    var q :| WayUp(parent, q) && q[0] == dir && o in q;
    var k :| 0 <= k < |q| && q[k] == o;
    forall j | 0 <= j < k ensures q[j] != o {
      WayUpTail(parent, q, j);
      WayUpOnce(parent, q[j..], k - j);
    }
    if ReachesRoot(parent[o := dir], o) {
      var p :| WayUp(parent[o := dir], p) && p[0] == o;
      RoundAndBack(parent, o, dir, q, k, p);
      WayUpOnce(parent[o := dir], p, k + 1);
    }
  }

  lemma RoundAndBack(parent: map<Obj, Obj>, o: Obj, dir: Obj, q: seq<Obj>, k: nat, p: seq<Obj>)
    requires WayUp(parent, q) && q[0] == dir && k < |q| && q[k] == o && (forall j :: 0 <= j < k ==> q[j] != o)
    requires WayUp(parent[o := dir], p) && p[0] == o
    ensures k + 1 < |p| && p[k + 1] == o
  {
    var moved := parent[o := dir];
    var i := 0;
    assert |p| > 1 && p[1] == moved[p[0]];
    while i < k
      invariant i <= k && i + 1 < |p| && p[i + 1] == q[i]
    {
      assert q[i] in parent && q[i + 1] == parent[q[i]];
      assert p[i + 1] in moved;
      assert p[i + 2] == moved[p[i + 1]];
      i := i + 1;
    }
  }

  /** The objects of all mounted devices. */
  class Tree {
    var parent: map<Obj, Obj>       // a root has no parent
    var objects: set<Obj>
    const dirs: set<Obj>
    const device: map<Obj, Device>

    /** Every object leads up to a root through directories of its own device. */
    ghost predicate Valid()
      reads this
    {
      && parent.Keys <= objects && objects <= device.Keys
      && (forall o :: o in parent ==> parent[o] in objects && parent[o] in dirs && device[parent[o]] == device[o])
      && (forall o :: o in objects ==> ReachesRoot(parent, o))
    }

    /** A device that has just been mounted: its root and nothing else. */
    constructor (root: Obj, dirs: set<Obj>, device: map<Obj, Device>)
      requires root in dirs && root in device
      ensures Valid() && this.dirs == dirs && this.device == device && objects == {root} && parent == map[]
    {
      this.dirs, this.device, objects, parent := dirs, device, {root}, map[];
      new;
      assert WayUp(parent, [root]);
    }

    predicate IsNonEmptyDir(o: Option<Obj>)
      reads this
    {
      o.Some? && o.value in dirs && exists x :: x in parent && parent[x] == o.value
    }

    /** The walk from the new directory up to the root, looking for the object to be moved. */
    method NotBelow(o: Obj, dir: Obj) returns (allowed: bool)
      requires ReachesRoot(parent, dir)
      ensures allowed <==> !Above(parent, o, dir)
    {
      ghost var p :| WayUp(parent, p) && p[0] == dir;
      ghost var i := 0;
      allowed := true;
      var xx := Some(dir);
      while allowed && xx.Some?
        invariant i <= |p| && (xx.Some? ==> i < |p| && xx.value == p[i]) && (xx.None? ==> i == |p| || !allowed)
        invariant allowed <==> o !in p[..i]
        decreases |p| - i
      {
        if xx.value == o { allowed := false; }
        assert i + 1 < |p| ==> p[i] in parent && p[i + 1] == parent[p[i]];
        xx := if xx.value in parent then Some(parent[xx.value]) else None;
        i := i + 1;
      }
      if allowed {
        assert p[..i] == p;
        forall q | WayUp(parent, q) && q[0] == dir ensures o !in q {
          WayUpUnique(parent, p, q);
        }
      }
    }

    /** Only directories are above anything but themselves. */
    lemma NoDirNotAbove(o: Obj, dir: Obj)
      requires Valid() && dir in dirs && o !in dirs
      ensures !Above(parent, o, dir)
    {
      forall p | WayUp(parent, p) && p[0] == dir ensures o !in p {
        forall i | 0 < i < |p| ensures p[i] in dirs {
          var y := p[i - 1];
          assert y in parent && p[i] == parent[y];
        }
      }
    }

    /** An object without children can go. */
    lemma LeafGoes(leaf: Obj, x: Obj)
      requires ReachesRoot(parent, x) && x != leaf && forall y :: y in parent ==> parent[y] != leaf
      ensures ReachesRoot(parent - {leaf}, x)
    {
      var p :| WayUp(parent, p) && p[0] == x;
      WayUpWithout(parent, p, leaf);
    }

    /** Takes out the object that had the new name, if the lower layer replaces it. */
    method Replace(leaf: Obj)
      requires Valid() && leaf in objects && forall y :: y in parent ==> parent[y] != leaf
      modifies this
      ensures Valid() && parent == old(parent) - {leaf} && objects == old(objects) - {leaf}
    {
      forall x | x in objects && x != leaf ensures ReachesRoot(parent - {leaf}, x) {
        LeafGoes(leaf, x);
      }
      parent, objects := parent - {leaf}, objects - {leaf};
    }

    /** Moves an object to its new directory. */
    method Reparent(o: Obj, dir: Obj)
      requires Valid() && o in objects && dir in objects && dir in dirs && device[o] == device[dir]
      requires !Above(parent, o, dir)
      modifies this`parent
      ensures Valid() && parent == old(parent)[o := dir]
    {
      forall x | x in objects ensures ReachesRoot(parent[o := dir], x) {
        MoveKeepsTree(parent, o, dir, x);
      }
      parent := parent[o := dir];
    }

    /** What the lookups of the two paths can have found: objects, the first one in its directory or that
        directory itself. */
    ghost predicate Found(l: Lookups)
      reads this
    {
      && objects <= device.Keys
      && (l.oldDir.Some? ==> l.oldDir.value in objects)
      && (l.newDir.Some? ==> l.newDir.value in objects && l.newDir.value in dirs)
      && (l.obj.Some? ==> l.obj.value in objects)
      && (l.newObj.Some? ==> l.newObj.value in objects)
      && (l.obj.Some? && l.oldDir.Some? ==> device[l.obj.value] == device[l.oldDir.value])
    }

    /** Which check refuses a rename: the first one that fails. */
    ghost predicate FailsWith(l: Lookups, readOnly: set<Device>, e: Error)
      requires Found(l)
      reads this
    {
      var noDir := (l.oldDir.None? && l.notOldDir) || (l.newDir.None? && l.notNewDir);
      var loop := l.oldLoop || l.newLoop;
      var dot := l.oldDir.Some? && l.oldDir != l.obj && l.dotName;
      var missing := l.oldDir.None? || l.newDir.None? || l.obj.None?;
      match e
      case ENOTDIR => noDir
      case ELOOP => !noDir && loop
      case ENOENT => !noDir && !loop && !dot && missing
      case EROFS => !noDir && !loop && !dot && !missing && device[l.obj.value] in readOnly
      case ENOTEMPTY =>
        !noDir && !loop && !dot && !missing && device[l.obj.value] !in readOnly && IsNonEmptyDir(l.newObj)
      case EXDEV =>
        && !noDir && !loop && !dot && !missing && device[l.obj.value] !in readOnly && !IsNonEmptyDir(l.newObj)
        && device[l.oldDir.value] != device[l.newDir.value]
      case EINVAL =>
        && !noDir && !loop
        && (dot
            || (&& !missing && device[l.obj.value] !in readOnly && !IsNonEmptyDir(l.newObj)
                && device[l.oldDir.value] == device[l.newDir.value]
                && Above(parent, l.obj.value, l.newDir.value)))
    }

    /** A rename is allowed iff no check fails, and no two errors are due at once. */
    lemma OneReason(l: Lookups, readOnly: set<Device>)
      requires Found(l)
      ensures Allowed(l, readOnly) <==> forall e :: !FailsWith(l, readOnly, e)
      ensures forall e, e' :: FailsWith(l, readOnly, e) && FailsWith(l, readOnly, e') ==> e == e'
    {
      if forall e :: !FailsWith(l, readOnly, e) {
        assert !FailsWith(l, readOnly, ENOTDIR) && !FailsWith(l, readOnly, ELOOP) && !FailsWith(l, readOnly, EINVAL);
        assert !FailsWith(l, readOnly, ENOENT) && !FailsWith(l, readOnly, EROFS);
        assert !FailsWith(l, readOnly, ENOTEMPTY) && !FailsWith(l, readOnly, EXDEV);
      }
    }

    /** When a rename is handed to the lower layer. */
    ghost predicate Allowed(l: Lookups, readOnly: set<Device>)
      requires Found(l)
      reads this
    {
      && l.oldDir.Some? && l.newDir.Some? && l.obj.Some?
      && !l.oldLoop && !l.newLoop && (l.dotName ==> l.oldDir == l.obj)
      && device[l.obj.value] !in readOnly && !IsNonEmptyDir(l.newObj)
      && device[l.oldDir.value] == device[l.newDir.value]
      && !Above(parent, l.obj.value, l.newDir.value)
    }

    /** `overwrites` and `lowerOk` stand for the lower layer: whether it succeeds, and whether it removes the
        object that the new directory holds under the new name. */
    method Rename(l: Lookups, readOnly: set<Device>, overwrites: bool, lowerOk: bool) returns (outcome: Outcome)
      requires Valid() && Found(l)
      requires overwrites ==> l.newObj.Some? && l.newDir.Some? && l.newObj != l.obj && l.newObj.value in parent
      requires overwrites ==> parent[l.newObj.value] == l.newDir.value
      modifies this
      ensures Valid()
      ensures outcome == Renamed <==> old(Allowed(l, readOnly)) && lowerOk
      ensures outcome == LowerLayerFailed <==> old(Allowed(l, readOnly)) && !lowerOk
      ensures forall e :: outcome == Refused(e) <==> old(FailsWith(l, readOnly, e))
      ensures outcome.Renamed? ==>
                && parent == (if overwrites then old(parent) - {l.newObj.value} else old(parent))
                             [l.obj.value := l.newDir.value]
                && objects == (if overwrites then old(objects) - {l.newObj.value} else old(objects))
      ensures !outcome.Renamed? ==> parent == old(parent) && objects == old(objects)
    {
      OneReason(l, readOnly);
      var oldName := l.oldDir != l.obj;
      if (l.oldDir.None? && l.notOldDir) || (l.newDir.None? && l.notNewDir) { return Refused(ENOTDIR); }
      else if l.oldLoop || l.newLoop { return Refused(ELOOP); }
      else if l.oldDir.Some? && oldName && l.dotName { return Refused(EINVAL); }
      else if l.oldDir.None? || l.newDir.None? || l.obj.None? { return Refused(ENOENT); }
      else if device[l.obj.value] in readOnly { return Refused(EROFS); }
      else if IsNonEmptyDir(l.newObj) { return Refused(ENOTEMPTY); }
      else if device[l.oldDir.value] != device[l.newDir.value] { return Refused(EXDEV); }
      var o, dir := l.obj.value, l.newDir.value;
      if o in dirs {
        var allowed := NotBelow(o, dir);
        if !allowed { return Refused(EINVAL); }
      } else {
        NoDirNotAbove(o, dir);
      }
      if !lowerOk { return LowerLayerFailed; }
      if overwrites {
        NotAboveWithout(parent, l.newObj.value, o, dir);
        Replace(l.newObj.value);
      }
      Reparent(o, dir);
      return Renamed;
    }
  }

  lemma NotAboveWithout(parent: map<Obj, Obj>, leaf: Obj, o: Obj, dir: Obj)
    requires ReachesRoot(parent, dir) && !Above(parent, o, dir)
    requires dir != leaf && forall y :: y in parent ==> parent[y] != leaf
    ensures !Above(parent - {leaf}, o, dir)
  {
    var p :| WayUp(parent, p) && p[0] == dir;
    WayUpWithout(parent, p, leaf);
    forall q | WayUp(parent - {leaf}, q) && q[0] == dir ensures o !in q {
      WayUpUnique(parent - {leaf}, p, q);
    }
  }
}

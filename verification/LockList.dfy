/** The lock list: all lock records, doubly linked and sorted by inode, with the shared records of a file
    linked to each other. */
module LockList {
  import opened Basics
  import opened Protocol
  import opened Storage

  /** A lock record. */
  class FileLock {
    const inode: File
    const mode: Mode
    const parentTxn: TxnId
    var next: FileLock?
    var prev: FileLock?
    var nextShared: FileLock?
    var prevShared: FileLock?

    constructor (inode: File, mode: Mode, parentTxn: TxnId)
      ensures this.inode == inode && this.mode == mode && this.parentTxn == parentTxn
      ensures next == null && prev == null && nextShared == null && prevShared == null
    {
      this.inode, this.mode, this.parentTxn := inode, mode, parentTxn;
      next, prev, nextShared, prevShared := null, null, null, null;
    }
  }

  /** The first record of the list has itself as its predecessor. */
  ghost predicate Chained(list: seq<FileLock>, i: int)
    requires 0 <= i < |list|
    reads list[i]
  {
    && list[i].next == (if i + 1 < |list| then list[i + 1] else null)
    && list[i].prev == (if i > 0 then list[i - 1] else list[0])
  }

  /** The records of one file stand together and are linked in the same order. */
  ghost predicate Grouped(list: seq<FileLock>, i: int)
    requires 0 <= i < |list|
    reads list[i]
  {
    && list[i].nextShared == (if i + 1 < |list| && list[i + 1].inode == list[i].inode then list[i + 1] else null)
    && list[i].prevShared == (if i > 0 && list[i - 1].inode == list[i].inode then list[i - 1] else null)
  }

  ghost predicate Sorted(list: seq<FileLock>) {
    forall i, j :: 0 <= i < j < |list| ==> list[i].inode <= list[j].inode
  }

  /** A file has one exclusive record or any number of shared ones. */
  ghost predicate OneMode(list: seq<FileLock>) {
    forall i, j :: 0 <= i < j < |list| && list[i].inode == list[j].inode ==>
      list[i].mode == Shared && list[j].mode == Shared
  }

  /** How many records stand before the place of inode `f`. */
  ghost predicate PlaceOf(list: seq<FileLock>, f: File, p: int) {
    && 0 <= p <= |list|
    && (forall i :: 0 <= i < p ==> list[i].inode < f)
    && (forall i :: p <= i < |list| ==> list[i].inode >= f)
  }

  /** The search for `f` returns the record at position `k`: the first one of the file, but the second when the
      list begins with two of them. */
  ghost predicate Hits(list: seq<FileLock>, f: File, place: nat, k: nat) {
    && PlaceOf(list, f, place) && k < |list| && list[k].inode == f
    && k == if place == 0 && |list| > 1 && list[1].inode == f then 1 else place
  }

  /** Who owns the record that the search for `f` returns; `t` if there is none. */
  ghost predicate OwnerFound(list: seq<FileLock>, f: File, t: TxnId, owner: TxnId) {
    if exists r :: r in list && r.inode == f
    then exists place: nat, k: nat :: Hits(list, f, place, k) && list[k].parentTxn == owner
    else owner == t
  }

  /** `now` is `was` with at most one more record, which is of `f` and stands behind all others of `f`. */
  ghost predicate Grown(was: seq<FileLock>, now: seq<FileLock>, f: File) {
    now == was || exists p: nat :: p <= |was| && GrownAt(was, now, f, p)
  }

  ghost predicate GrownAt(was: seq<FileLock>, now: seq<FileLock>, f: File, p: nat)
    requires p <= |was|
  {
    && p < |now| && now[p].inode == f && now == Inserted(was, p, now[p])
    && (forall i :: 0 <= i < p ==> was[i].inode <= f)
    && (forall i :: p <= i < |was| ==> was[i].inode > f)
  }

  lemma InsertKeepsOrder(list: seq<FileLock>, p: nat, rec: FileLock)
    requires Distinct(list) && Sorted(list) && OneMode(list)
    requires p <= |list| && rec !in list
    requires (forall i :: 0 <= i < p ==> list[i].inode <= rec.inode)
    requires (forall i :: p <= i < |list| ==> list[i].inode > rec.inode)
    requires forall i :: 0 <= i < p && list[i].inode == rec.inode ==> list[i].mode == Shared && rec.mode == Shared
    ensures var r := Inserted(list, p, rec); Distinct(r) && Sorted(r) && OneMode(r)
  {
  }

  lemma RemoveKeepsOrder(list: seq<FileLock>, i: nat)
    requires Distinct(list) && i < |list|
    ensures Distinct(Removed(list, i)) && list[i] !in Removed(list, i)
    ensures Sorted(list) ==> Sorted(Removed(list, i))
    ensures OneMode(list) ==> OneMode(Removed(list, i))
  {
  }

  class LockList {
    var head: FileLock?
    ghost var list: seq<FileLock>

    ghost predicate Valid()
      reads this, list
    {
      && InOrder()
      && Sorted(list) && OneMode(list)
      && forall i :: 0 <= i < |list| ==> Grouped(list, i)
    }

    ghost predicate InOrder()
      reads this, list
    {
      && Distinct(list)
      && head == (if list == [] then null else list[0])
      && forall i :: 0 <= i < |list| ==> Chained(list, i)
    }

    constructor ()
      ensures Valid() && list == []
    {
      head, list := null, [];
    }

    /** Looks for a record of inode `f`. It finds one iff there is one, but not always the first: when the
        list begins with two records of the file, it is the second. When there is none, `loc` is the
        record after which a record of `f` belongs, or the first record if that one belongs after it. */
    method Search(f: File) returns (found: bool, loc: FileLock?, ghost place: nat, ghost k: nat)
      requires Valid()
      ensures PlaceOf(list, f, place)
      ensures found <==> exists r :: r in list && r.inode == f
      ensures list == [] <==> loc == null
      ensures loc != null ==> k < |list| && loc == list[k]
      ensures found ==> loc != null && loc.inode == f
      ensures found ==> k == if place == 0 && |list| > 1 && list[1].inode == f then 1 else place
      ensures !found && loc != null ==> k == if place == 0 then 0 else place - 1
    {
      k, place := 0, 0;
      if head == null { return false, null, 0, 0; }
      var foll: FileLock := head;
      var ptr := foll.next;
      assert Chained(list, 0);
      while ptr != null
        invariant k < |list| && foll == list[k] && ptr == (if k + 1 < |list| then list[k + 1] else null)
        invariant k > 0 ==> forall i :: 0 <= i <= k ==> list[i].inode < f
        decreases |list| - k
      {
        if ptr.inode >= f { break; }
        foll := ptr;
        ptr := foll.next;
        k := k + 1;
        assert Chained(list, k);
      }
      place := if foll.inode < f then k + 1 else k;
      if ptr != null && ptr.inode == f {
        k := k + 1;
        return true, ptr, place, k;
      } else if foll.inode == f {
        return true, foll, place, k;
      } else {
        return false, foll, place, k;
      }
    }

    /** Puts a record at the front of the list. */
    method LinkFirst(rec: FileLock)
      requires InOrder() && rec !in list && rec.next == null
      modifies this, rec`next, rec`prev, list
      ensures InOrder() && list == Inserted(old(list), 0, rec)
      ensures forall r :: r in list ==> r.nextShared == old(r.nextShared) && r.prevShared == old(r.prevShared)
    {
      ghost var was := list;
      if head != null {
        assert Chained(was, 0);
        rec.next := head;
        head.prev := rec;
      }
      rec.prev := rec;
      head := rec;
      list := Inserted(was, 0, rec);
      forall i | 0 <= i < |list| ensures Chained(list, i) {
        if i > 0 {
          assert old(Chained(was, i - 1));
        }
      }
    }

    /** Puts a record behind the record `loc`, which stands at position `p - 1`. */
    method LinkAfter(rec: FileLock, loc: FileLock, ghost p: nat)
      requires InOrder() && rec !in list && 0 < p <= |list| && loc == list[p - 1]
      modifies this`list, rec`next, rec`prev, list
      ensures InOrder() && list == Inserted(old(list), p, rec)
      ensures forall r :: r in list ==> r.nextShared == old(r.nextShared) && r.prevShared == old(r.prevShared)
    {
      ghost var was := list;
      assert Chained(was, p - 1);
      rec.next := loc.next;
      if loc.next != null {
        loc.next.prev := rec;
      }
      loc.next := rec;
      rec.prev := loc;
      list := Inserted(was, p, rec);
      forall i | 0 <= i < |list| ensures Chained(list, i) {
        if i < p {
          assert old(Chained(was, i));
        } else if i > p {
          assert old(Chained(was, i - 1));
        }
      }
    }

    method Link(rec: FileLock, loc: FileLock?, ghost p: nat)
      requires InOrder() && rec !in list && rec.next == null && PlaceOf(list, rec.inode, p)
      requires loc == if list == [] then null else list[if p == 0 then 0 else p - 1]
      requires forall i :: 0 <= i < |list| ==> list[i].inode != rec.inode
      modifies this, rec`next, rec`prev, list
      ensures InOrder() && list == Inserted(old(list), p, rec)
      ensures forall r :: r in list ==> r.nextShared == old(r.nextShared) && r.prevShared == old(r.prevShared)
    {
      if loc == null || (loc == head && loc.inode > rec.inode) {
        LinkFirst(rec);
      } else {
        LinkAfter(rec, loc, p);
      }
    }

    /** Puts in the first record of a file, next to the record that `Search` returned. */
    method InsertNew(rec: FileLock, loc: FileLock?, ghost p: nat)
      requires Valid() && rec !in list && PlaceOf(list, rec.inode, p) && forall r :: r in list ==> r.inode != rec.inode
      requires rec.next == null && rec.prev == null && rec.nextShared == null && rec.prevShared == null
      requires loc == if list == [] then null else list[if p == 0 then 0 else p - 1]
      modifies this, rec, list
      ensures Valid() && list == Inserted(old(list), p, rec)
    {
      ghost var was := list;
      assert forall i :: 0 <= i < |was| ==> was[i].inode != rec.inode;
      Link(rec, loc, p);
      InsertKeepsOrder(was, p, rec);
      forall i | 0 <= i < |list| ensures Grouped(list, i) {
        assert list[i] in list;
        if i < p {
          assert old(Grouped(was, i));
        } else if i > p {
          assert old(Grouped(was, i - 1));
        }
      }
    }

    /** The last record of the file of `loc`, at position `p - 1`. */
    method LastShared(loc: FileLock, ghost k: nat) returns (ptr: FileLock, ghost p: nat)
      requires Valid() && k < |list| && loc == list[k]
      ensures k < p <= |list| && ptr == list[p - 1] && ptr.inode == loc.inode
      ensures forall i :: 0 <= i < p ==> list[i].inode <= loc.inode
      ensures forall i :: p <= i < |list| ==> list[i].inode > loc.inode
    {
      ptr := loc;
      p := k + 1;
      assert Grouped(list, k);
      while ptr.nextShared != null
        invariant k < p <= |list| && ptr == list[p - 1] && ptr.inode == loc.inode
        invariant ptr.nextShared == (if p < |list| && list[p].inode == loc.inode then list[p] else null)
        decreases |list| - p
      {
        ptr := ptr.nextShared;
        assert Grouped(list, p);
        p := p + 1;
      }
    }

    /** Adds a shared record behind the last one of its file, which is found from any record of the file. */
    method JoinShared(rec: FileLock, loc: FileLock, ghost k: nat) returns (ghost p: nat)
      requires Valid() && rec !in list && k < |list| && loc == list[k] && loc.inode == rec.inode
      requires loc.mode == Shared && rec.mode == Shared && rec.nextShared == null
      modifies this`list, rec, list
      ensures p <= |old(list)| && list == Inserted(old(list), p, rec)
      ensures forall i :: 0 <= i < p ==> old(list)[i].inode <= rec.inode
      ensures forall i :: p <= i < |old(list)| ==> old(list)[i].inode > rec.inode
      ensures Valid()
    {
      ghost var was := list;
      var ptr;
      ptr, p := LastShared(loc, k);
      SharedWith(list, k);
      InsertKeepsOrder(was, p, rec);
      LinkBehind(rec, ptr, p);
      LinkShared(rec, ptr, p);
    }

    method LinkBehind(rec: FileLock, ptr: FileLock, ghost p: nat)
      requires Valid() && rec !in list && 0 < p <= |list| && ptr == list[p - 1] && ptr.inode == rec.inode
      requires p < |list| ==> list[p].inode > rec.inode
      modifies this`list, rec`next, rec`prev, list
      ensures InOrder() && list == Inserted(old(list), p, rec) && Around(list, p)
    {
      ghost var was := list;
      LinkAfter(rec, ptr, p);
      assert list[p - 1] in list && old(Grouped(was, p - 1));
      forall i | 0 <= i < p - 1 ensures Grouped(list, i) {
        assert list[i] in list && old(Grouped(was, i));
      }
      forall i | p < i < |list| ensures Grouped(list, i) {
        assert list[i] in list && old(Grouped(was, i - 1));
      }
    }

    /** What is left of the grouping when a record has been put in at `p` that is not in its group yet. */
    ghost predicate Around(s: seq<FileLock>, p: nat)
      requires 0 < p < |s|
      reads s
    {
      && (forall i :: 0 <= i < p - 1 ==> Grouped(s, i))
      && s[p - 1].prevShared == (if p > 1 && s[p - 2].inode == s[p - 1].inode then s[p - 2] else null)
      && (forall i :: p < i < |s| ==> Grouped(s, i))
    }

    method LinkShared(rec: FileLock, ptr: FileLock, ghost p: nat)
      requires InOrder() && Sorted(list) && OneMode(list) && 0 < p < |list| && rec == list[p] && ptr == list[p - 1]
      requires rec.inode == ptr.inode && rec.nextShared == null && (p + 1 < |list| ==> list[p + 1].inode > rec.inode)
      requires Around(list, p)
      modifies rec, ptr
      ensures Valid()
    {
      rec.prevShared := ptr;
      ptr.nextShared := rec;
      forall i | 0 <= i < |list| ensures Chained(list, i) {
        assert old(Chained(list, i));
      }
      forall i | 0 <= i < |list| ensures Grouped(list, i) {
        assert i < p - 1 || i > p ==> old(Grouped(list, i));
      }
    }

    /** All records of a file that has a shared record are shared. */
    lemma SharedWith(s: seq<FileLock>, k: nat)
      requires OneMode(s) && k < |s| && s[k].mode == Shared
      ensures forall i :: 0 <= i < |s| && s[i].inode == s[k].inode ==> s[i].mode == Shared
    {
    }

    /** Looks for a record of transaction `t` from `loc` on. It only sees the records that stand behind `loc`. */
    method OwnedFrom(loc: FileLock, t: TxnId, ghost k: nat) returns (owned: bool)
      requires Valid() && k < |list| && loc == list[k]
      ensures owned <==> exists i :: k <= i < |list| && list[i].inode == loc.inode && list[i].parentTxn == t
    {
      var ptr: FileLock? := loc;
      ghost var i := k;
      while ptr != null && ptr.parentTxn != t
        invariant k <= i <= |list|
        invariant ptr == (if i < |list| && list[i].inode == loc.inode then list[i] else null)
        invariant forall j :: k <= j < i ==> !(list[j].inode == loc.inode && list[j].parentTxn == t)
        decreases |list| - i
      {
        assert Grouped(list, i);
        ptr := ptr.nextShared;
        i := i + 1;
      }
      owned := ptr != null;
      if !owned && i < |list| {
        assert forall j :: i <= j < |list| ==> list[j].inode >= list[i].inode > loc.inode;
      }
    }

    /** Clears the links of a record that has left the list. */
    method Free(rec: FileLock)
      requires InOrder() && rec !in list
      modifies rec
      ensures InOrder()
    {
      ghost var l := list;
      rec.next, rec.prev, rec.nextShared, rec.prevShared := null, null, null, null;
      forall j | 0 <= j < |l| ensures Chained(l, j) {
        assert old(Chained(l, j));
      }
    }

    method UnlinkFirst(rec: FileLock)
      requires InOrder() && list != [] && rec == list[0]
      modifies this, list
      ensures InOrder() && list == Removed(old(list), 0) && rec !in list
      ensures forall r :: r in list ==> r.nextShared == old(r.nextShared) && r.prevShared == old(r.prevShared)
    {
      ghost var was := list;
      assert Chained(was, 0);
      head := rec.next;
      if rec.next != null {
        rec.next.prev := head;
      }
      list := Removed(was, 0);
      RemoveKeepsOrder(was, 0);
      forall j | 0 <= j < |list| ensures Chained(list, j) {
        assert old(Chained(was, j + 1));
      }
    }

    method UnlinkLater(rec: FileLock, ghost i: nat)
      requires InOrder() && 0 < i < |list| && rec == list[i]
      modifies this, list
      ensures InOrder() && list == Removed(old(list), i) && rec !in list
      ensures forall r :: r in list ==> r.nextShared == old(r.nextShared) && r.prevShared == old(r.prevShared)
    {
      ghost var was := list;
      assert Chained(was, i) && Chained(was, i - 1);
      if rec.next == null {
        rec.prev.next := null;
      } else {
        rec.prev.next := rec.next;
        rec.next.prev := rec.prev;
      }
      list := Removed(was, i);
      RemoveKeepsOrder(was, i);
      forall j | 0 <= j < |list| ensures Chained(list, j) {
        assert old(Chained(was, if j < i then j else j + 1));
      }
    }

    /** Takes a record out of the list. */
    method Unlink(rec: FileLock, ghost i: nat)
      requires InOrder() && i < |list| && rec == list[i]
      modifies this, list
      ensures InOrder() && list == Removed(old(list), i)
      ensures forall r :: r in list ==> r.nextShared == old(r.nextShared) && r.prevShared == old(r.prevShared)
    {
      if head == rec {
        UnlinkFirst(rec);
      } else {
        UnlinkLater(rec, i);
      }
      Free(rec);
    }

    /** Record `j`, if it is one of the file of record `i`. */
    ghost function InGroup(j: int, i: int): FileLock?
      requires 0 <= i < |list|
      reads this
    {
      if 0 <= j < |list| && list[j].inode == list[i].inode then list[j] else null
    }

    /** Takes a record out of its group: its neighbours in the group are linked to each other. */
    method Ungroup(rec: FileLock, ghost i: nat)
      requires Valid() && i < |list| && rec == list[i]
      modifies list
      ensures InOrder()
      ensures forall j :: 0 <= j < |list| && j != i && j != i - 1 ==> list[j].nextShared == old(list[j].nextShared)
      ensures forall j :: 0 <= j < |list| && j != i && j != i + 1 ==> list[j].prevShared == old(list[j].prevShared)
      ensures i > 0 ==> list[i - 1].nextShared == InGroup(i + 1, i - 1)
      ensures i + 1 < |list| ==> list[i + 1].prevShared == InGroup(i - 1, i + 1)
    {
      assert Grouped(list, i);
      assert i > 0 ==> Grouped(list, i - 1);
      assert i + 1 < |list| ==> Grouped(list, i + 1);
      if rec.prevShared != null {
        rec.prevShared.nextShared := rec.nextShared;
      }
      if rec.nextShared != null {
        rec.nextShared.prevShared := rec.prevShared;
      }
      forall j | 0 <= j < |list| ensures Chained(list, j) {
        assert old(Chained(list, j));
      }
    }

    /** Takes a record out of its group: the others are then grouped as if it had gone. */
    method Regroup(rec: FileLock, ghost i: nat)
      requires Valid() && i < |list| && rec == list[i]
      modifies list
      ensures InOrder() && forall j :: 0 <= j < |list| - 1 ==> Grouped(Removed(list, i), j)
    {
      Ungroup(rec, i);
      forall j | 0 <= j < |list| - 1 ensures Grouped(Removed(list, i), j) {
        assert old(Grouped(list, if j < i then j else j + 1));
      }
    }

    /** Takes a record out of its group and out of the list. */
    method Delete(rec: FileLock, ghost i: nat)
      requires Valid() && i < |list| && rec == list[i]
      modifies this, list
      ensures Valid() && list == Removed(old(list), i)
    {
      ghost var was := list;
      RemoveKeepsOrder(list, i);
      Regroup(rec, i);
      label regrouped:
      Unlink(rec, i);
      forall j | 0 <= j < |list| ensures Grouped(list, j) {
        assert list[j] in list && old@regrouped(Grouped(Removed(was, i), j));
      }
    }
  }
}

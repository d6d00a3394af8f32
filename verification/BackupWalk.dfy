/** The walk of the online backup over the tree: an explicit stack of paths, on which every visible directory
    and regular file is locked, copied, marked and released in turn. */
module BackupWalk {

  /** A path as the names below the root. */
  type Path = seq<string>

  /** What a path leads to. `stat` fails for a dangling link; anything else, such as a device, is skipped. */
  datatype Node =
    | Dir(inode: int, entries: seq<Entry>)
    | Regular(inode: int)
    | Special
    | Dangling

  datatype Entry = Entry(name: string, node: Node)

  datatype Event = Lock(inode: int) | Copy(inode: int) | Mark(inode: int) | Release(inode: int)

  /** The stack has 200 slots, of which the first is never used. */
  const STACK := 200

  predicate Hidden(name: string) {
    name != "" && name[0] == '.'
  }

  predicate BackedUp(n: Node) {
    n.Dir? || n.Regular?
  }

  ghost predicate UniqueNames(entries: seq<Entry>) {
    forall i, j :: 0 <= i < j < |entries| ==> entries[i].name != entries[j].name
  }

  /** Names are unique in each directory of the tree. */
  ghost predicate WellNamed(n: Node) {
    n.Dir? ==>
      && UniqueNames(n.entries)
      && (forall i :: 0 <= i < |n.entries| ==> WellNamed(n.entries[i].node))
  }

  function Child(entries: seq<Entry>, name: string): (n: Node)
    ensures n != Dangling ==> Entry(name, n) in entries
    ensures forall j :: 0 <= j < |entries| && entries[j] == Entry(name, n) ==> n < entries[j]
  {
    if entries == [] then Dangling
    else if entries[0].name == name then entries[0].node
    else Child(entries[1..], name)
  }

  /** What a path leads to from `n`. */
  function Lookup(n: Node, path: Path): Node
    decreases |path|
  {
    if path == [] then n
    else if n.Dir? then Lookup(Child(n.entries, path[0]), path[1..])
    else Dangling
  }

  /** The paths below `n` that the backup has to cover. */
  ghost predicate Visible(n: Node, path: Path) {
    BackedUp(Lookup(n, path)) && forall i :: 0 <= i < |path| ==> !Hidden(path[i])
  }

  lemma {:induction false} ChildAt(entries: seq<Entry>, k: nat)
    requires k < |entries| && UniqueNames(entries)
    ensures Child(entries, entries[k].name) == entries[k].node
  {
    if k > 0 {
      assert entries[0].name != entries[k].name;
      ChildAt(entries[1..], k - 1);
    }
  }

  lemma {:induction false} LookupAppend(n: Node, p: Path, q: Path)
    ensures Lookup(n, p + q) == Lookup(Lookup(n, p), q)
    decreases |p|
  {
    if p == [] {
      assert p + q == q;
    } else if n.Dir? {
      assert (p + q)[1..] == p[1..] + q;
      LookupAppend(Child(n.entries, p[0]), p[1..], q);
    } else {
      assert (p + q)[0] == p[0];
      if q != [] { LookupDangling(q); }
    }
  }

  lemma LookupDangling(q: Path)
    ensures Lookup(Dangling, q) == Dangling
  {
  }

  /** The order of the walk: a directory before what is in it, the entry that was pushed last first. */
  ghost function Order(p: Path, n: Node): seq<Path>
    decreases n, 1, 0
  {
    match n
    case Dir(_, entries) => [p] + OrderAll(p, n, |entries|)
    case Regular(_) => [p]
    case _ => []
  }

  ghost function OrderAll(p: Path, n: Node, k: nat): seq<Path>
    requires n.Dir? && k <= |n.entries|
    decreases n, 0, k
  {
    if k == 0 then []
    else
      var e := n.entries[k - 1];
      (if Hidden(e.name) then [] else Order(p + [e.name], e.node)) + OrderAll(p, n, k - 1)
  }

  /** `q` leads from the path `p` of `n` to something the backup has to cover. */
  ghost predicate Under(p: Path, n: Node, q: Path) {
    |p| <= |q| && q[..|p|] == p && Visible(n, q[|p|..])
  }

  /** ... by way of one of the first `k` entries of `n`. */
  ghost predicate UnderEntry(p: Path, n: Node, k: nat, q: Path)
    requires n.Dir? && k <= |n.entries|
  {
    Under(p, n, q) && |p| < |q| && exists j :: 0 <= j < k && n.entries[j].name == q[|p|]
  }

  lemma UnderStep(p: Path, n: Node, k: nat, q: Path)
    requires WellNamed(n) && n.Dir? && k < |n.entries|
    ensures var e := n.entries[k];
            (Under(p, n, q) && |p| < |q| && q[|p|] == e.name) <==> (!Hidden(e.name) && Under(p + [e.name], e.node, q))
  {
    var e := n.entries[k];
    ChildAt(n.entries, k);
    if |p| < |q| && q[..|p|] == p && q[|p|] == e.name {
      var r := q[|p|..];
      assert q[..|p| + 1] == p + [e.name];
      assert r[0] == e.name && r[1..] == q[|p| + 1..];
      assert Lookup(n, r) == Lookup(e.node, r[1..]);
      assert (forall i :: 0 <= i < |r| ==> !Hidden(r[i])) <==>
             (!Hidden(e.name) && forall i :: 0 <= i < |r[1..]| ==> !Hidden(r[1..][i])) by {
        assert forall i :: 0 < i < |r| ==> r[i] == r[1..][i - 1];
      }
    }
  }

  /** The walk covers exactly the visible directories and regular files. */
  lemma {:induction false} OrderCovers(p: Path, n: Node, q: Path)
    requires WellNamed(n)
    ensures q in Order(p, n) <==> Under(p, n, q)
    decreases n, 1, 0
  {
    if n.Dir? {
      OrderAllCovers(p, n, |n.entries|, q);
      if |q| == |p| && q == p {
        assert q[|p|..] == [];
      }
      if Under(p, n, q) && |p| < |q| {
        var r := q[|p|..];
        assert r[0] == q[|p|] && Lookup(n, r) == Lookup(Child(n.entries, r[0]), r[1..]);
        LookupDangling(r[1..]);
        var c := Child(n.entries, r[0]);
        assert Entry(r[0], c) in n.entries;
      }
    } else {
      if Under(p, n, q) {
        assert q[|p|..] == [];
      }
      if n.Regular? && q == p {
        assert q[|p|..] == [];
      }
    }
  }

  lemma {:induction false} OrderAllCovers(p: Path, n: Node, k: nat, q: Path)
    requires WellNamed(n) && n.Dir? && k <= |n.entries|
    ensures q in OrderAll(p, n, k) <==> UnderEntry(p, n, k, q)
    decreases n, 0, k
  {
    if k > 0 {
      OrderAllCovers(p, n, k - 1, q);
      OrderCovers(p + [n.entries[k - 1].name], n.entries[k - 1].node, q);
      UnderStep(p, n, k - 1, q);
      OrderAllLast(p, n, k, q);
    }
  }

  /** What is below the last of `k` entries, and what is below the others. */
  lemma OrderAllLast(p: Path, n: Node, k: nat, q: Path)
    requires n.Dir? && 0 < k <= |n.entries|
    ensures var e := n.entries[k - 1];
            q in OrderAll(p, n, k) <==>
              q in OrderAll(p, n, k - 1) || (!Hidden(e.name) && q in Order(p + [e.name], e.node))
  {
  }

  ghost predicate NoRepeat(s: seq<Path>) {
    forall i, j :: 0 <= i < j < |s| ==> s[i] != s[j]
  }

  lemma NoRepeatAppend(s: seq<Path>, t: seq<Path>)
    requires NoRepeat(s) && NoRepeat(t) && forall q :: q in s ==> q !in t
    ensures NoRepeat(s + t)
  {
    var u := s + t;
    forall i, j | 0 <= i < j < |u| ensures u[i] != u[j] {
      if i < |s| <= j {
        assert u[i] in s && u[j] == t[j - |s|];
      }
    }
  }

  /** The walk comes to nothing twice. */
  lemma {:induction false} OrderOnce(p: Path, n: Node)
    requires WellNamed(n)
    ensures NoRepeat(Order(p, n))
    decreases n, 1, 0
  {
    if n.Dir? {
      OrderAllOnce(p, n, |n.entries|);
      OrderAllCovers(p, n, |n.entries|, p);
      NoRepeatAppend([p], OrderAll(p, n, |n.entries|));
    }
  }

  /** What lies below one entry does not lie below an earlier one. */
  lemma EntriesApart(p: Path, n: Node, k: nat, q: Path)
    requires WellNamed(n) && n.Dir? && k < |n.entries| && !Hidden(n.entries[k].name)
    requires q in Order(p + [n.entries[k].name], n.entries[k].node)
    ensures q !in OrderAll(p, n, k)
  {
    OrderCovers(p + [n.entries[k].name], n.entries[k].node, q);
    UnderStep(p, n, k, q);
    OrderAllCovers(p, n, k, q);
  }

  lemma {:induction false} OrderAllOnce(p: Path, n: Node, k: nat)
    requires WellNamed(n) && n.Dir? && k <= |n.entries|
    ensures NoRepeat(OrderAll(p, n, k))
    decreases n, 0, k
  {
    if k > 0 {
      var e := n.entries[k - 1];
      OrderAllOnce(p, n, k - 1);
      if !Hidden(e.name) {
        OrderOnce(p + [e.name], e.node);
        forall q | q in Order(p + [e.name], e.node) ensures q !in OrderAll(p, n, k - 1) {
          EntriesApart(p, n, k - 1, q);
        }
        NoRepeatAppend(Order(p + [e.name], e.node), OrderAll(p, n, k - 1));
      }
    }
  }

  /** Slots of the stack that processing `n` fills at most, beginning with the one that `n` itself takes. */
  ghost function Peak(n: Node): (r: nat)
    ensures r > 0
    decreases n, 1, 0
  {
    if n.Dir? && Room(n, |n.entries|) > 0 then Room(n, |n.entries|) else 1
  }

  /** The same for the first `k` entries of a directory. */
  ghost function Room(n: Node, k: nat): (r: nat)
    requires n.Dir? && k <= |n.entries|
    decreases n, 0, k
  {
    if k == 0 then 0
    else if Hidden(n.entries[k - 1].name) then Room(n, k - 1)
    else Max(Room(n, k - 1), Pushed(n, k - 1) + Peak(n.entries[k - 1].node))
  }

  function Max(a: nat, b: nat): nat {
    if a < b then b else a
  }

  /** How many of the first `k` entries are pushed. */
  ghost function Pushed(n: Node, k: nat): nat
    requires n.Dir? && k <= |n.entries|
    decreases n, 0, k
  {
    if k == 0 then 0 else Pushed(n, k - 1) + (if Hidden(n.entries[k - 1].name) then 0 else 1)
  }

  lemma {:induction false} RoomGrows(n: Node, j: nat, k: nat)
    requires n.Dir? && j <= k <= |n.entries|
    ensures Room(n, j) <= Room(n, k)
  {
    if j < k {
      RoomGrows(n, j, k - 1);
      assert Room(n, k) == Room(n, k - 1) || Room(n, k) == Max(Room(n, k - 1), Room(n, k));
    }
  }

  /** The child that is pushed next, and everything below it, fits. */
  lemma RoomForChild(n: Node, k: nat)
    requires n.Dir? && k < |n.entries| && !Hidden(n.entries[k].name)
    ensures Pushed(n, k) + Peak(n.entries[k].node) <= Peak(n)
  {
    RoomGrows(n, k + 1, |n.entries|);
  }

  ghost function Size(n: Node): (r: nat)
    ensures r > 0
    decreases n, 1, 0
  {
    if n.Dir? then 1 + SizeAll(n, |n.entries|) else 1
  }

  ghost function SizeAll(n: Node, k: nat): nat
    requires n.Dir? && k <= |n.entries|
    decreases n, 0, k
  {
    if k == 0 then 0 else SizeAll(n, k - 1) + Size(n.entries[k - 1].node)
  }

  /** What is still to come for the paths on a stack, its top last. */
  ghost function Pending(root: Node, s: seq<Path>): seq<Path> {
    if s == [] then [] else Order(s[|s| - 1], Lookup(root, s[|s| - 1])) + Pending(root, s[..|s| - 1])
  }

  ghost function Work(root: Node, s: seq<Path>): nat {
    if s == [] then 0 else Size(Lookup(root, s[|s| - 1])) + Work(root, s[..|s| - 1])
  }

  /** Every path on the stack can be processed within the slots above those below it. */
  ghost predicate Fits(root: Node, s: seq<Path>) {
    forall i :: 0 <= i < |s| ==> i + Peak(Lookup(root, s[i])) < STACK
  }

  /** The events of a walk that has come to `order`. */
  ghost function Events(root: Node, order: seq<Path>): seq<Event> {
    if order == [] then [] else Events(root, order[..|order| - 1]) + VisitOf(Lookup(root, order[|order| - 1]))
  }

  ghost function VisitOf(n: Node): seq<Event> {
    if BackedUp(n) then [Lock(n.inode), Copy(n.inode), Mark(n.inode), Release(n.inode)] else []
  }

  /** How many paths lead to an inode. */
  ghost function Links(root: Node, order: seq<Path>, inode: int): nat {
    if order == [] then 0
    else
      var n := Lookup(root, order[|order| - 1]);
      Links(root, order[..|order| - 1], inode) + (if BackedUp(n) && n.inode == inode then 1 else 0)
  }

  /** Marking a file flips its read bit, whichever way it stands. */
  function Flip(bits: set<int>, inode: int): set<int> {
    if inode in bits then bits - {inode} else bits + {inode}
  }

  /** The bits after a walk that has come to `order`. */
  ghost predicate Flipped(before: set<int>, bits: set<int>, root: Node, order: seq<Path>) {
    forall i: int :: i in bits <==> (i in before) != (Links(root, order, i) % 2 == 1)
  }

  /** The paths that reading the first `k` entries of `n` pushes. */
  ghost function Children(path: Path, n: Node, k: nat): (s: seq<Path>)
    requires n.Dir? && k <= |n.entries|
    ensures |s| == Pushed(n, k)
    decreases n, 0, k
  {
    if k == 0 then []
    else
      var e := n.entries[k - 1];
      Children(path, n, k - 1) + (if Hidden(e.name) then [] else [path + [e.name]])
  }

  lemma {:induction false} WellNamedBelow(n: Node, path: Path)
    requires WellNamed(n)
    ensures WellNamed(Lookup(n, path))
    decreases |path|
  {
    if path != [] && n.Dir? {
      var c := Child(n.entries, path[0]);
      if c != Dangling {
        assert Entry(path[0], c) in n.entries;
      }
      WellNamedBelow(c, path[1..]);
    }
  }

  lemma ChildPath(root: Node, path: Path, n: Node, k: nat)
    requires n.Dir? && UniqueNames(n.entries) && k < |n.entries| && Lookup(root, path) == n
    ensures Lookup(root, path + [n.entries[k].name]) == n.entries[k].node
  {
    ChildAt(n.entries, k);
    LookupAppend(root, path, [n.entries[k].name]);
    assert Lookup(n.entries[k].node, []) == n.entries[k].node;
  }

  lemma PendingPush(root: Node, s: seq<Path>, p: Path)
    ensures Pending(root, s + [p]) == Order(p, Lookup(root, p)) + Pending(root, s)
    ensures Work(root, s + [p]) == Size(Lookup(root, p)) + Work(root, s)
  {
    assert (s + [p])[..|s|] == s;
  }

  lemma ChildrenStep(path: Path, n: Node, k: nat)
    requires n.Dir? && k < |n.entries|
    ensures var e := n.entries[k];
            if Hidden(e.name)
            then Children(path, n, k + 1) == Children(path, n, k) && OrderAll(path, n, k + 1) == OrderAll(path, n, k)
            else Children(path, n, k + 1) == Children(path, n, k) + [path + [e.name]]
                 && OrderAll(path, n, k + 1) == Order(path + [e.name], e.node) + OrderAll(path, n, k)
    ensures SizeAll(n, k + 1) == SizeAll(n, k) + Size(n.entries[k].node)
  {
  }

  lemma PushStep(root: Node, s: seq<Path>, p: Path, n: Node, todo: seq<Path>)
    requires Lookup(root, p) == n && Pending(root, s) == todo
    ensures Pending(root, s + [p]) == Order(p, n) + todo
    ensures Work(root, s + [p]) == Size(n) + Work(root, s)
  {
    PendingPush(root, s, p);
  }

  /** What is on top of a stack is done before what lies below it. */
  lemma {:induction false} PendingAppend(root: Node, s: seq<Path>, t: seq<Path>)
    ensures Pending(root, s + t) == Pending(root, t) + Pending(root, s)
    ensures Work(root, s + t) == Work(root, t) + Work(root, s)
  {
    if t == [] {
      assert s + t == s;
    } else {
      var u, p := t[..|t| - 1], t[|t| - 1];
      PendingAppend(root, s, u);
      assert s + t == (s + u) + [p] && t == u + [p];
      PushStep(root, u, p, Lookup(root, p), Pending(root, u));
      PushStep(root, s + u, p, Lookup(root, p), Pending(root, u) + Pending(root, s));
      Assoc(Order(p, Lookup(root, p)), Pending(root, u), Pending(root, s));
    }
  }

  lemma PendingChild(root: Node, path: Path, n: Node, k: nat, s: seq<Path>)
    requires n.Dir? && UniqueNames(n.entries) && k < |n.entries| && Lookup(root, path) == n
    requires s == Children(path, n, k) && Pending(root, s) == OrderAll(path, n, k) && Work(root, s) <= SizeAll(n, k)
    ensures Pending(root, Children(path, n, k + 1)) == OrderAll(path, n, k + 1)
    ensures Work(root, Children(path, n, k + 1)) <= SizeAll(n, k + 1)
  {
    var e := n.entries[k];
    ChildrenStep(path, n, k);
    if !Hidden(e.name) {
      ChildPath(root, path, n, k);
      PushStep(root, s, path + [e.name], e.node, OrderAll(path, n, k));
    }
  }

  /** The children of a directory on the stack leave exactly its first `k` entries to be done. */
  ghost predicate ChildrenPending(root: Node, path: Path, n: Node, k: nat)
    requires n.Dir? && k <= |n.entries|
  {
    && Pending(root, Children(path, n, k)) == OrderAll(path, n, k)
    && Work(root, Children(path, n, k)) <= SizeAll(n, k)
  }

  lemma PendingNext(root: Node, path: Path, n: Node, k: nat)
    requires n.Dir? && UniqueNames(n.entries) && 0 < k <= |n.entries| && Lookup(root, path) == n
    requires ChildrenPending(root, path, n, k - 1)
    ensures ChildrenPending(root, path, n, k)
  {
    PendingChild(root, path, n, k - 1, Children(path, n, k - 1));
  }

  lemma PendingNone(root: Node, path: Path, n: Node)
    requires n.Dir?
    ensures ChildrenPending(root, path, n, 0)
  {
    assert Children(path, n, 0) == [];
  }

  lemma {:induction false} PendingChildren(root: Node, path: Path, n: Node, k: nat)
    requires n.Dir? && UniqueNames(n.entries) && k <= |n.entries| && Lookup(root, path) == n
    ensures ChildrenPending(root, path, n, k)
  {
    if k == 0 {
      PendingNone(root, path, n);
    } else {
      PendingChildren(root, path, n, k - 1);
      PendingNext(root, path, n, k);
    }
  }

  lemma Assoc(a: seq<Path>, b: seq<Path>, c: seq<Path>)
    ensures a + (b + c) == (a + b) + c
  {
  }

  /** Replacing a path on the stack by the children it leads to keeps what is visited and still to come, and
      leaves less work. */
  lemma Progress(root: Node, visited: seq<Path>, below: seq<Path>, path: Path, after: seq<Path>)
    requires WellNamed(Lookup(root, path))
    requires var n := Lookup(root, path); after == below + if n.Dir? then Children(path, n, |n.entries|) else []
    ensures Work(root, after) < Work(root, below + [path])
    ensures var n := Lookup(root, path);
            (visited + if BackedUp(n) then [path] else []) + Pending(root, after)
            == visited + Pending(root, below + [path])
  {
    var n := Lookup(root, path);
    PendingPush(root, below, path);
    if n.Dir? {
      PendingChildren(root, path, n, |n.entries|);
      PendingAppend(root, below, Children(path, n, |n.entries|));
      OrderOfDir(path, n);
      Regroup(visited, [path], OrderAll(path, n, |n.entries|), Pending(root, below));
    } else {
      assert after == below;
    }
  }

  lemma OrderOfDir(path: Path, n: Node)
    requires n.Dir?
    ensures Order(path, n) == [path] + OrderAll(path, n, |n.entries|) && Size(n) == 1 + SizeAll(n, |n.entries|)
  {
  }

  lemma Regroup(a: seq<Path>, b: seq<Path>, c: seq<Path>, d: seq<Path>)
    ensures (a + b) + (c + d) == a + ((b + c) + d)
  {
  }

  lemma FlipStep(root: Node, visited: seq<Path>, path: Path, before: set<int>, bits: set<int>)
    requires Flipped(before, bits, root, visited) && BackedUp(Lookup(root, path))
    ensures Flipped(before, Flip(bits, Lookup(root, path).inode), root, visited + [path])
  {
    var inode := Lookup(root, path).inode;
    forall i: int ensures i in Flip(bits, inode) <==> (i in before) != (Links(root, visited + [path], i) % 2 == 1) {
      LinksAppend(root, visited, path, i);
      OtherParity(Links(root, visited, i));
    }
  }

  lemma OtherParity(n: nat)
    ensures (n + 1) % 2 == 1 <==> n % 2 != 1
  {
  }

  lemma LinksAppend(root: Node, order: seq<Path>, p: Path, i: int)
    ensures Links(root, order + [p], i) == Links(root, order, i)
              + (if BackedUp(Lookup(root, p)) && Lookup(root, p).inode == i then 1 else 0)
  {
    assert (order + [p])[..|order|] == order;
  }

  lemma EventsAppend(root: Node, order: seq<Path>, p: Path)
    ensures Events(root, order + [p]) == Events(root, order) + VisitOf(Lookup(root, p))
  {
    assert (order + [p])[..|order|] == order;
  }

  class Walk {
    const root: Node
    const stack: array<Path>
    var top: nat                 // the number of paths on the stack; slot 0 is never used
    var bits: set<int>           // the inodes whose sticky bit is set
    var events: seq<Event>
    ghost var visited: seq<Path>

    ghost predicate Valid()
      reads this
    {
      stack.Length == STACK && top < STACK
    }

    ghost function Stacked(): seq<Path>
      requires Valid()
      reads this, stack
    {
      stack[1..top + 1]
    }

    constructor (root: Node, bits: set<int>)
      ensures Valid() && fresh(stack) && Stacked() == [] && visited == [] && events == []
      ensures this.root == root && this.bits == bits
    {
      this.root, this.bits := root, bits;
      stack := new Path[STACK](_ => []);
      top, events, visited := 0, [], [];
    }

    method Push(path: Path)
      requires Valid() && top + 1 < STACK
      modifies this`top, stack
      ensures Valid() && Stacked() == old(Stacked()) + [path]
    {
      top := top + 1;
      stack[top] := path;
    }

    method Pop() returns (path: Path)
      requires Valid() && top > 0
      modifies this`top
      ensures Valid() && old(Stacked()) == Stacked() + [path]
    {
      path := stack[top];
      top := top - 1;
    }

    method MarkAsRead(inode: int)
      modifies this`bits
      ensures bits == Flip(old(bits), inode)
    {
      if inode in bits {
        bits := bits - {inode};
      } else {
        bits := bits + {inode};
      }
    }

    /** Pushes entry `k` of a directory if it is visible. */
    method PushEntry(path: Path, n: Node, k: nat, ghost below: seq<Path>)
      requires Valid() && WellNamed(n) && n.Dir? && Lookup(root, path) == n && k < |n.entries|
      requires Fits(root, Stacked()) && |below| + Peak(n) < STACK && Stacked() == below + Children(path, n, k)
      modifies this`top, stack
      ensures Valid() && Fits(root, Stacked()) && Stacked() == below + Children(path, n, k + 1)
    {
      if !Hidden(n.entries[k].name) {
        ghost var s, child := Stacked(), path + [n.entries[k].name];
        ChildPath(root, path, n, k);
        RoomForChild(n, k);
        FitsPush(root, s, child);
        Push(path + [n.entries[k].name]);
        assert s + [child] == below + (Children(path, n, k) + [child]);
      }
    }

    /** Pushes the visible entries of a directory. */
    method PushEntries(path: Path, n: Node)
      requires Valid() && WellNamed(n) && n.Dir? && Lookup(root, path) == n
      requires Fits(root, Stacked()) && |Stacked()| + Peak(n) < STACK
      modifies this`top, stack
      ensures Valid() && Fits(root, Stacked())
      ensures Stacked() == old(Stacked()) + Children(path, n, |n.entries|)
    {
      ghost var below := Stacked();
      var k := 0;
      while k < |n.entries|
        invariant k <= |n.entries| && Valid() && Fits(root, Stacked())
        invariant Stacked() == below + Children(path, n, k)
      {
        PushEntry(path, n, k, below);
        k := k + 1;
      }
    }

    /** Locks, copies and marks a file or directory. */
    method ReadNode(n: Node)
      requires BackedUp(n)
      modifies this`events, this`bits
      ensures events == old(events) + [Lock(n.inode), Copy(n.inode), Mark(n.inode)]
      ensures bits == Flip(old(bits), n.inode)
    {
      events := events + [Lock(n.inode)];
      events := events + [Copy(n.inode)];
      MarkAsRead(n.inode);
      events := events + [Mark(n.inode)];
    }

    /** Locks, copies, marks and releases what the path leads to; a directory has its entries pushed before it
        is released. */
    method Visit(path: Path, n: Node)
      requires Valid() && WellNamed(n) && BackedUp(n) && Lookup(root, path) == n
      requires Fits(root, Stacked()) && |Stacked()| + Peak(n) < STACK
      modifies this, stack
      ensures Valid() && Fits(root, Stacked()) && visited == old(visited) + [path]
      ensures Stacked() == old(Stacked()) + if n.Dir? then Children(path, n, |n.entries|) else []
      ensures events == old(events) + VisitOf(n) && bits == Flip(old(bits), n.inode)
    {
      ReadNode(n);
      if n.Dir? {
        PushEntries(path, n);
      }
      ReleaseNode(path, n);
    }

    /** The file or directory has been dealt with. */
    method ReleaseNode(path: Path, n: Node)
      requires Valid() && BackedUp(n)
      modifies this`events, this`visited
      ensures Valid() && Stacked() == old(Stacked())
      ensures events == old(events) + [Release(n.inode)] && visited == old(visited) + [path]
    {
      events := events + [Release(n.inode)];
      visited := visited + [path];
    }

    /** Takes the next path from the stack and visits what it leads to. */
    method VisitNext()
      requires Valid() && top > 0 && WellNamed(root) && Fits(root, Stacked())
      modifies this, stack
      ensures Valid() && Fits(root, Stacked()) && Work(root, Stacked()) < Work(root, old(Stacked()))
      ensures visited + Pending(root, Stacked()) == old(visited + Pending(root, Stacked()))
      ensures old(events) == Events(root, old(visited)) ==> events == Events(root, visited)
      ensures forall before :: Flipped(before, old(bits), root, old(visited)) ==> Flipped(before, bits, root, visited)
    {
      ghost var s, done, marked := Stacked(), visited, bits;
      var path := Pop();
      var n := Lookup(root, path);
      ghost var below := Stacked();
      FitsBelow(root, below, path);
      WellNamedBelow(root, path);
      if BackedUp(n) {
        Visit(path, n);
        EventsAppend(root, done, path);
        forall before | Flipped(before, marked, root, done) ensures Flipped(before, bits, root, visited) {
          FlipStep(root, done, path, before, marked);
        }
      }
      Progress(root, done, below, path, Stacked());
    }

    /** The whole backup: it comes to every visible directory and regular file, to each exactly once, and
        marks it each time it comes to it. */
    method OnlineBackup()
      requires Valid() && WellNamed(root) && Peak(root) < 200
      requires top == 0 && visited == [] && events == []
      modifies this, stack
      ensures top == 0
      ensures visited == Order([], root)
      ensures NoRepeat(visited) && forall q :: q in visited <==> Visible(root, q)
      ensures events == Events(root, visited)
      ensures |events| == 4 * |visited|
      ensures forall k :: 0 <= k < |visited| ==> FourAt(events, k, Lookup(root, visited[k]))
      ensures Flipped(old(bits), bits, root, visited)
    {
      Push([]);
      PendingPush(root, [], []);
      assert Order([], root) == Pending(root, Stacked());
      while top != 0
        invariant Valid() && Fits(root, Stacked())
        invariant visited + Pending(root, Stacked()) == Order([], root)
        invariant events == Events(root, visited)
        invariant Flipped(old(bits), bits, root, visited)
        decreases Work(root, Stacked())
      {
        VisitNext();
      }
      assert Stacked() == [] && visited == Order([], root);
      OrderOnce([], root);
      forall q ensures q in visited <==> Visible(root, q) {
        OrderCovers([], root, q);
        assert q[0..] == q && q[..0] == [];
      }
      AllBackedUp(root, visited);
      EventsInFours(root, visited);
    }
  }

  lemma AllBackedUp(root: Node, order: seq<Path>)
    requires forall q :: q in order ==> Visible(root, q)
    ensures forall k :: 0 <= k < |order| ==> BackedUp(Lookup(root, order[k]))
  {
    forall k | 0 <= k < |order| ensures BackedUp(Lookup(root, order[k])) {
      assert order[k] in order;
    }
  }

  /** The events of a visit, number `k` of the walk. */
  ghost predicate FourAt(events: seq<Event>, k: nat, n: Node) {
    && BackedUp(n) && 4 * k + 3 < |events|
    && events[4 * k] == Lock(n.inode) && events[4 * k + 1] == Copy(n.inode)
    && events[4 * k + 2] == Mark(n.inode) && events[4 * k + 3] == Release(n.inode)
  }

  lemma FourMore(es: seq<Event>, root: Node, order: seq<Path>, n: Node)
    requires |es| == 4 * |order| && BackedUp(n)
    requires forall k :: 0 <= k < |order| ==> FourAt(es, k, Lookup(root, order[k]))
    ensures |es + VisitOf(n)| == 4 * (|order| + 1) && FourAt(es + VisitOf(n), |order|, n)
    ensures forall k :: 0 <= k < |order| ==> FourAt(es + VisitOf(n), k, Lookup(root, order[k]))
  {
    forall k | 0 <= k < |order| ensures FourAt(es + VisitOf(n), k, Lookup(root, order[k])) {
      assert FourAt(es, k, Lookup(root, order[k]));
    }
  }

  /** Each visit locks, copies, marks and releases what the path leads to, in this order, before the next one. */
  lemma {:induction false} EventsInFours(root: Node, order: seq<Path>)
    requires forall k :: 0 <= k < |order| ==> BackedUp(Lookup(root, order[k]))
    ensures |Events(root, order)| == 4 * |order|
    ensures forall k :: 0 <= k < |order| ==> FourAt(Events(root, order), k, Lookup(root, order[k]))
  {
    if order != [] {
      var front, n := order[..|order| - 1], Lookup(root, order[|order| - 1]);
      EventsInFours(root, front);
      FourMore(Events(root, front), root, front, n);
      assert Events(root, order) == Events(root, front) + VisitOf(n);
      forall k | 0 <= k < |order| ensures FourAt(Events(root, order), k, Lookup(root, order[k])) {
        if k < |front| { assert order[k] == front[k]; }
      }
    }
  }

  lemma FitsPush(root: Node, s: seq<Path>, p: Path)
    requires Fits(root, s) && |s| + Peak(Lookup(root, p)) < STACK
    ensures Fits(root, s + [p])
  {
  }

  lemma FitsBelow(root: Node, below: seq<Path>, path: Path)
    requires Fits(root, below + [path])
    ensures Fits(root, below) && |below| + Peak(Lookup(root, path)) < STACK
  {
    assert (below + [path])[|below|] == path;
    forall i | 0 <= i < |below| ensures i + Peak(Lookup(root, below[i])) < STACK {
      assert (below + [path])[i] == below[i];
    }
  }

  /** The path leads to that inode. */
  ghost predicate LeadsTo(root: Node, p: Path, i: int) {
    BackedUp(Lookup(root, p)) && Lookup(root, p).inode == i
  }

  /** No file has two visible names. */
  ghost predicate NamedOnce(root: Node) {
    forall p, q, i :: Visible(root, p) && Visible(root, q) && LeadsTo(root, p, i) && LeadsTo(root, q, i) ==> p == q
  }

  /** The visible names of a file. */
  ghost predicate NamesOf(root: Node, names: set<Path>, i: int) {
    forall q :: q in names <==> Visible(root, q) && LeadsTo(root, q, i)
  }

  ghost function NamesIn(root: Node, order: seq<Path>, i: int): set<Path> {
    set q | q in order && LeadsTo(root, q, i)
  }

  lemma OneMoreName(root: Node, order: seq<Path>, p: Path, i: int)
    requires p !in order
    ensures |NamesIn(root, order + [p], i)| == |NamesIn(root, order, i)| + if LeadsTo(root, p, i) then 1 else 0
  {
    var before, after := NamesIn(root, order, i), NamesIn(root, order + [p], i);
    assert p !in before;
    forall q ensures q in after <==> q in before || (q == p && LeadsTo(root, p, i)) {
      assert q in order + [p] <==> q in order || q == p;
    }
    assert after == before + if LeadsTo(root, p, i) then {p} else {};
  }

  /** An order in which no path occurs twice counts a file once for each of its names. */
  lemma {:induction false} LinksCount(root: Node, order: seq<Path>, i: int)
    requires NoRepeat(order)
    ensures Links(root, order, i) == |NamesIn(root, order, i)|
  {
    if order != [] {
      var last, front := order[|order| - 1], order[..|order| - 1];
      LinksCount(root, front, i);
      OneMoreName(root, front, last, i);
      assert front + [last] == order;
    }
  }

  /** The backup flips the bit of a file if and only if the number of visible names of the file is odd. */
  lemma FlipsOddNames(root: Node, order: seq<Path>, before: set<int>, bits: set<int>, i: int, names: set<Path>)
    requires NoRepeat(order) && forall q :: q in order <==> Visible(root, q)
    requires Flipped(before, bits, root, order) && NamesOf(root, names, i)
    ensures (i in bits) != (i in before) <==> |names| % 2 == 1
  {
    LinksCount(root, order, i);
    assert names == NamesIn(root, order, i);
  }

  /** When no file has two visible names, the backup flips the bits of the visible files and no others, so
      that bits that were alike before it are alike again. */
  lemma BackupFlipsAll(root: Node, order: seq<Path>, before: set<int>, bits: set<int>, i: int)
    requires NoRepeat(order) && forall q :: q in order <==> Visible(root, q)
    requires Flipped(before, bits, root, order) && NamedOnce(root)
    ensures (i in bits) != (i in before) <==> exists q :: Visible(root, q) && LeadsTo(root, q, i)
  {
    var none: set<Path> := {};
    if q :| Visible(root, q) && LeadsTo(root, q, i) {
      FlipsOddNames(root, order, before, bits, i, {q});
    } else {
      FlipsOddNames(root, order, before, bits, i, none);
    }
  }

  const FIRST: Path := ["a"]
  const SECOND: Path := ["b"]

  /** A directory with two names for one file. */
  const LINKED: Node := Dir(1, [Entry("a", Regular(2)), Entry("b", Regular(2))])

  lemma LinkedLookups()
    ensures WellNamed(LINKED) && Lookup(LINKED, FIRST) == Regular(2) && Lookup(LINKED, SECOND) == Regular(2)
  {
    ChildAt(LINKED.entries, 0);
    ChildAt(LINKED.entries, 1);
    assert FIRST[1..] == [] && SECOND[1..] == [];
  }

  lemma LinkedOrder()
    ensures Order([], LINKED) == [[], SECOND, FIRST]
  {
    var none: Path := [];
    assert none + ["a"] == FIRST && none + ["b"] == SECOND;
    assert OrderAll([], LINKED, 1) == [FIRST];
    assert OrderAll([], LINKED, 2) == [SECOND, FIRST];
  }

  /** These are all the names of the file. */
  lemma LinkedNames()
    ensures NamesOf(LINKED, {FIRST, SECOND}, 2)
  {
    LinkedLookups();
    LinkedOrder();
    forall q ensures q in {FIRST, SECOND} <==> Visible(LINKED, q) && LeadsTo(LINKED, q, 2) {
      OrderCovers([], LINKED, q);
      assert q[0..] == q && q[..0] == [];
      assert q in [[], SECOND, FIRST] <==> Visible(LINKED, q);
    }
  }

  lemma LinkedFits()
    ensures Peak(LINKED) < STACK
  {
    assert Room(LINKED, 1) <= 2 && Room(LINKED, 2) <= 2;
  }

  /** A file with two visible names is marked twice, which leaves it looking unread. */
  method LinkedFileStaysUnread(bits: set<int>) returns (walk: Walk)
    ensures walk.root == LINKED && NamesOf(LINKED, {FIRST, SECOND}, 2)
    ensures 2 in walk.bits <==> 2 in bits
  {
    LinkedLookups();
    LinkedFits();
    LinkedNames();
    walk := new Walk(LINKED, bits);
    walk.OnlineBackup();
    FlipsOddNames(LINKED, walk.visited, bits, walk.bits, 2, {FIRST, SECOND});
  }
}

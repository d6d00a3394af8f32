/** How the deadlock detector derives the wait-for graph from the waiting transactions and the lock records. */
module WaitEdges {
  import opened Basics
  import opened WaitForGraph
  import opened DepthFirst
  import opened DeadlockWalk
  import opened DeadlockDetector

  /** A waiting transaction and the file it waits for; waiting transactions stand in the order of their ids. */
  datatype Wait = Wait(txn: int, inode: int)

  datatype Holder = Holder(txn: int, exclusive: bool)

  /** The lock records of every locked file, as they are chained. */
  type Locks = map<int, seq<Holder>>

  ghost predicate DistinctTxns(waiting: seq<Wait>) {
    forall i, j :: 0 <= i < j < |waiting| ==> waiting[i].txn != waiting[j].txn
  }

  /** A file is locked by one exclusive record or by any number of shared ones. */
  ghost predicate OneMode(holders: seq<Holder>) {
    holders != [] && (|holders| > 1 ==> forall h :: h in holders ==> !h.exclusive)
  }

  /** Every transaction waits for a file that is locked. */
  ghost predicate AllLocked(waiting: seq<Wait>, locks: Locks) {
    forall i :: 0 <= i < |waiting| ==> waiting[i].inode in locks && OneMode(locks[waiting[i].inode])
  }

  ghost predicate AllExclusive(waiting: seq<Wait>, locks: Locks) {
    forall i :: 0 <= i < |waiting| && waiting[i].inode in locks ==> |locks[waiting[i].inode]| == 1
  }

  /** Holder `j` is among the waiting transactions `lo` to `hi`. */
  ghost predicate Waits(waiting: seq<Wait>, holders: seq<Holder>, lo: nat, hi: nat, j: nat) {
    j < |holders| && exists w :: lo <= w < hi && w < |waiting| && waiting[w].txn == holders[j].txn
  }

  /** The holder at which one scan over the waiting transactions `lo` to `hi` ends: it only goes on to the next
      holder after it has found the current one. */
  ghost function Reached(waiting: seq<Wait>, holders: seq<Holder>, lo: nat, hi: nat, k: nat): (r: nat)
    requires k < |holders|
    ensures k <= r < |holders|
    decreases |holders| - k
  {
    if k + 1 < |holders| && Waits(waiting, holders, lo, hi, k) then Reached(waiting, holders, lo, hi, k + 1) else k
  }

  /** All the holders from `k` on before `r` wait, and `r` does not unless it is the last. */
  ghost predicate ScansTo(waiting: seq<Wait>, holders: seq<Holder>, lo: nat, hi: nat, k: nat, r: nat) {
    && (forall j :: k <= j < r ==> Waits(waiting, holders, lo, hi, j))
    && (r + 1 < |holders| ==> !Waits(waiting, holders, lo, hi, r))
  }

  lemma {:induction false} ReachedWaits(waiting: seq<Wait>, holders: seq<Holder>, lo: nat, hi: nat, k: nat)
    requires k < |holders|
    ensures ScansTo(waiting, holders, lo, hi, k, Reached(waiting, holders, lo, hi, k))
    decreases |holders| - k
  {
    if k + 1 < |holders| && Waits(waiting, holders, lo, hi, k) {
      ReachedWaits(waiting, holders, lo, hi, k + 1);
    }
  }

  /** The same for the two scans that give the edges of `i`. */
  lemma BothReached(waiting: seq<Wait>, holders: seq<Holder>, i: nat)
    requires holders != []
    ensures var k, l := ReachedLater(waiting, holders, i), ReachedEarlier(waiting, holders, i);
            ScansTo(waiting, holders, i + 1, |waiting|, 0, k) && ScansTo(waiting, holders, 0, i, k, l)
  {
    ReachedWaits(waiting, holders, i + 1, |waiting|, 0);
    ReachedWaits(waiting, holders, 0, i, ReachedLater(waiting, holders, i));
  }

  /** The holder reached among the transactions after `i`, which are scanned first. */
  ghost function ReachedLater(waiting: seq<Wait>, holders: seq<Holder>, i: nat): (k: nat)
    requires holders != []
    ensures k < |holders|
  {
    Reached(waiting, holders, i + 1, |waiting|, 0)
  }

  /** The holder then reached among the transactions before `i`. */
  ghost function ReachedEarlier(waiting: seq<Wait>, holders: seq<Holder>, i: nat): (k: nat)
    requires holders != []
    ensures ReachedLater(waiting, holders, i) <= k < |holders|
  {
    Reached(waiting, holders, 0, i, ReachedLater(waiting, holders, i))
  }

  ghost function ReachedFor(waiting: seq<Wait>, holders: seq<Holder>, i: nat, w: nat): (k: nat)
    requires holders != []
    ensures k < |holders|
  {
    if w > i then ReachedLater(waiting, holders, i) else ReachedEarlier(waiting, holders, i)
  }

  /** `w` is another waiting transaction, and holds the file that `i` waits for. */
  ghost predicate Blocks(waiting: seq<Wait>, holders: seq<Holder>, i: nat, w: nat) {
    w < |waiting| && w != i && exists j :: 0 <= j < |holders| && holders[j].txn == waiting[w].txn
  }

  /** The edges that the two scans find. */
  ghost predicate Found(waiting: seq<Wait>, holders: seq<Holder>, i: nat, w: nat)
    requires holders != []
  {
    && w < |waiting| && w != i
    && exists j :: 0 <= j <= ReachedFor(waiting, holders, i, w) && holders[j].txn == waiting[w].txn
  }

  ghost predicate Late(waiting: seq<Wait>, holders: seq<Holder>, i: nat, j: nat) {
    Waits(waiting, holders, i + 1, |waiting|, j)
  }

  ghost predicate Early(waiting: seq<Wait>, holders: seq<Holder>, i: nat, j: nat) {
    Waits(waiting, holders, 0, i, j)
  }

  /** A transaction can have more than one shared record; this is its first. */
  ghost predicate FirstRecord(holders: seq<Holder>, k: nat) {
    k < |holders| && forall h :: 0 <= h < k ==> holders[h].txn != holders[k].txn
  }

  lemma {:induction false} HasFirstRecord(holders: seq<Holder>, k: nat) returns (first: nat)
    requires k < |holders|
    ensures first <= k && FirstRecord(holders, first) && holders[first].txn == holders[k].txn
  {
    if FirstRecord(holders, k) {
      first := k;
    } else {
      var h :| 0 <= h < k && holders[h].txn == holders[k].txn;
      first := HasFirstRecord(holders, h);
    }
  }

  /** Up to holder `k` there are first only holders that wait and come after `i`, then only holders that wait
      and come before `i`. */
  ghost predicate LateThenEarly(waiting: seq<Wait>, holders: seq<Holder>, i: nat, k: nat) {
    && (forall j :: 0 <= j < k ==> Late(waiting, holders, i, j) || Early(waiting, holders, i, j))
    && (forall j, m :: 0 <= j < m < k && Late(waiting, holders, i, m) ==> Late(waiting, holders, i, j))
  }

  /** In front of a holder that waits and comes after `i` there are only such holders; in front of one that
      waits and comes before `i` those come first. */
  ghost predicate WaitingFirst(waiting: seq<Wait>, holders: seq<Holder>, i: nat) {
    forall k :: 0 <= k < |holders| && FirstRecord(holders, k) ==>
      && (Late(waiting, holders, i, k) ==> forall j :: 0 <= j < k ==> Late(waiting, holders, i, j))
      && (Early(waiting, holders, i, k) ==> LateThenEarly(waiting, holders, i, k))
  }

  /** The scans find every blocking transaction exactly when the holders stand in that order. A file locked
      by one record always meets it. */
  lemma FoundAllIffWaitingFirst(waiting: seq<Wait>, holders: seq<Holder>, i: nat)
    requires DistinctTxns(waiting) && holders != [] && i < |waiting|
    ensures WaitingFirst(waiting, holders, i) <==>
            forall w: nat :: Found(waiting, holders, i, w) <==> Blocks(waiting, holders, i, w)
    ensures |holders| == 1 ==> WaitingFirst(waiting, holders, i)
  {
    if WaitingFirst(waiting, holders, i) {
      forall w: nat | Blocks(waiting, holders, i, w) ensures Found(waiting, holders, i, w) {
        FoundInOrder(waiting, holders, i, w);
      }
    }
    if forall w: nat :: Found(waiting, holders, i, w) <==> Blocks(waiting, holders, i, w) {
      forall k: nat | k < |holders| && FirstRecord(holders, k)
        ensures Late(waiting, holders, i, k) ==> forall j :: 0 <= j < k ==> Late(waiting, holders, i, j)
        ensures Early(waiting, holders, i, k) ==> LateThenEarly(waiting, holders, i, k)
      {
        OrderOfFound(waiting, holders, i, k);
      }
    }
  }

  lemma FoundInOrder(waiting: seq<Wait>, holders: seq<Holder>, i: nat, w: nat)
    requires DistinctTxns(waiting) && holders != [] && i < |waiting|
    requires WaitingFirst(waiting, holders, i) && Blocks(waiting, holders, i, w)
    ensures Found(waiting, holders, i, w)
  {
    BothReached(waiting, holders, i);
    var h: nat :| h < |holders| && holders[h].txn == waiting[w].txn;
    var j := HasFirstRecord(holders, h);
    var k, l := ReachedLater(waiting, holders, i), ReachedEarlier(waiting, holders, i);
    if w > i {
      assert Late(waiting, holders, i, j);
      assert j > k ==> Late(waiting, holders, i, k);
    } else {
      assert Early(waiting, holders, i, j);
      assert LateThenEarly(waiting, holders, i, j);
      assert j > l ==> Late(waiting, holders, i, l) || Early(waiting, holders, i, l);
      assert j > l > k ==> (Late(waiting, holders, i, l) ==> Late(waiting, holders, i, k));
    }
  }

  lemma OrderOfFound(waiting: seq<Wait>, holders: seq<Holder>, i: nat, k: nat)
    requires DistinctTxns(waiting) && holders != [] && i < |waiting| && FirstRecord(holders, k)
    requires forall w: nat :: Found(waiting, holders, i, w) <==> Blocks(waiting, holders, i, w)
    ensures Late(waiting, holders, i, k) ==> forall j :: 0 <= j < k ==> Late(waiting, holders, i, j)
    ensures Early(waiting, holders, i, k) ==> LateThenEarly(waiting, holders, i, k)
  {
    BothReached(waiting, holders, i);
    if Late(waiting, holders, i, k) {
      var w: nat :| i < w < |waiting| && waiting[w].txn == holders[k].txn;
      assert Blocks(waiting, holders, i, w);
    }
    if Early(waiting, holders, i, k) {
      var w: nat :| w < i && waiting[w].txn == holders[k].txn;
      assert Blocks(waiting, holders, i, w);
      forall j, m | 0 <= j < m < k && Late(waiting, holders, i, m) ensures Late(waiting, holders, i, j) {
        NotBoth(waiting, holders, i, m);
        assert m < ReachedLater(waiting, holders, i);
      }
    }
  }

  lemma NotBoth(waiting: seq<Wait>, holders: seq<Holder>, i: nat, j: nat)
    requires DistinctTxns(waiting)
    ensures !(Late(waiting, holders, i, j) && Early(waiting, holders, i, j))
  {
  }

  /** The waiting transaction that is holder `j`. */
  ghost function WaiterOf(waiting: seq<Wait>, holders: seq<Holder>, lo: nat, hi: nat, j: nat): (w: nat)
    requires Waits(waiting, holders, lo, hi, j)
    ensures lo <= w < hi && w < |waiting| && waiting[w].txn == holders[j].txn
  {
    var w: nat :| lo <= w < hi && w < |waiting| && waiting[w].txn == holders[j].txn; w
  }

  /** The edges that one scan appends, in this order, when it begins with holder `k`. */
  ghost function ScanEdges(waiting: seq<Wait>, holders: seq<Holder>, lo: nat, hi: nat, k: nat): seq<nat>
    requires k < |holders|
    decreases |holders| - k
  {
    if !Waits(waiting, holders, lo, hi, k) then []
    else
      [WaiterOf(waiting, holders, lo, hi, k)]
      + if k + 1 < |holders| then ScanEdges(waiting, holders, lo, hi, k + 1) else []
  }

  /** The edges of waiting transaction `i`: those to later transactions come first, and among each kind the
      order is that of the holders. */
  ghost function EdgeList(waiting: seq<Wait>, holders: seq<Holder>, i: nat): seq<nat>
    requires holders != []
  {
    ScanEdges(waiting, holders, i + 1, |waiting|, 0)
    + ScanEdges(waiting, holders, 0, i, ReachedLater(waiting, holders, i))
  }

  /** Waiting transaction `w` is one of the holders `k` to `r`. */
  ghost predicate Among(waiting: seq<Wait>, holders: seq<Holder>, k: nat, r: nat, w: nat) {
    w < |waiting| && exists j :: k <= j <= r && j < |holders| && holders[j].txn == waiting[w].txn
  }

  lemma AmongNext(waiting: seq<Wait>, holders: seq<Holder>, k: nat, r: nat, w: nat)
    requires k < |holders| && k <= r && w < |waiting|
    ensures Among(waiting, holders, k, r, w) <==>
            waiting[w].txn == holders[k].txn || Among(waiting, holders, k + 1, r, w)
  {
    if Among(waiting, holders, k, r, w) {
      var j :| k <= j <= r && j < |holders| && holders[j].txn == waiting[w].txn;
      assert j == k || j >= k + 1;
    }
  }

  lemma {:induction false} ScanMembers(waiting: seq<Wait>, holders: seq<Holder>, lo: nat, hi: nat, k: nat, w: nat)
    requires DistinctTxns(waiting) && k < |holders| && lo <= hi <= |waiting|
    ensures w in ScanEdges(waiting, holders, lo, hi, k) <==>
            lo <= w < hi && Among(waiting, holders, k, Reached(waiting, holders, lo, hi, k), w)
    decreases |holders| - k
  {
    if w < |waiting| { AmongNext(waiting, holders, k, Reached(waiting, holders, lo, hi, k), w); }
    if !Waits(waiting, holders, lo, hi, k) {
      assert lo <= w < hi ==> waiting[w].txn != holders[k].txn;
    } else {
      var v := WaiterOf(waiting, holders, lo, hi, k);
      FoundNext(waiting, holders, lo, hi, k, v);
      assert lo <= w < hi && waiting[w].txn == holders[k].txn ==> w == v;
      if k + 1 < |holders| { ScanMembers(waiting, holders, lo, hi, k + 1, w); }
    }
  }

  /** The edges lead to the transactions found; one holder gives at most one edge. */
  lemma EdgeListFinds(waiting: seq<Wait>, holders: seq<Holder>, i: nat, w: nat)
    requires DistinctTxns(waiting) && holders != [] && i < |waiting|
    ensures w in EdgeList(waiting, holders, i) <==> Found(waiting, holders, i, w)
  {
    BothReached(waiting, holders, i);
    var k := ReachedLater(waiting, holders, i);
    ScanMembers(waiting, holders, i + 1, |waiting|, 0, w);
    ScanMembers(waiting, holders, 0, i, k, w);
    if w < i && Found(waiting, holders, i, w) {
      var j :| 0 <= j <= ReachedEarlier(waiting, holders, i) && holders[j].txn == waiting[w].txn;
      assert !Waits(waiting, holders, i + 1, |waiting|, j);
    }
  }

  lemma OneHolderOneEdge(waiting: seq<Wait>, holders: seq<Holder>, i: nat)
    requires DistinctTxns(waiting) && |holders| == 1 && i < |waiting|
    ensures |EdgeList(waiting, holders, i)| <= 1
  {
    assert Waits(waiting, holders, i + 1, |waiting|, 0) ==> !Waits(waiting, holders, 0, i, 0);
  }

  /** Holder `k` is not among the waiting transactions `lo` to `next`. */
  ghost predicate Unseen(waiting: seq<Wait>, holders: seq<Holder>, lo: nat, next: nat, k: nat) {
    k < |holders| && next <= |waiting| && forall w :: lo <= w < next ==> waiting[w].txn != holders[k].txn
  }

  /** Holder `k` is waiting transaction `w`: there is an edge to it, and the scan goes on to the next holder. */
  ghost predicate GoesOn(rest: seq<seq<nat>>, ends: seq<nat>, k: nat, w: nat)
    requires |rest| == |ends| + 1 && k < |ends|
  {
    rest[k] == [w] + rest[k + 1] && ends[k] == if k + 1 < |ends| then ends[k + 1] else k
  }

  /** `rest[k]` are the edges of the scan from holder `k` on, and `ends[k]` is where it stops. */
  ghost predicate Tabled(waiting: seq<Wait>, holders: seq<Holder>, lo: nat, hi: nat,
                         rest: seq<seq<nat>>, ends: seq<nat>)
  {
    && hi <= |waiting| && |rest| == |holders| + 1 && rest[|holders|] == [] && |ends| == |holders|
    && (forall k, w :: 0 <= k < |holders| && lo <= w < hi && waiting[w].txn == holders[k].txn ==>
                         GoesOn(rest, ends, k, w))
    && (forall k :: 0 <= k < |holders| && Unseen(waiting, holders, lo, hi, k) ==> rest[k] == [] && ends[k] == k)
  }

  /** One scan over the waiting transactions `lo` to `hi`, beginning with holder `start`. */
  method Scan(waiting: seq<Wait>, holders: seq<Holder>, lo: nat, hi: nat, start: nat, known: seq<nat>)
    returns (k: nat, edges: seq<nat>)
    requires DistinctTxns(waiting) && OneMode(holders) && start < |holders| && lo <= hi <= |waiting|
    ensures k == Reached(waiting, holders, lo, hi, start)
    ensures edges == known + ScanEdges(waiting, holders, lo, hi, start)
  {
    ghost var rest, ends := Table(waiting, holders, lo, hi);
    TableTabled(waiting, holders, lo, hi, rest, ends);
    k, edges := ScanOn(waiting, holders, lo, hi, start, known, rest, ends);
  }

  method ScanOn(waiting: seq<Wait>, holders: seq<Holder>, lo: nat, hi: nat, start: nat, known: seq<nat>,
                ghost rest: seq<seq<nat>>, ghost ends: seq<nat>)
    returns (k: nat, edges: seq<nat>)
    requires DistinctTxns(waiting) && OneMode(holders) && start < |holders| && lo <= hi
    requires Tabled(waiting, holders, lo, hi, rest, ends)
    ensures k == ends[start] && edges == known + rest[start]
  {
    k, edges := start, known;
    var next := lo;
    ghost var matched := false;
    while next < hi
      invariant lo <= next <= hi && start <= k < |holders| && ends[start] == ends[k]
      invariant matched ==> k + 1 == |holders| && ends[k] == k && edges == known + rest[start]
      invariant matched && next < hi ==> exists w :: lo <= w < next && waiting[w].txn == holders[k].txn
      invariant !matched ==> Unseen(waiting, holders, lo, next, k) && edges + rest[k] == known + rest[start]
      decreases |holders| - k, hi - next
    {
      if waiting[next].txn == holders[k].txn {
        assert !matched;
        assert GoesOn(rest, ends, k, next);
        assert edges + ([next] + rest[k + 1]) == edges + [next] + rest[k + 1];
        edges := edges + [next];
        assert edges + rest[k + 1] == known + rest[start] && edges + [] == edges;
        if holders[k].exclusive {
          assert holders[k] in holders;
          // the assignment that was to end the loop here is a comparison in the code: the scan goes on
          next := next + 1;
          matched := true;
        } else if k + 1 == |holders| {
          next := hi;
          matched := true;
        } else {
          k, next := k + 1, lo;
        }
      } else {
        next := next + 1;
      }
    }
  }

  ghost predicate IsTable(waiting: seq<Wait>, holders: seq<Holder>, lo: nat, hi: nat,
                          rest: seq<seq<nat>>, ends: seq<nat>)
  {
    && |rest| == |holders| + 1 && rest[|holders|] == [] && |ends| == |holders|
    && forall k :: 0 <= k < |holders| ==>
                     && rest[k] == ScanEdges(waiting, holders, lo, hi, k)
                     && ends[k] == Reached(waiting, holders, lo, hi, k)
  }

  lemma Table(waiting: seq<Wait>, holders: seq<Holder>, lo: nat, hi: nat) returns (rest: seq<seq<nat>>, ends: seq<nat>)
    ensures IsTable(waiting, holders, lo, hi, rest, ends)
  {
    rest := seq(|holders|, k requires 0 <= k < |holders| => ScanEdges(waiting, holders, lo, hi, k)) + [[]];
    ends := seq(|holders|, k requires 0 <= k < |holders| => Reached(waiting, holders, lo, hi, k));
  }

  lemma TableGoesOn(waiting: seq<Wait>, holders: seq<Holder>, lo: nat, hi: nat,
                    rest: seq<seq<nat>>, ends: seq<nat>, k: nat, w: nat)
    requires DistinctTxns(waiting) && lo <= w < hi <= |waiting| && IsTable(waiting, holders, lo, hi, rest, ends)
    requires k < |holders| && waiting[w].txn == holders[k].txn
    ensures GoesOn(rest, ends, k, w)
  {
    FoundNext(waiting, holders, lo, hi, k, w);
  }

  lemma TableStops(waiting: seq<Wait>, holders: seq<Holder>, lo: nat, hi: nat,
                   rest: seq<seq<nat>>, ends: seq<nat>, k: nat)
    requires IsTable(waiting, holders, lo, hi, rest, ends) && hi <= |waiting|
    requires k < |holders| && Unseen(waiting, holders, lo, hi, k)
    ensures rest[k] == [] && ends[k] == k
  {
    ScanStops(waiting, holders, lo, hi, k);
  }

  lemma TableTabled(waiting: seq<Wait>, holders: seq<Holder>, lo: nat, hi: nat,
                    rest: seq<seq<nat>>, ends: seq<nat>)
    requires DistinctTxns(waiting) && lo <= hi <= |waiting| && IsTable(waiting, holders, lo, hi, rest, ends)
    ensures Tabled(waiting, holders, lo, hi, rest, ends)
  {
    forall k: nat, w: nat | k < |holders| && lo <= w < hi && waiting[w].txn == holders[k].txn
      ensures GoesOn(rest, ends, k, w)
    {
      TableGoesOn(waiting, holders, lo, hi, rest, ends, k, w);
    }
    forall k: nat | k < |holders| && Unseen(waiting, holders, lo, hi, k) ensures rest[k] == [] && ends[k] == k {
      TableStops(waiting, holders, lo, hi, rest, ends, k);
    }
  }

  lemma FoundNext(waiting: seq<Wait>, holders: seq<Holder>, lo: nat, hi: nat, k: nat, w: nat)
    requires DistinctTxns(waiting) && k < |holders| && lo <= w < hi <= |waiting|
    requires waiting[w].txn == holders[k].txn
    ensures ScanEdges(waiting, holders, lo, hi, k) ==
            [w] + if k + 1 < |holders| then ScanEdges(waiting, holders, lo, hi, k + 1) else []
    ensures Reached(waiting, holders, lo, hi, k) ==
            if k + 1 < |holders| then Reached(waiting, holders, lo, hi, k + 1) else k
  {
    assert Waits(waiting, holders, lo, hi, k);
    assert WaiterOf(waiting, holders, lo, hi, k) == w;
  }

  lemma ScanStops(waiting: seq<Wait>, holders: seq<Holder>, lo: nat, hi: nat, k: nat)
    requires k < |holders| && hi <= |waiting| && Unseen(waiting, holders, lo, hi, k)
    ensures ScanEdges(waiting, holders, lo, hi, k) == [] && Reached(waiting, holders, lo, hi, k) == k
  {
  }

  /** The edges of waiting transaction `i`. */
  method EdgesOf(waiting: seq<Wait>, holders: seq<Holder>, i: nat) returns (edges: seq<nat>)
    requires DistinctTxns(waiting) && OneMode(holders) && i < |waiting|
    ensures edges == EdgeList(waiting, holders, i)
  {
    var k, later := Scan(waiting, holders, i + 1, |waiting|, 0, []);
    var l, all := Scan(waiting, holders, 0, i, k, later);
    JoinedScans(waiting, holders, i, k, later, all);
    edges := all;
  }

  lemma JoinedScans(waiting: seq<Wait>, holders: seq<Holder>, i: nat, k: nat, later: seq<nat>, all: seq<nat>)
    requires holders != [] && k == Reached(waiting, holders, i + 1, |waiting|, 0)
    requires later == [] + ScanEdges(waiting, holders, i + 1, |waiting|, 0)
    requires all == later + ScanEdges(waiting, holders, 0, i, k)
    ensures all == EdgeList(waiting, holders, i)
  {
    assert later == ScanEdges(waiting, holders, i + 1, |waiting|, 0);
  }

  ghost predicate WaitsFor(waiting: seq<Wait>, locks: Locks, i: nat, w: nat) {
    i < |waiting| && waiting[i].inode in locks && Blocks(waiting, locks[waiting[i].inode], i, w)
  }

  /** Waiting transactions each of which waits for the next, and the last for the first. */
  ghost predicate Ring(waiting: seq<Wait>, locks: Locks, p: seq<nat>) {
    && |p| > 0
    && (forall i :: 0 <= i < |p| - 1 ==> WaitsFor(waiting, locks, p[i], p[i + 1]))
    && WaitsFor(waiting, locks, p[|p| - 1], p[0])
  }

  ghost predicate Deadlocked(waiting: seq<Wait>, locks: Locks, v: nat) {
    exists p :: Ring(waiting, locks, p) && v in p
  }

  /** The graph the detector searches. */
  ghost function GraphOf(waiting: seq<Wait>, locks: Locks): (g: Graph)
    requires AllLocked(waiting, locks)
    ensures |g| == |waiting| && forall i :: 0 <= i < |g| ==> g[i] == EdgeList(waiting, locks[waiting[i].inode], i)
  {
    seq(|waiting|, i requires 0 <= i < |waiting| => EdgeList(waiting, locks[waiting[i].inode], i))
  }

  /** Its edges are the ones found. */
  lemma GraphIsFound(waiting: seq<Wait>, locks: Locks, i: nat, w: nat)
    requires DistinctTxns(waiting) && AllLocked(waiting, locks) && i < |waiting|
    ensures w in GraphOf(waiting, locks)[i] <==> Found(waiting, locks[waiting[i].inode], i, w)
    ensures Edge(GraphOf(waiting, locks), i, w) <==> Found(waiting, locks[waiting[i].inode], i, w)
  {
    EdgeListFinds(waiting, locks[waiting[i].inode], i, w);
  }

  lemma GraphWellFormed(waiting: seq<Wait>, locks: Locks)
    requires DistinctTxns(waiting) && AllLocked(waiting, locks)
    ensures WellFormed(GraphOf(waiting, locks))
    ensures AllExclusive(waiting, locks) ==> Functional(GraphOf(waiting, locks))
  {
    var g := GraphOf(waiting, locks);
    forall v, e | 0 <= v < |g| && 0 <= e < |g[v]| ensures g[v][e] < |g| {
      GraphIsFound(waiting, locks, v, g[v][e]);
    }
    if AllExclusive(waiting, locks) {
      forall v | 0 <= v < |g| ensures |g[v]| <= 1 {
        OneHolderOneEdge(waiting, locks[waiting[v].inode], v);
      }
    }
  }

  /** The records of every file waited for stand in the order in which the scans miss nothing. */
  ghost predicate AllFound(waiting: seq<Wait>, locks: Locks)
    requires AllLocked(waiting, locks)
  {
    forall i :: 0 <= i < |waiting| ==> WaitingFirst(waiting, locks[waiting[i].inode], i)
  }

  /** The edges of the graph at `i`. */
  method EdgesAt(waiting: seq<Wait>, locks: Locks, i: nat) returns (edges: seq<nat>)
    requires DistinctTxns(waiting) && AllLocked(waiting, locks) && i < |waiting|
    ensures edges == GraphOf(waiting, locks)[i]
  {
    edges := EdgesOf(waiting, locks[waiting[i].inode], i);
  }

  /** Builds the graph. */
  method Construct(waiting: seq<Wait>, locks: Locks) returns (g: Graph)
    requires DistinctTxns(waiting) && AllLocked(waiting, locks)
    ensures g == GraphOf(waiting, locks)
  {
    ghost var all := GraphOf(waiting, locks);
    g := [];
    while |g| < |waiting|
      invariant |g| <= |waiting| && g == all[..|g|]
    {
      var edges := EdgesAt(waiting, locks, |g|);
      OneMore(all, |g|);
      g := g + [edges];
    }
  }

  lemma EdgesAreWaits(waiting: seq<Wait>, locks: Locks, i: nat, w: nat)
    requires DistinctTxns(waiting) && AllLocked(waiting, locks)
    ensures Edge(GraphOf(waiting, locks), i, w) ==> WaitsFor(waiting, locks, i, w)
    ensures AllFound(waiting, locks) && WaitsFor(waiting, locks, i, w) ==> Edge(GraphOf(waiting, locks), i, w)
    ensures AllExclusive(waiting, locks) ==> AllFound(waiting, locks)
  {
    if i < |waiting| {
      GraphIsFound(waiting, locks, i, w);
      FoundAllIffWaitingFirst(waiting, locks[waiting[i].inode], i);
    }
    if AllExclusive(waiting, locks) {
      forall v: nat | v < |waiting| ensures WaitingFirst(waiting, locks[waiting[v].inode], v) {
        FoundAllIffWaitingFirst(waiting, locks[waiting[v].inode], v);
      }
    }
  }

  lemma CycleIsRing(waiting: seq<Wait>, locks: Locks, p: seq<nat>)
    requires DistinctTxns(waiting) && AllLocked(waiting, locks)
    ensures IsCycle(GraphOf(waiting, locks), p) ==> Ring(waiting, locks, p)
    ensures AllFound(waiting, locks) && Ring(waiting, locks, p) ==> IsCycle(GraphOf(waiting, locks), p)
  {
    forall i: nat, w: nat
      ensures Edge(GraphOf(waiting, locks), i, w) ==> WaitsFor(waiting, locks, i, w)
      ensures AllFound(waiting, locks) && WaitsFor(waiting, locks, i, w) ==> Edge(GraphOf(waiting, locks), i, w)
    {
      EdgesAreWaits(waiting, locks, i, w);
    }
  }

  lemma CyclesAreRings(waiting: seq<Wait>, locks: Locks, v: nat)
    requires DistinctTxns(waiting) && AllLocked(waiting, locks)
    ensures OnCycle(GraphOf(waiting, locks), v) ==> Deadlocked(waiting, locks, v)
    ensures AllFound(waiting, locks) && Deadlocked(waiting, locks, v) ==> OnCycle(GraphOf(waiting, locks), v)
  {
    if OnCycle(GraphOf(waiting, locks), v) {
      var p :| IsCycle(GraphOf(waiting, locks), p) && v in p;
      CycleIsRing(waiting, locks, p);
    }
    if AllFound(waiting, locks) && Deadlocked(waiting, locks, v) {
      var p :| Ring(waiting, locks, p) && v in p;
      CycleIsRing(waiting, locks, p);
    }
  }

  /** A ring in which no transaction occurs twice and which has no room in the array. */
  ghost predicate LongRing(waiting: seq<Wait>, locks: Locks) {
    exists p: seq<nat> :: Ring(waiting, locks, p) && Distinct(p) && |p| >= 50
  }

  /** One round of detection. The transaction picked for aborting is always deadlocked. A deadlock is detected
      iff the edges found form a cycle; if the records stand in the right order, that is iff there is one.
      `overrun` says that the search has a back edge whose walk runs over its array. With exclusive locks only,
      that is when 50 or more transactions wait in a ring, and otherwise exactly the deadlocked transactions
      are listed. */
  method DetectDeadlock(waiting: seq<Wait>, locks: Locks) returns (listed: seq<nat>, overrun: bool)
    requires DistinctTxns(waiting) && AllLocked(waiting, locks)
    ensures WellFormed(GraphOf(waiting, locks))
    ensures listed != [] ==> Deadlocked(waiting, locks, listed[0])
    ensures listed != [] <==> Cyclic(GraphOf(waiting, locks))
    ensures AllFound(waiting, locks) ==> (listed != [] <==> exists v :: Deadlocked(waiting, locks, v))
    ensures overrun <==> exists b :: b in BackEdges(GraphOf(waiting, locks)) && !Returns(GraphOf(waiting, locks), b)
    ensures AllExclusive(waiting, locks) ==> (overrun <==> LongRing(waiting, locks))
    ensures AllExclusive(waiting, locks) && |waiting| < 50 ==> !overrun
    ensures AllExclusive(waiting, locks) && !overrun ==>
              forall v: nat :: v in listed <==> Deadlocked(waiting, locks, v)
  {
    var g := Construct(waiting, locks);
    GraphWellFormed(waiting, locks);
    var search := new Detector(g);
    search.DetectCycles();
    listed, overrun := search.inDeadlock, search.overrun;
    Detected(waiting, locks, listed);
    LongRings(waiting, locks);
    if |g| < IN_CYCLE { SmallGraph(g); }
    if AllExclusive(waiting, locks) && !overrun { AllDetected(waiting, locks, listed); }
  }

  /** What the list says about the waiting transactions. */
  lemma Detected(waiting: seq<Wait>, locks: Locks, listed: seq<nat>)
    requires DistinctTxns(waiting) && AllLocked(waiting, locks)
    requires var g := GraphOf(waiting, locks); ListsOnlyCycles(g, listed) && (listed != [] <==> Cyclic(g))
    ensures listed != [] ==> Deadlocked(waiting, locks, listed[0])
    ensures AllFound(waiting, locks) ==> (listed != [] <==> exists v :: Deadlocked(waiting, locks, v))
  {
    var g := GraphOf(waiting, locks);
    forall v: nat
      ensures OnCycle(g, v) ==> Deadlocked(waiting, locks, v)
      ensures AllFound(waiting, locks) && Deadlocked(waiting, locks, v) ==> OnCycle(g, v)
    {
      CyclesAreRings(waiting, locks, v);
    }
    assert listed != [] ==> listed[0] in listed;
    assert forall v :: OnCycle(g, v) ==> Cyclic(g);
  }

  lemma AllDetected(waiting: seq<Wait>, locks: Locks, listed: seq<nat>)
    requires DistinctTxns(waiting) && AllLocked(waiting, locks) && AllExclusive(waiting, locks)
    requires forall v: nat :: v in listed <==> OnCycle(GraphOf(waiting, locks), v)
    ensures forall v: nat :: v in listed <==> Deadlocked(waiting, locks, v)
  {
    forall v: nat ensures OnCycle(GraphOf(waiting, locks), v) <==> Deadlocked(waiting, locks, v) {
      EdgesAreWaits(waiting, locks, v, v);
      CyclesAreRings(waiting, locks, v);
    }
  }

  /** With exclusive locks the cycles of the graph are the rings. */
  lemma LongRings(waiting: seq<Wait>, locks: Locks)
    requires DistinctTxns(waiting) && AllLocked(waiting, locks)
    ensures AllExclusive(waiting, locks) ==>
              && Functional(GraphOf(waiting, locks))
              && (ShortCycles(GraphOf(waiting, locks)) <==> !LongRing(waiting, locks))
  {
    var g := GraphOf(waiting, locks);
    GraphWellFormed(waiting, locks);
    EdgesAreWaits(waiting, locks, 0, 0);
    if AllExclusive(waiting, locks) {
      forall p: seq<nat> ensures IsCycle(g, p) <==> Ring(waiting, locks, p) {
        CycleIsRing(waiting, locks, p);
      }
    }
  }
}

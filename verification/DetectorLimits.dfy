/** Where the deadlock detector fails: a deadlock it does not see, a transaction that waits for itself, and a
    search that runs over the array in which it collects a cycle. */
module DetectorLimits {
  import opened Basics
  import opened WaitForGraph
  import opened DepthFirst
  import opened DeadlockWalk
  import opened DeadlockDetector
  import opened WaitEdges

  /** Transactions 1 and 2 wait for each other's file; 1 waits for a file that 9, which does not wait, and 2
      share in this order. */
  const MISSED: seq<Wait> := [Wait(1, 10), Wait(2, 20)]
  const MISSED_LOCKS: Locks := map[10 := [Holder(9, false), Holder(2, false)], 20 := [Holder(1, true)]]

  /** They are deadlocked, but the detector sees no cycle: it looks for 2 only after finding 9. */
  lemma DeadlockMissed()
    ensures DistinctTxns(MISSED) && AllLocked(MISSED, MISSED_LOCKS)
    ensures Deadlocked(MISSED, MISSED_LOCKS, 0) && Deadlocked(MISSED, MISSED_LOCKS, 1)
    ensures !AllFound(MISSED, MISSED_LOCKS) && !Cyclic(GraphOf(MISSED, MISSED_LOCKS))
  {
    MissedIsDeadlocked();
    MissedIsAcyclic();
    if AllFound(MISSED, MISSED_LOCKS) {
      CyclesAreRings(MISSED, MISSED_LOCKS, 0);
    }
  }

  lemma MissedIsDeadlocked()
    ensures AllLocked(MISSED, MISSED_LOCKS)
    ensures Deadlocked(MISSED, MISSED_LOCKS, 0) && Deadlocked(MISSED, MISSED_LOCKS, 1)
  {
    assert MISSED_LOCKS[10][1].txn == MISSED[1].txn && MISSED_LOCKS[20][0].txn == MISSED[0].txn;
    assert WaitsFor(MISSED, MISSED_LOCKS, 0, 1) && WaitsFor(MISSED, MISSED_LOCKS, 1, 0);
    var ring: seq<nat> := [0, 1];
    assert Ring(MISSED, MISSED_LOCKS, ring) && ring[0] == 0 && ring[1] == 1;
  }

  lemma MissedIsAcyclic()
    ensures DistinctTxns(MISSED) && AllLocked(MISSED, MISSED_LOCKS)
    ensures !Cyclic(GraphOf(MISSED, MISSED_LOCKS))
  {
    var g, shared := GraphOf(MISSED, MISSED_LOCKS), MISSED_LOCKS[10];
    ScanStops(MISSED, shared, 1, 2, 0);
    ScanStops(MISSED, shared, 0, 0, 0);
    assert g[0] == [];
    var order: seq<nat> := [0, 1];
    forall i, w | 0 <= i < 2 && Edge(g, order[i], w) ensures w in order[..i] {
      assert i == 1;
      EdgesAreWaits(MISSED, MISSED_LOCKS, 1, w);
      assert w == 0 && order[..i][0] == 0;
    }
    assert order[0] == 0 && order[1] == 1;
    TopologicalIsAcyclic(g, order);
  }

  /** A transaction that waits for a file of which it has all the records itself is on no cycle: the scans look
      for other transactions. So it is never listed, and never picked to be aborted. */
  lemma SelfWaitUnseen(waiting: seq<Wait>, locks: Locks, i: nat)
    requires DistinctTxns(waiting) && AllLocked(waiting, locks) && i < |waiting|
    requires forall h :: h in locks[waiting[i].inode] ==> h.txn == waiting[i].txn
    ensures !OnCycle(GraphOf(waiting, locks), i)
  {
    if OnCycle(GraphOf(waiting, locks), i) {
      var w := LeavesBy(GraphOf(waiting, locks), i);
      EdgesAreWaits(waiting, locks, i, w);
      NotOwnWaiter(waiting, locks[waiting[i].inode], i, w);
    }
  }

  lemma LeavesBy(g: Graph, i: nat) returns (w: nat)
    requires OnCycle(g, i)
    ensures Edge(g, i, w)
  {
    var p :| IsCycle(g, p) && i in p;
    var k :| 0 <= k < |p| && p[k] == i;
    w := if k + 1 < |p| then p[k + 1] else p[0];
  }

  lemma NotOwnWaiter(waiting: seq<Wait>, holders: seq<Holder>, i: nat, w: nat)
    requires DistinctTxns(waiting) && i < |waiting| && forall h :: h in holders ==> h.txn == waiting[i].txn
    ensures !Blocks(waiting, holders, i, w)
  {
    forall k | 0 <= k < |holders| ensures holders[k].txn == waiting[i].txn {
      assert holders[k] in holders;
    }
  }

  /** Four waiting transactions: 1 waits for 4, 2 for 3, 3 for the readers 1 and 2, and 4 for the readers 1 and 3. */
  const TRAP: seq<Wait> := [Wait(1, 10), Wait(2, 11), Wait(3, 12), Wait(4, 13)]
  const TRAP_LOCKS: Locks := map[
    10 := [Holder(4, true)],
    11 := [Holder(3, true)],
    12 := [Holder(1, false), Holder(2, false)],
    13 := [Holder(1, false), Holder(3, false)]]

  const TRAP_GRAPH: Graph := [[3], [2], [0, 1], [0, 2]]

  /** A transaction that waits for the one waiting holder `w` of a file. */
  lemma OneEdge(holders: seq<Holder>, i: nat, w: nat)
    requires |holders| == 1 && i < 4 && w < 4 && w != i && TRAP[w].txn == holders[0].txn
    ensures EdgeList(TRAP, holders, i) == [w]
  {
    var lo, hi := if w > i then i + 1 else 0, if w > i then 4 else i;
    FoundNext(TRAP, holders, lo, hi, 0, w);
    assert ScanEdges(TRAP, holders, lo, hi, 0) == [w];
    if w > i {
      ScanStops(TRAP, holders, 0, i, 0);
    } else {
      ScanStops(TRAP, holders, i + 1, 4, 0);
    }
  }

  /** A transaction that waits for two readers, the earlier waiting transactions `v` and `w`. */
  lemma TwoEdges(holders: seq<Holder>, i: nat, v: nat, w: nat)
    requires |holders| == 2 && v < i < 4 && w < i
    requires TRAP[v].txn == holders[0].txn && TRAP[w].txn == holders[1].txn
    ensures EdgeList(TRAP, holders, i) == [v, w]
  {
    ScanStops(TRAP, holders, i + 1, 4, 0);
    FoundNext(TRAP, holders, 0, i, 0, v);
    FoundNext(TRAP, holders, 0, i, 1, w);
    assert ScanEdges(TRAP, holders, 0, i, 1) == [w];
    assert ScanEdges(TRAP, holders, 0, i, 0) == [v] + [w];
  }

  lemma TrapNode(i: nat)
    requires i < 4
    ensures TRAP[i].inode in TRAP_LOCKS && OneMode(TRAP_LOCKS[TRAP[i].inode])
    ensures EdgeList(TRAP, TRAP_LOCKS[TRAP[i].inode], i) == TRAP_GRAPH[i]
  {
    match i
    case 0 => OneEdge([Holder(4, true)], 0, 3);
    case 1 => OneEdge([Holder(3, true)], 1, 2);
    case 2 => TwoEdges([Holder(1, false), Holder(2, false)], 2, 0, 1);
    case 3 => TwoEdges([Holder(1, false), Holder(3, false)], 3, 0, 2);
  }

  /** The graph that the detector builds of them. */
  lemma TrapGraph()
    ensures DistinctTxns(TRAP) && AllLocked(TRAP, TRAP_LOCKS) && GraphOf(TRAP, TRAP_LOCKS) == TRAP_GRAPH
  {
    forall i | 0 <= i < 4
      ensures TRAP[i].inode in TRAP_LOCKS && OneMode(TRAP_LOCKS[TRAP[i].inode])
      ensures EdgeList(TRAP, TRAP_LOCKS[TRAP[i].inode], i) == TRAP_GRAPH[i]
    {
      TrapNode(i);
    }
    TrapTxns();
  }

  lemma TrapTxns()
    ensures DistinctTxns(TRAP)
  {
  }

  const TRAP_EDGE: BackEdge := BackEdge([0, 3, 2, 1], 2)

  /** The search enters 1 from 2, and there meets the back edge to 2. */
  lemma TrapFrom1(met: seq<BackEdge>)
    ensures WellFormed(TRAP_GRAPH)
    ensures TRAP_EDGE in Visit(TRAP_GRAPH, Search([Grey, White, Grey, Grey], met), [0, 3, 2], 1).met
  {
    var s := Search([Grey, Grey, Grey, Grey], met);
    var t := FollowEdge(TRAP_GRAPH, s, [0, 3, 2], 1, 0);
    assert [0, 3, 2] + [1] == TRAP_EDGE.stack;
    assert t.met == met + [TRAP_EDGE];
    assert TRAP_EDGE in FollowFrom(TRAP_GRAPH, t, [0, 3, 2], 1, 1).met;
    assert FollowFrom(TRAP_GRAPH, s, [0, 3, 2], 1, 0) == FollowFrom(TRAP_GRAPH, t, [0, 3, 2], 1, 1);
    assert [Grey, White, Grey, Grey][1 := Grey] == s.colour;
  }

  /** It enters 2 from 3, where the first edge is a back edge to 0 and the second leads to 1. */
  lemma TrapFrom2(met: seq<BackEdge>)
    ensures WellFormed(TRAP_GRAPH)
    ensures TRAP_EDGE in Visit(TRAP_GRAPH, Search([Grey, White, White, Grey], met), [0, 3], 2).met
  {
    var s := Search([Grey, White, Grey, Grey], met);
    var t := FollowEdge(TRAP_GRAPH, s, [0, 3], 2, 0);
    TrapFrom1(t.met);
    assert [0, 3] + [2] == [0, 3, 2];
    assert TRAP_EDGE in FollowEdge(TRAP_GRAPH, t, [0, 3], 2, 1).met;
    assert TRAP_EDGE in FollowFrom(TRAP_GRAPH, t, [0, 3], 2, 1).met;
    assert FollowFrom(TRAP_GRAPH, s, [0, 3], 2, 0) == FollowFrom(TRAP_GRAPH, t, [0, 3], 2, 1);
    assert [Grey, White, White, Grey][2 := Grey] == s.colour;
  }

  /** It enters 3 from 0, where the first edge is a back edge to 0 and the second leads to 2. */
  lemma TrapFrom3(met: seq<BackEdge>)
    ensures WellFormed(TRAP_GRAPH)
    ensures TRAP_EDGE in Visit(TRAP_GRAPH, Search([Grey, White, White, White], met), [0], 3).met
  {
    var s := Search([Grey, White, White, Grey], met);
    var t := FollowEdge(TRAP_GRAPH, s, [0], 3, 0);
    TrapFrom2(t.met);
    assert [0] + [3] == [0, 3];
    assert TRAP_EDGE in FollowEdge(TRAP_GRAPH, t, [0], 3, 1).met;
    assert TRAP_EDGE in FollowFrom(TRAP_GRAPH, t, [0], 3, 1).met;
    assert FollowFrom(TRAP_GRAPH, s, [0], 3, 0) == FollowFrom(TRAP_GRAPH, t, [0], 3, 1);
    assert [Grey, White, White, White][3 := Grey] == s.colour;
  }

  /** It begins with 0, whose edge leads to 3. */
  lemma TrapIsMet()
    ensures WellFormed(TRAP_GRAPH) && TRAP_EDGE in BackEdges(TRAP_GRAPH)
  {
    TrapFrom3([]);
    var s := Search([Grey, White, White, White], []);
    assert Start(TRAP_GRAPH).colour == [White, White, White, White];
    assert [White, White, White, White][0 := Grey] == s.colour;
    assert [] + [0] == [0];
    assert TRAP_EDGE in FollowEdge(TRAP_GRAPH, s, [], 0, 0).met;
    assert TRAP_EDGE in FollowFrom(TRAP_GRAPH, s, [], 0, 0).met;
    assert TRAP_EDGE in Visit(TRAP_GRAPH, Start(TRAP_GRAPH), [], 0).met;
  }

  /** On this stack the first grey edges lead from 0 to 3, from 3 to 0, from 2 to 0 and from 1 to 2. */
  lemma TrapHops()
    ensures Searched(TRAP_GRAPH, TRAP_EDGE.stack) && HopsOf(TRAP_GRAPH, TRAP_EDGE.stack) == [1, 0, 0, 2]
  {
    var stack: seq<nat>, h: Hops := [0, 3, 2, 1], [1, 0, 0, 2];
    assert stack[0] == 0 && stack[1] == 3 && stack[2] == 2;
    forall i | 0 <= i < 4 ensures HopsTo(TRAP_GRAPH, stack, i, h[i]) && HopsLow(TRAP_GRAPH, stack, i) {
      assert FirstInto(TRAP_GRAPH[stack[i]], stack) == 0;
      assert HopsTo(TRAP_GRAPH, stack, i, h[i]);
    }
    HopsUnique(TRAP_GRAPH, stack, h);
  }

  /** From 2 the walk goes to 0, to 3, to 0 and so on: it never comes back to 2. */
  lemma TrapNeverReturns()
    ensures Searched(TRAP_GRAPH, TRAP_EDGE.stack) && !Returns(TRAP_GRAPH, TRAP_EDGE)
    ensures forall n :: n > 0 ==> WalkAt(HopsOf(TRAP_GRAPH, TRAP_EDGE.stack), 2, n) != 2
  {
    TrapHops();
    var h: Hops := [1, 0, 0, 2];
    assert TRAP_EDGE.stack[2] == 2;
    IndexUnique(TRAP_EDGE.stack, 2);
    assert Turn(h, 2) == 2 && h[1] != 2;
    assert !Closes(h, 2);
    ReturnsIffCloses(h, 2);
  }

  /** So the detector runs over its array. */
  method DetectorOverruns() returns (overrun: bool)
    ensures overrun
  {
    TrapGraph();
    TrapIsMet();
    TrapNeverReturns();
    var listed;
    listed, overrun := DetectDeadlock(TRAP, TRAP_LOCKS);
  }
}

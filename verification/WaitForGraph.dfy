/** The wait-for graph of the deadlock detector: what a cycle is, and why a depth-first search meets a
    grey node exactly when there is one. */
module WaitForGraph {

  /** Node `v` has the edges `g[v]`, in the order in which they were added. */
  type Graph = seq<seq<nat>>

  ghost predicate WellFormed(g: Graph) {
    forall v, e :: 0 <= v < |g| && 0 <= e < |g[v]| ==> g[v][e] < |g|
  }

  predicate Edge(g: Graph, v: nat, w: nat) {
    v < |g| && w < |g| && w in g[v]
  }

  /** A walk along edges. */
  ghost predicate IsPath(g: Graph, p: seq<nat>) {
    |p| > 0 && p[0] < |g| && forall i :: 0 <= i < |p| - 1 ==> Edge(g, p[i], p[i + 1])
  }

  /** A closed walk of at least one edge: a set of transactions waiting for each other. */
  ghost predicate IsCycle(g: Graph, p: seq<nat>) {
    IsPath(g, p) && Edge(g, p[|p| - 1], p[0])
  }

  ghost predicate Cyclic(g: Graph) {
    exists p :: IsCycle(g, p)
  }

  /** `order` lists nodes so that every edge of a listed node leads to an earlier one. */
  ghost predicate Topological(g: Graph, order: seq<nat>) {
    forall i, w :: 0 <= i < |order| && Edge(g, order[i], w) ==> w in order[..i]
  }

  /** In a topological order of all nodes, a walk only goes back, so it does not close. */
  lemma TopologicalIsAcyclic(g: Graph, order: seq<nat>)
    requires Topological(g, order) && forall v :: 0 <= v < |g| ==> v in order
    ensures !Cyclic(g)
  {
    forall p | IsCycle(g, p) ensures false {
      assert p[0] in order;
      var i :| 0 <= i < |order| && order[i] == p[0];
      var j := WalkBack(g, order, p, i);
      assert p[0] in order[..j];
      DescendForever(g, order, p, j);
    }
  }

  /** The end of a walk that starts at position `i` stands at a position not after it. */
  lemma {:induction false} WalkBack(g: Graph, order: seq<nat>, p: seq<nat>, i: nat) returns (j: nat)
    requires Topological(g, order) && IsPath(g, p) && i < |order| && order[i] == p[0]
    ensures j <= i && order[j] == p[|p| - 1]
    decreases |p|
  {
    if |p| == 1 {
      j := i;
    } else {
      assert Edge(g, p[0], p[1]);
      var k :| 0 <= k < i && order[k] == p[1];
      assert IsPath(g, p[1..]) by {
        forall m | 0 <= m < |p[1..]| - 1 ensures Edge(g, p[1..][m], p[1..][m + 1]) {
          assert Edge(g, p[m + 1], p[m + 2]);
        }
      }
      j := WalkBack(g, order, p[1..], k);
    }
  }

  /** A cycle whose first node stands before position `j` has it stand earlier and earlier. */
  lemma {:induction false} DescendForever(g: Graph, order: seq<nat>, p: seq<nat>, j: nat)
    requires Topological(g, order) && IsCycle(g, p) && j <= |order| && p[0] in order[..j]
    ensures false
    decreases j
  {
    var i :| 0 <= i < j && order[i] == p[0];
    var k := WalkBack(g, order, p, i);
    assert p[0] in order[..k];
    DescendForever(g, order, p, k);
  }

  datatype Colour = White | Grey | Black

  /** The grey nodes are exactly the nodes of a walk from a root to the node being visited, and a node is
      on it once. */
  ghost predicate GreyIsStack(g: Graph, colour: seq<Colour>, stack: seq<nat>) {
    && |colour| == |g|
    && (forall i :: 0 <= i < |stack| ==> stack[i] < |g| && colour[stack[i]] == Grey)
    && (forall v :: 0 <= v < |g| && colour[v] == Grey ==> v in stack)
    && (forall i, j :: 0 <= i < j < |stack| ==> stack[i] != stack[j])
    && (forall i :: 0 <= i < |stack| - 1 ==> Edge(g, stack[i], stack[i + 1]))
  }

  /** The black nodes in the order in which they were finished; as long as no grey node has been met, that
      is a topological order. */
  ghost predicate BlackIsOrder(g: Graph, colour: seq<Colour>, order: seq<nat>, met: bool) {
    && |colour| == |g|
    && (forall v :: 0 <= v < |g| ==> (colour[v] == Black <==> v in order))
    && (!met ==> Topological(g, order))
  }

  /** A grey node at the far end of an edge of the node being visited closes a cycle. */
  lemma BackEdgeClosesCycle(g: Graph, colour: seq<Colour>, stack: seq<nat>, w: nat) returns (k: nat)
    requires GreyIsStack(g, colour, stack) && stack != [] && Edge(g, stack[|stack| - 1], w) && colour[w] == Grey
    ensures k < |stack| && stack[k] == w && IsCycle(g, stack[k..])
  {
    assert w in stack;
    k :| 0 <= k < |stack| && stack[k] == w;
    var p := stack[k..];
    forall i | 0 <= i < |p| - 1 ensures Edge(g, p[i], p[i + 1]) {
      assert Edge(g, stack[k + i], stack[k + i + 1]);
    }
  }

  /** Finishing a node whose successors are all finished keeps the order topological. */
  lemma FinishNode(g: Graph, order: seq<nat>, v: nat)
    requires Topological(g, order) && forall w :: Edge(g, v, w) ==> w in order
    ensures Topological(g, order + [v])
  {
    var longer := order + [v];
    forall i, w | 0 <= i < |longer| && Edge(g, longer[i], w) ensures w in longer[..i] {
      if i < |order| {
        assert longer[..i] == order[..i];
      } else {
        assert longer[..i] == order;
      }
    }
  }
}

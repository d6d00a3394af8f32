/** The walk by which the deadlock detector lists the members of a cycle: from grey node to grey node, each
    time along the first edge that leads to one. When it comes back to where it started, and when never. */
module DeadlockWalk {
  import opened Basics
  import opened WaitForGraph

  /** For each position of the stack, the position the walk goes to from there: one up, or down, or none. */
  type Hops = h: seq<nat> | forall i :: 0 <= i < |h| ==> h[i] <= i + 1 && h[i] < |h|

  /** The first position from `k` on at which the walk does not go up. */
  function Turn(h: Hops, k: nat): (m: nat)
    requires k < |h|
    ensures k <= m < |h| && h[m] <= m
    ensures forall i :: k <= i < m ==> h[i] == i + 1
    decreases |h| - k
  {
    if h[k] == k + 1 then Turn(h, k + 1) else k
  }

  /** The walk goes up from `k` to its turn, and from there to `k` itself, or below it and then up to it. */
  predicate Closes(h: Hops, k: nat)
    requires k < |h|
  {
    var j := h[Turn(h, k)];
    j == k || (j < k && forall i :: j <= i < k ==> h[i] == i + 1)
  }

  /** How many steps a walk that closes takes. */
  function Length(h: Hops, k: nat): (n: nat)
    requires k < |h|
    ensures 0 < n <= |h|
  {
    var m := Turn(h, k);
    if h[m] < k then m + 1 - h[m] else m + 1 - k
  }

  /** Where the walk from `k` is after `n` steps. */
  function WalkAt(h: Hops, k: nat, n: nat): (i: nat)
    requires k < |h|
    ensures i < |h|
  {
    if n == 0 then k else h[WalkAt(h, k, n - 1)]
  }

  /** The walk goes up as long as the hops do. */
  lemma {:induction false} Climb(h: Hops, k: nat, from: nat, n: nat, p: nat)
    requires k < |h| && WalkAt(h, k, n) == from && from + p < |h|
    requires forall i :: from <= i < from + p ==> h[i] == i + 1
    ensures WalkAt(h, k, n + p) == from + p
  {
    if p > 0 { Climb(h, k, from, n, p - 1); }
  }

  /** Where a walk that closes is at each step. */
  lemma ClosingWalk(h: Hops, k: nat, n: nat)
    requires k < |h| && Closes(h, k) && n <= Length(h, k)
    ensures var m := Turn(h, k);
            WalkAt(h, k, n) == if n <= m - k then k + n
                               else if h[m] == k then k
                               else h[m] + (n - (m - k + 1))
  {
    var m := Turn(h, k);
    if n <= m - k {
      Climb(h, k, k, 0, n);
    } else {
      Climb(h, k, k, 0, m - k);
      assert WalkAt(h, k, m - k + 1) == h[m];
      if h[m] < k {
        Climb(h, k, h[m], m - k + 1, n - (m - k + 1));
      }
    }
  }

  /** A walk that closes comes back for the first time after that many steps. */
  lemma WalkReturns(h: Hops, k: nat, n: nat)
    requires k < |h| && Closes(h, k) && 0 < n <= Length(h, k)
    ensures WalkAt(h, k, n) == k <==> n == Length(h, k)
  {
    ClosingWalk(h, k, n);
  }

  /** Where a walk that does not close is caught: between its turn and where that leads, or below the start. */
  ghost predicate Caught(h: Hops, k: nat, p: nat)
    requires k < |h|
  {
    var m := Turn(h, k);
    if h[m] > k then h[m] <= p <= m else exists q :: p <= q < k && h[q] <= q
  }

  lemma StaysCaught(h: Hops, k: nat, p: nat)
    requires k < |h| && p < |h| && Caught(h, k, p)
    ensures p != k && Caught(h, k, h[p])
  {
    var m := Turn(h, k);
    if h[m] > k {
      assert p < m ==> h[p] == p + 1;
    } else {
      var q :| p <= q < k && h[q] <= q;
      assert h[p] <= q;
    }
  }

  /** The turn catches it. */
  lemma TurnCatches(h: Hops, k: nat)
    requires k < |h| && !Closes(h, k)
    ensures Caught(h, k, h[Turn(h, k)])
  {
    var j := h[Turn(h, k)];
    if j < k {
      var q :| j <= q < k && h[q] != q + 1;
      assert h[q] <= q;
    }
  }

  lemma {:induction false} NeverReturns(h: Hops, k: nat, n: nat)
    requires k < |h| && !Closes(h, k) && n > 0
    ensures WalkAt(h, k, n) != k
    ensures n > Turn(h, k) - k ==> Caught(h, k, WalkAt(h, k, n))
  {
    var m := Turn(h, k);
    if n <= m - k {
      Climb(h, k, k, 0, n);
    } else {
      if n == m - k + 1 {
        Climb(h, k, k, 0, n - 1);
        TurnCatches(h, k);
      } else {
        NeverReturns(h, k, n - 1);
        StaysCaught(h, k, WalkAt(h, k, n - 1));
      }
      StaysCaught(h, k, WalkAt(h, k, n));
    }
  }

  /** The walk ever comes back to its start iff it closes. */
  lemma ReturnsIffCloses(h: Hops, k: nat)
    requires k < |h|
    ensures Closes(h, k) <==> exists n :: n > 0 && WalkAt(h, k, n) == k
  {
    if Closes(h, k) {
      WalkReturns(h, k, Length(h, k));
    } else {
      forall n: nat | n > 0 ensures WalkAt(h, k, n) != k {
        NeverReturns(h, k, n);
      }
    }
  }

  /** The first edge that leads to a node of the stack, or `|edges|`. */
  function FirstInto(edges: seq<nat>, stack: seq<nat>): (e: nat)
    ensures e <= |edges| && (e < |edges| ==> edges[e] in stack)
    ensures forall d :: 0 <= d < e ==> edges[d] !in stack
  {
    if edges == [] || edges[0] in stack then 0 else 1 + FirstInto(edges[1..], stack)
  }

  /** The position of the node to which the first grey edge from position `i` leads. */
  predicate HopsTo(g: Graph, stack: seq<nat>, i: nat, j: nat) {
    && i < |stack| && j < |stack| && stack[i] < |g|
    && var e := FirstInto(g[stack[i]], stack); e < |g[stack[i]]| && g[stack[i]][e] == stack[j]
  }

  /** A stack such as a search builds: the walk goes one position up from a node, or down, or stays. */
  ghost predicate Searched(g: Graph, stack: seq<nat>) {
    Distinct(stack) && forall i :: 0 <= i < |stack| ==> HopsLow(g, stack, i)
  }

  ghost predicate HopsLow(g: Graph, stack: seq<nat>, i: nat) {
    exists j: nat :: j <= i + 1 && HopsTo(g, stack, i, j)
  }

  /** `h` are the hops of the walk along this stack. */
  ghost predicate HopsAlong(g: Graph, stack: seq<nat>, h: Hops) {
    |h| == |stack| && forall i :: 0 <= i < |h| ==> HopsTo(g, stack, i, h[i])
  }

  ghost function HopsOf(g: Graph, stack: seq<nat>): (h: Hops)
    requires Searched(g, stack)
    ensures HopsAlong(g, stack, h)
  {
    seq(|stack|, i requires 0 <= i < |stack| => Hop(g, stack, i))
  }

  ghost function Hop(g: Graph, stack: seq<nat>, i: nat): (j: nat)
    requires Searched(g, stack) && i < |stack|
    ensures j <= i + 1 && HopsTo(g, stack, i, j)
  {
    assert HopsLow(g, stack, i);
    var j: nat :| j <= i + 1 && HopsTo(g, stack, i, j); j
  }

  lemma HopsUnique(g: Graph, stack: seq<nat>, h: Hops)
    requires Searched(g, stack) && HopsAlong(g, stack, h)
    ensures h == HopsOf(g, stack)
  {
    var f := HopsOf(g, stack);
    forall i | 0 <= i < |h| ensures h[i] == f[i] {
      assert HopsTo(g, stack, i, h[i]) && HopsTo(g, stack, i, f[i]);
    }
  }

  /** How the search came up the stack: each node was reached by an edge, and the edges before that one lead
      to finished nodes or to nodes no higher on the stack. */
  ghost predicate Orderly(g: Graph, colour: seq<Colour>, stack: seq<nat>) {
    forall i :: 0 <= i < |stack| - 1 ==> TakenFrom(g, colour, stack, i)
  }

  ghost predicate TakenFrom(g: Graph, colour: seq<Colour>, stack: seq<nat>, i: int)
    requires 0 <= i < |stack| - 1
  {
    stack[i] < |g| && exists e :: 0 <= e < |g[stack[i]]| && TakenBy(g[stack[i]], colour, stack, i, e)
  }

  ghost predicate TakenBy(edges: seq<nat>, colour: seq<Colour>, stack: seq<nat>, i: int, e: int)
    requires 0 <= i < |stack| - 1 && 0 <= e < |edges|
  {
    && edges[e] == stack[i + 1]
    && forall d :: 0 <= d < e ==> edges[d] in stack[..i + 1] || (edges[d] < |colour| && colour[edges[d]] == Black)
  }

  /** At a back edge the stack is such that the walk can be foretold. */
  lemma BackEdgeSearched(g: Graph, colour: seq<Colour>, stack: seq<nat>, w: nat)
    requires GreyIsStack(g, colour, stack) && Orderly(g, colour, stack) && stack != []
    requires Edge(g, stack[|stack| - 1], w) && w in stack
    ensures Searched(g, stack)
  {
    forall i: nat | i < |stack| ensures HopsLow(g, stack, i) {
      var edges := g[stack[i]];
      var f := FirstInto(edges, stack);
      if i < |stack| - 1 {
        assert TakenFrom(g, colour, stack, i);
        var e :| 0 <= e < |edges| && TakenBy(edges, colour, stack, i, e);
        assert edges[e] in stack;
        var j := if f == e then i + 1 else IndexOf(stack[..i + 1], edges[f]);
        assert HopsTo(g, stack, i, j);
      } else {
        var e :| 0 <= e < |edges| && edges[e] == w;
        assert HopsTo(g, stack, i, IndexOf(stack, edges[f]));
      }
    }
  }

  /** Entering a white node along edge `e`, once the edges before it have been followed. */
  lemma EnterOrderly(g: Graph, colour: seq<Colour>, stack: seq<nat>, e: nat)
    requires GreyIsStack(g, colour, stack) && Orderly(g, colour, stack) && stack != [] && WellFormed(g)
    requires var edges := g[stack[|stack| - 1]];
             e < |edges| && colour[edges[e]] == White && forall d :: 0 <= d < e ==> colour[edges[d]] != White
    ensures var w := g[stack[|stack| - 1]][e]; Orderly(g, colour[w := Grey], stack + [w])
  {
    var top := |stack| - 1;
    var edges := g[stack[top]];
    var w := edges[e];
    var path, painted := stack + [w], colour[w := Grey];
    forall i | 0 <= i < |path| - 1 ensures TakenFrom(g, painted, path, i) {
      assert path[..i + 1] == stack[..i + 1];
      if i < top {
        assert TakenFrom(g, colour, stack, i);
        var d :| 0 <= d < |g[stack[i]]| && TakenBy(g[stack[i]], colour, stack, i, d);
        assert TakenBy(g[path[i]], painted, path, i, d);
      } else {
        assert stack[..i + 1] == stack;
        forall d | 0 <= d < e ensures edges[d] in path[..i + 1] || painted[edges[d]] == Black {
          assert colour[edges[d]] == Grey || colour[edges[d]] == Black;
        }
        assert TakenBy(edges, painted, path, i, e);
      }
    }
  }

  /** Finished nodes stay finished, so what is below the top stays as it is. */
  lemma LeaveOrderly(g: Graph, colour: seq<Colour>, stack: seq<nat>, u: nat)
    requires Orderly(g, colour, stack + [u]) && u < |colour|
    ensures Orderly(g, colour[u := Black], stack)
  {
    var path, painted := stack + [u], colour[u := Black];
    forall i | 0 <= i < |stack| - 1 ensures TakenFrom(g, painted, stack, i) {
      assert TakenFrom(g, colour, path, i) && path[..i + 1] == stack[..i + 1];
      var d :| 0 <= d < |g[path[i]]| && TakenBy(g[path[i]], colour, path, i, d);
      assert TakenBy(g[stack[i]], painted, stack, i, d);
    }
  }
}

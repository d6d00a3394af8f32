/** The depth-first search of the deadlock detector as a function: which back edges it meets, in which order,
    and what its stack is then. */
module DepthFirst {
  import opened Basics
  import opened WaitForGraph

  /** An edge from the top of the stack to the grey node `start`. */
  datatype BackEdge = BackEdge(stack: seq<nat>, start: nat)

  datatype Search = Search(colour: seq<Colour>, met: seq<BackEdge>)

  ghost function Whites(colour: seq<Colour>): set<nat> {
    set v: nat | v < |colour| && colour[v] == White
  }

  /** Painting a white node leaves fewer white ones. */
  lemma FewerWhites(colour: seq<Colour>, u: nat, c: Colour)
    requires u < |colour| && colour[u] == White && c != White
    ensures |Whites(colour[u := c])| < |Whites(colour)|
  {
    assert Whites(colour[u := c]) == Whites(colour) - {u};
  }

  /** The visit of a white node, which is reached with `stack` below it. */
  ghost function Visit(g: Graph, s: Search, stack: seq<nat>, u: nat): (r: Search)
    requires WellFormed(g) && |s.colour| == |g| && u < |g| && s.colour[u] == White
    ensures |r.colour| == |g| && Whites(r.colour) <= Whites(s.colour) && s.met <= r.met
    decreases |Whites(s.colour)|, 0, 0
  {
    FewerWhites(s.colour, u, Grey);
    var r := FollowFrom(g, s.(colour := s.colour[u := Grey]), stack, u, 0);
    assert Whites(r.colour[u := Black]) <= Whites(r.colour) <= Whites(s.colour[u := Grey]) <= Whites(s.colour);
    r.(colour := r.colour[u := Black])
  }

  /** The edges of `u` from `e` on, one after the other. */
  ghost function FollowFrom(g: Graph, s: Search, stack: seq<nat>, u: nat, e: nat): (r: Search)
    requires WellFormed(g) && |s.colour| == |g| && u < |g| && e <= |g[u]|
    ensures |r.colour| == |g| && Whites(r.colour) <= Whites(s.colour) && s.met <= r.met
    decreases |Whites(s.colour)|, 2, |g[u]| - e
  {
    if e == |g[u]| then s
    else
      var t := FollowEdge(g, s, stack, u, e);
      SubsetSize(Whites(t.colour), Whites(s.colour));
      FollowFrom(g, t, stack, u, e + 1)
  }

  /** One edge: a grey node is a back edge, a white one is visited. */
  ghost function FollowEdge(g: Graph, s: Search, stack: seq<nat>, u: nat, e: nat): (r: Search)
    requires WellFormed(g) && |s.colour| == |g| && u < |g| && e < |g[u]|
    ensures |r.colour| == |g| && Whites(r.colour) <= Whites(s.colour) && s.met <= r.met
    decreases |Whites(s.colour)|, 1, 0
  {
    match s.colour[g[u][e]]
    case Grey => s.(met := s.met + [BackEdge(stack + [u], g[u][e])])
    case White => Visit(g, s, stack + [u], g[u][e])
    case Black => s
  }

  /** The visits from node `v` on, to the nodes that are still white. */
  ghost function VisitFrom(g: Graph, s: Search, v: nat): (r: Search)
    requires WellFormed(g) && |s.colour| == |g| && v <= |g|
    ensures s.met <= r.met
    decreases |g| - v
  {
    if v == |g| then s
    else VisitFrom(g, if s.colour[v] == White then Visit(g, s, [], v) else s, v + 1)
  }

  ghost function Start(g: Graph): (s: Search)
    ensures |s.colour| == |g|
  {
    Search(seq(|g|, _ => White), [])
  }

  /** The back edges that the search of a graph meets. */
  ghost function BackEdges(g: Graph): seq<BackEdge>
    requires WellFormed(g)
  {
    VisitFrom(g, Start(g), 0).met
  }
}

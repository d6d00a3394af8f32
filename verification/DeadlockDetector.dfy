/** The deadlock detector: a depth-first search over the wait-for graph that lists the members of the
    cycles it meets. */
module DeadlockDetector {
  import opened Basics
  import opened WaitForGraph
  import opened DepthFirst
  import opened DeadlockWalk

  /** Room in the array that collects the members of one cycle. */
  const IN_CYCLE := 50

  /** Every node has at most one edge, as when all waits are for exclusively locked files. */
  ghost predicate Functional(g: Graph) {
    forall v :: 0 <= v < |g| ==> |g[v]| <= 1
  }

  /** No cycle without repetitions is longer than the array that is to hold it. */
  ghost predicate ShortCycles(g: Graph) {
    forall p: seq<nat> :: IsCycle(g, p) && Distinct(p) ==> |p| < IN_CYCLE
  }

  ghost predicate OnCycle(g: Graph, v: nat) {
    exists p :: IsCycle(g, p) && v in p
  }

  /** Only members of cycles are listed. */
  ghost predicate ListsOnlyCycles(g: Graph, list: seq<nat>) {
    forall v :: v in list ==> OnCycle(g, v)
  }

  /** A cycle with a finished member is listed in full. */
  ghost predicate ListsFinishedCycles(g: Graph, colour: seq<Colour>, list: seq<nat>) {
    forall p, v :: IsCycle(g, p) && v in p && v < |colour| && colour[v] == Black ==> Contains(list, p)
  }

  ghost predicate Contains(list: seq<nat>, p: seq<nat>) {
    forall v :: v in p ==> v in list
  }

  /** A set of nodes that no edge leaves contains every cycle that meets it. */
  lemma CycleStaysInside(g: Graph, p: seq<nat>, s: set<nat>, v: nat)
    requires IsCycle(g, p) && v in p && v in s
    requires forall x, y :: x in s && Edge(g, x, y) ==> y in s
    ensures forall x :: x in p ==> x in s
  {
    var i :| 0 <= i < |p| && p[i] == v;
    WalkStaysInside(g, p, s, i, |p| - 1);
    assert Edge(g, p[|p| - 1], p[0]);
    WalkStaysInside(g, p, s, 0, |p| - 1);
  }

  lemma {:induction false} WalkStaysInside(g: Graph, p: seq<nat>, s: set<nat>, i: nat, j: nat)
    requires IsPath(g, p) && i <= j < |p| && p[i] in s
    requires forall x, y :: x in s && Edge(g, x, y) ==> y in s
    ensures forall m :: i <= m <= j ==> p[m] in s
    decreases j - i
  {
    if i < j {
      WalkStaysInside(g, p, s, i, j - 1);
      assert Edge(g, p[j - 1], p[j]);
    }
  }

  /** In a functional graph a cycle that shares a node with the cycle `q` lies inside it. */
  lemma FunctionalCycles(g: Graph, p: seq<nat>, q: seq<nat>, v: nat)
    requires Functional(g) && IsCycle(g, p) && IsCycle(g, q) && v in p && v in q
    ensures Contains(q, p)
  {
    var s := set x | x in q;
    forall x, y | x in s && Edge(g, x, y) ensures y in s {
      var i :| 0 <= i < |q| && q[i] == x;
      assert Edge(g, q[i], q[if i + 1 < |q| then i + 1 else 0]);
    }
    CycleStaysInside(g, p, s, v);
  }

  /** The node after `v` on a cycle through it. */
  lemma CycleSuccessor(g: Graph, p: seq<nat>, v: nat) returns (w: nat)
    requires IsCycle(g, p) && v in p
    ensures w in p && Edge(g, v, w)
  {
    var i :| 0 <= i < |p| && p[i] == v;
    w := p[if i + 1 < |p| then i + 1 else 0];
    assert i + 1 < |p| ==> Edge(g, p[i], p[i + 1]);
  }

  /** A walk that has come from the start of a closed stretch of grey nodes to the grey node `stack[j]` goes on
      up the stack and back to its start: every node on it is on a cycle. */
  lemma WalkCloses(g: Graph, stack: seq<nat>, walk: seq<nat>, j: nat)
    requires j < |stack| && (forall i :: 0 <= i < |stack| - 1 ==> Edge(g, stack[i], stack[i + 1]))
    requires IsPath(g, walk) && walk[|walk| - 1] == stack[j] && Edge(g, stack[|stack| - 1], walk[0])
    ensures OnCycle(g, stack[j])
  {
    var p := walk + stack[j + 1..];
    forall i | 0 <= i < |p| - 1 ensures Edge(g, p[i], p[i + 1]) {
      if i < |walk| - 1 {
        assert Edge(g, walk[i], walk[i + 1]);
      } else {
        var m := i - |walk| + j + 1;
        assert Edge(g, stack[m], stack[m + 1]);
      }
    }
    assert p[|walk| - 1] == stack[j] && p[|p| - 1] == stack[|stack| - 1];
    assert IsCycle(g, p) && stack[j] in p;
  }

  lemma StepPath(g: Graph, p: seq<nat>, v: nat, w: nat)
    requires IsPath(g, p + [v]) && Edge(g, v, w)
    ensures IsPath(g, p + [v] + [w])
  {
    var q := p + [v] + [w];
    forall i | 0 <= i < |q| - 1 ensures Edge(g, q[i], q[i + 1]) {
      if i < |p| { assert Edge(g, (p + [v])[i], (p + [v])[i + 1]); }
    }
  }

  /** What the edges already followed from `u` have led to, in a functional graph: a finished node, or a cycle
      through `u` that has been listed. */
  ghost predicate Accounted(g: Graph, colour: seq<Colour>, list: seq<nat>, u: nat, w: nat) {
    && w < |colour|
    && (colour[w] != Black ==> exists q :: IsCycle(g, q) && u in q && Contains(list, q))
  }

  /** Finishing `u` lists every cycle through it. */
  lemma FinishedCycles(g: Graph, colour: seq<Colour>, list: seq<nat>, u: nat)
    requires Functional(g) && u < |colour| && ListsFinishedCycles(g, colour, list)
    requires forall w :: Edge(g, u, w) ==> Accounted(g, colour, list, u, w)
    ensures ListsFinishedCycles(g, colour[u := Black], list)
  {
    forall p, v | IsCycle(g, p) && v in p && v < |colour| && colour[u := Black][v] == Black
      ensures Contains(list, p)
    {
      if v == u {
        var w := CycleSuccessor(g, p, u);
        assert Accounted(g, colour, list, u, w);
        if colour[w] != Black {
          var q :| IsCycle(g, q) && u in q && Contains(list, q);
          FunctionalCycles(g, p, q, u);
        }
      }
    }
  }

  /** What holds throughout the search: `met` says whether a grey node was met, `list` what has been listed, and
      `rounds` are the cycles that the back edges met so far close. */
  ghost predicate Sound(g: Graph, colour: seq<Colour>, stack: seq<nat>, order: seq<nat>, met: bool, list: seq<nat>,
                        rounds: seq<nat>) {
    && GreyIsStack(g, colour, stack)
    && BlackIsOrder(g, colour, order, met)
    && (met ==> Cyclic(g) && list != [])
    && ListsOnlyCycles(g, list)
    && (Functional(g) ==> ListsFinishedCycles(g, colour, rounds))
  }

  /** The first `e` edges of `u` have been followed. */
  ghost predicate Followed(g: Graph, colour: seq<Colour>, met: bool, rounds: seq<nat>, u: nat, e: nat)
    requires u < |g| && e <= |g[u]|
  {
    && (forall d :: 0 <= d < e ==> g[u][d] < |colour| && colour[g[u][d]] != White)
    && (!met ==> forall d :: 0 <= d < e ==> g[u][d] < |colour| && colour[g[u][d]] == Black)
    && (Functional(g) ==> forall d :: 0 <= d < e ==> Accounted(g, colour, rounds, u, g[u][d]))
  }

  ghost predicate Later(colour: seq<Colour>, later: seq<Colour>) {
    |later| == |colour| && forall v :: 0 <= v < |colour| && colour[v] != White ==> later[v] == colour[v]
  }

  lemma FollowedKept(g: Graph, colour: seq<Colour>, met: bool, list: seq<nat>, u: nat, e: nat,
                     colour': seq<Colour>, met': bool, list': seq<nat>)
    requires u < |g| && e <= |g[u]| && Followed(g, colour, met, list, u, e)
    requires Later(colour, colour') && list <= list' && (met ==> met')
    ensures Followed(g, colour', met', list', u, e)
  {
    if Functional(g) {
      forall d | 0 <= d < e ensures Accounted(g, colour', list', u, g[u][d]) {
        assert Accounted(g, colour, list, u, g[u][d]);
        if colour[g[u][d]] != Black {
          var q :| IsCycle(g, q) && u in q && Contains(list, q);
          assert Contains(list', q);
        }
      }
    }
  }

  lemma GreyEntered(g: Graph, colour: seq<Colour>, stack: seq<nat>, u: nat)
    requires |colour| == |g| && GreyIsStack(g, colour, stack) && u < |g| && colour[u] == White
    requires stack != [] ==> Edge(g, stack[|stack| - 1], u)
    ensures GreyIsStack(g, colour[u := Grey], stack + [u])
  {
    var painted := colour[u := Grey];
    assert forall v :: 0 <= v < |g| && painted[v] == Grey ==> v == u || v in stack;
    assert forall v :: v in stack || v == u ==> v in stack + [u];
  }

  lemma EnterNode(g: Graph, colour: seq<Colour>, stack: seq<nat>, order: seq<nat>, met: bool, list: seq<nat>,
                  rounds: seq<nat>, u: nat)
    requires Sound(g, colour, stack, order, met, list, rounds) && u < |g| && colour[u] == White
    requires stack != [] ==> Edge(g, stack[|stack| - 1], u)
    ensures Sound(g, colour[u := Grey], stack + [u], order, met, list, rounds)
  {
    var painted := colour[u := Grey];
    GreyEntered(g, colour, stack, u);
    assert BlackIsOrder(g, painted, order, met);
    if Functional(g) {
      assert ListsFinishedCycles(g, painted, rounds);
    }
  }

  lemma LeaveNode(g: Graph, colour: seq<Colour>, stack: seq<nat>, order: seq<nat>, met: bool, list: seq<nat>,
                  rounds: seq<nat>, u: nat)
    requires WellFormed(g) && u < |g| && Sound(g, colour, stack + [u], order, met, list, rounds)
    requires Followed(g, colour, met, rounds, u, |g[u]|)
    ensures Sound(g, colour[u := Black], stack, order + [u], met, list, rounds)
  {
    var painted := colour[u := Black];
    var path := stack + [u];
    assert GreyIsStack(g, painted, stack) by {
      forall i | 0 <= i < |stack| ensures stack[i] < |g| && painted[stack[i]] == Grey {
        assert path[i] != path[|stack|];
      }
      forall i | 0 <= i < |stack| - 1 ensures Edge(g, stack[i], stack[i + 1]) {
        assert Edge(g, path[i], path[i + 1]);
      }
      forall i, j | 0 <= i < j < |stack| ensures stack[i] != stack[j] {
        assert path[i] != path[j];
      }
      forall v | 0 <= v < |g| && painted[v] == Grey ensures v in stack {
        assert v in path;
      }
    }
    if !met {
      forall w | Edge(g, u, w) ensures w in order {
        var d :| 0 <= d < |g[u]| && g[u][d] == w;
      }
      FinishNode(g, order, u);
    }
    if Functional(g) {
      forall w | Edge(g, u, w) ensures Accounted(g, colour, rounds, u, w) {
        var d :| 0 <= d < |g[u]| && g[u][d] == w;
      }
      FinishedCycles(g, colour, rounds, u);
    }
  }

  /** The walk that starts at this back edge comes back before the array is full. */
  ghost predicate Returns(g: Graph, b: BackEdge) {
    && Searched(g, b.stack) && b.start in b.stack
    && var h, k := HopsOf(g, b.stack), IndexOf(b.stack, b.start);
       Closes(h, k) && Length(h, k) < IN_CYCLE
  }

  /** On a stack shorter than the array, a walk that closes does so in time. */
  lemma ClosesInTime(g: Graph, b: BackEdge)
    requires Searched(g, b.stack) && b.start in b.stack && |b.stack| < IN_CYCLE
    ensures Returns(g, b) <==> Closes(HopsOf(g, b.stack), IndexOf(b.stack, b.start))
  {
    var h, k := HopsOf(g, b.stack), IndexOf(b.stack, b.start);
    assert Length(h, k) <= |h|;
  }

  lemma FunctionalListing(g: Graph, stack: seq<nat>, k: nat, h: Hops, members: seq<nat>)
    requires Functional(g) && HopsAlong(g, stack, h) && Distinct(stack) && ShortCycles(g)
    requires k < |stack| && Edge(g, stack[|stack| - 1], stack[k])
    requires forall i :: 0 <= i < |stack| - 1 ==> Edge(g, stack[i], stack[i + 1])
    requires Closes(h, k) && Length(h, k) < IN_CYCLE ==> IsCycle(g, members) && |members| == Length(h, k)
    requires forall n :: 0 <= n < |members| ==> members[n] == stack[WalkAt(h, k, n)]
    ensures IsCycle(g, members) && stack[|stack| - 1] in members
  {
    FunctionalWalk(g, stack, k, h);
    RoundIsCycle(g, stack, k);
    ClosingWalk(h, k, |stack| - 1 - k);
    assert members[|stack| - 1 - k] == stack[|stack| - 1];
  }

  /** The nodes from the start of a back edge to its end, up the stack. */
  ghost function RoundOf(b: BackEdge): seq<nat> {
    if b.start in b.stack then b.stack[IndexOf(b.stack, b.start)..] else []
  }

  /** A back edge that was met on this stack. */
  ghost predicate Looping(g: Graph, b: BackEdge) {
    && Searched(g, b.stack) && b.start in b.stack && Edge(g, b.stack[|b.stack| - 1], b.start)
    && forall i :: 0 <= i < |b.stack| - 1 ==> Edge(g, b.stack[i], b.stack[i + 1])
  }

  lemma RoundIsCycle(g: Graph, stack: seq<nat>, k: nat)
    requires k < |stack| && Distinct(stack) && Edge(g, stack[|stack| - 1], stack[k])
    requires forall i :: 0 <= i < |stack| - 1 ==> Edge(g, stack[i], stack[i + 1])
    ensures IsCycle(g, stack[k..]) && Distinct(stack[k..])
    ensures stack[|stack| - 1] in stack[k..]
  {
    var p := stack[k..];
    forall i | 0 <= i < |p| - 1 ensures Edge(g, p[i], p[i + 1]) {
      assert Edge(g, stack[k + i], stack[k + i + 1]);
    }
    assert p[|p| - 1] == stack[|stack| - 1];
  }

  /** When each node has one edge, a walk comes back in time iff the cycle it goes round is short enough. */
  lemma ReturnsIffShort(g: Graph, b: BackEdge)
    requires Functional(g) && Looping(g, b)
    ensures IsCycle(g, RoundOf(b)) && Distinct(RoundOf(b))
    ensures Returns(g, b) <==> |RoundOf(b)| < IN_CYCLE
  {
    var k := IndexOf(b.stack, b.start);
    RoundIsCycle(g, b.stack, k);
    FunctionalWalk(g, b.stack, k, HopsOf(g, b.stack));
  }

  /** The back edges met so far, how many, and whether some walk did not come back in time; `rounds` are the
      nodes of the cycles they close, and those are listed if all cycles are short. */
  ghost predicate Recorded(g: Graph, cycles: nat, met: seq<BackEdge>, overrun: bool, list: seq<nat>, rounds: seq<nat>) {
    && cycles == |met|
    && (forall b :: b in met ==> Looping(g, b))
    && (overrun <==> exists b :: b in met && !Returns(g, b))
    && (forall v :: v in rounds ==> InRound(met, v))
    && (Functional(g) && ShortCycles(g) ==> Contains(list, rounds))
  }

  ghost predicate InRound(met: seq<BackEdge>, v: nat) {
    exists b :: b in met && v in RoundOf(b)
  }

  lemma RecordOneMore(g: Graph, cycles: nat, met: seq<BackEdge>, overrun: bool, list: seq<nat>, rounds: seq<nat>,
                      b: BackEdge, closed: bool, members: seq<nat>)
    requires Recorded(g, cycles, met, overrun, list, rounds) && Looping(g, b)
    requires closed <==> Returns(g, b)
    requires Functional(g) && ShortCycles(g) ==> Contains(members, RoundOf(b))
    ensures Recorded(g, cycles + 1, met + [b], overrun || !closed, list + members, rounds + RoundOf(b))
  {
    var more := met + [b];
    assert forall c :: c in more <==> c in met || c == b;
    if !closed { assert b in more; }
    forall v | v in rounds + RoundOf(b) ensures InRound(more, v) {
      if v in rounds {
        assert InRound(met, v);
        var c :| c in met && v in RoundOf(c);
        assert c in more;
      } else {
        assert b in more;
      }
    }
  }

  /** Listing more members of cycles. */
  lemma ListMore(g: Graph, colour: seq<Colour>, stack: seq<nat>, order: seq<nat>, met: bool, list: seq<nat>,
                 rounds: seq<nat>, members: seq<nat>, round: seq<nat>)
    requires Sound(g, colour, stack, order, met, list, rounds)
    requires Cyclic(g) && members != [] && ListsOnlyCycles(g, members)
    ensures Sound(g, colour, stack, order, true, list + members, rounds + round)
  {
    var more := list + members;
    assert forall v :: v in more <==> v in list || v in members;
    if Functional(g) {
      forall p, v | IsCycle(g, p) && v in p && v < |colour| && colour[v] == Black
        ensures Contains(rounds + round, p)
      {
        assert Contains(rounds, p);
      }
    }
  }

  /** The walk along `h` from `stack[k]` that has listed `members` and stands at `current`. */
  ghost predicate Walking(h: Hops, stack: seq<nat>, k: nat, members: seq<nat>, current: nat)
    requires k < |h| == |stack|
  {
    && current == stack[WalkAt(h, k, |members|)]
    && (forall n :: 0 <= n < |members| ==> members[n] == stack[WalkAt(h, k, n)])
    && (forall n :: 0 < n < |members| ==> WalkAt(h, k, n) != k)
  }

  lemma WalkingOn(h: Hops, stack: seq<nat>, k: nat, members: seq<nat>, current: nat)
    requires k < |h| == |stack| && Distinct(stack) && Walking(h, stack, k, members, current)
    requires members != [] ==> current != stack[k]
    ensures Walking(h, stack, k, members + [current], stack[h[WalkAt(h, k, |members|)]])
  {
    var more := members + [current];
    assert WalkAt(h, k, |more|) == h[WalkAt(h, k, |members|)];
    assert forall n :: 0 <= n < |more| ==> more[n] == if n < |members| then members[n] else current;
  }

  /** The nodes listed are a walk in the graph, and all on cycles. */
  ghost predicate OnWay(g: Graph, stack: seq<nat>, k: nat, members: seq<nat>, current: nat)
    requires k < |stack|
  {
    IsPath(g, members + [current]) && (members + [current])[0] == stack[k] && ListsOnlyCycles(g, members)
  }

  /** The first `n` steps of the walk tell whether it closes in time. */
  lemma WalkEnds(h: Hops, k: nat, n: nat, closed: bool)
    requires k < |h| && 0 < n < IN_CYCLE
    requires forall p :: 0 < p < n ==> WalkAt(h, k, p) != k
    requires closed <==> WalkAt(h, k, n) == k
    requires !closed ==> n == IN_CYCLE - 1
    ensures closed <==> Closes(h, k) && Length(h, k) < IN_CYCLE
    ensures closed ==> n == Length(h, k)
  {
    if Closes(h, k) {
      WalkReturns(h, k, Length(h, k));
      if n <= Length(h, k) { WalkReturns(h, k, n); }
    } else {
      NeverReturns(h, k, n);
    }
  }

  lemma WalkingEnds(h: Hops, stack: seq<nat>, k: nat, members: seq<nat>, current: nat, closed: bool)
    requires k < |h| == |stack| && Distinct(stack) && Walking(h, stack, k, members, current)
    requires 0 < |members| < IN_CYCLE && (closed <==> current == stack[k]) && (!closed ==> |members| == IN_CYCLE - 1)
    ensures closed <==> Closes(h, k) && Length(h, k) < IN_CYCLE
    ensures closed ==> |members| == Length(h, k)
  {
    WalkEnds(h, k, |members|, closed);
  }

  lemma CycleListed(g: Graph, members: seq<nat>, current: nat)
    requires members != [] && IsPath(g, members + [current]) && current == members[0]
    ensures IsCycle(g, members)
  {
    var p := members + [current];
    forall i | 0 <= i < |members| - 1 ensures Edge(g, members[i], members[i + 1]) {
      assert Edge(g, p[i], p[i + 1]);
    }
    assert Edge(g, p[|members| - 1], p[|members|]);
  }

  lemma OnWayFurther(g: Graph, stack: seq<nat>, k: nat, members: seq<nat>, p: nat, next: nat)
    requires k < |stack| && p < |stack| && OnWay(g, stack, k, members, stack[p]) && Edge(g, stack[p], next)
    requires forall i :: 0 <= i < |stack| - 1 ==> Edge(g, stack[i], stack[i + 1])
    requires Edge(g, stack[|stack| - 1], stack[k])
    ensures OnWay(g, stack, k, members + [stack[p]], next)
  {
    StepPath(g, members, stack[p], next);
    WalkCloses(g, stack, members + [stack[p]], p);
  }

  /** Where every node has one edge the walk goes up the stack and from its top to the start. */
  lemma FunctionalWalk(g: Graph, stack: seq<nat>, k: nat, h: Hops)
    requires Functional(g) && HopsAlong(g, stack, h) && Distinct(stack)
    requires k < |stack| && Edge(g, stack[|stack| - 1], stack[k])
    requires forall i :: 0 <= i < |stack| - 1 ==> Edge(g, stack[i], stack[i + 1])
    ensures Turn(h, k) == |stack| - 1 && h[|stack| - 1] == k && Closes(h, k) && Length(h, k) == |stack| - k
  {
    var top := |stack| - 1;
    forall i | 0 <= i < |stack| ensures h[i] == if i < top then i + 1 else k {
      OnlyHop(g, stack, i, h[i], if i < top then i + 1 else k);
    }
    TurnsAtTop(h, k);
  }

  lemma OnlyHop(g: Graph, stack: seq<nat>, i: nat, j: nat, to: nat)
    requires Functional(g) && Distinct(stack) && i < |stack| && to < |stack|
    requires HopsTo(g, stack, i, j) && Edge(g, stack[i], stack[to])
    ensures j == to
  {
    assert g[stack[i]] == [stack[to]];
  }

  lemma TurnsAtTop(h: Hops, k: nat)
    requires k < |h| && forall i :: 0 <= i < |h| ==> h[i] == if i < |h| - 1 then i + 1 else k
    ensures Turn(h, k) == |h| - 1 && Closes(h, k) && Length(h, k) == |h| - k
  {
    assert h[|h| - 1] == k;
  }

  /** Everything that holds throughout the search. */
  ghost predicate Sane(g: Graph, colour: seq<Colour>, stack: seq<nat>, order: seq<nat>, cycles: nat, list: seq<nat>,
                       rounds: seq<nat>, overrun: bool, met: seq<BackEdge>) {
    && WellFormed(g) && Orderly(g, colour, stack)
    && Sound(g, colour, stack, order, cycles > 0, list, rounds)
    && Recorded(g, cycles, met, overrun, list, rounds)
  }

  lemma Entered(g: Graph, colour: seq<Colour>, stack: seq<nat>, order: seq<nat>, cycles: nat, list: seq<nat>,
                rounds: seq<nat>, overrun: bool, met: seq<BackEdge>, u: nat)
    requires Sane(g, colour, stack, order, cycles, list, rounds, overrun, met) && u < |g| && colour[u] == White
    requires stack != [] ==> Edge(g, stack[|stack| - 1], u)
    requires Orderly(g, colour[u := Grey], stack + [u])
    ensures Sane(g, colour[u := Grey], stack + [u], order, cycles, list, rounds, overrun, met)
    ensures Followed(g, colour[u := Grey], cycles > 0, rounds, u, 0)
  {
    EnterNode(g, colour, stack, order, cycles > 0, list, rounds, u);
  }

  lemma Left(g: Graph, colour: seq<Colour>, stack: seq<nat>, order: seq<nat>, cycles: nat, list: seq<nat>,
             rounds: seq<nat>, overrun: bool, met: seq<BackEdge>, u: nat)
    requires Sane(g, colour, stack + [u], order, cycles, list, rounds, overrun, met) && u < |g|
    requires Followed(g, colour, cycles > 0, rounds, u, |g[u]|)
    ensures Sane(g, colour[u := Black], stack, order + [u], cycles, list, rounds, overrun, met)
  {
    LeaveNode(g, colour, stack, order, cycles > 0, list, rounds, u);
    LeaveOrderly(g, colour, stack, u);
  }

  /** Where on the stack the back edge ends. */
  lemma BackEdgeAt(g: Graph, colour: seq<Colour>, stack: seq<nat>, order: seq<nat>, cycles: nat, list: seq<nat>,
                   rounds: seq<nat>, overrun: bool, met: seq<BackEdge>, start: nat) returns (k: nat)
    requires Sane(g, colour, stack, order, cycles, list, rounds, overrun, met) && stack != []
    requires Edge(g, stack[|stack| - 1], start) && start < |colour| && colour[start] == Grey
    ensures k < |stack| && stack[k] == start && Searched(g, stack)
  {
    assert start in stack;
    BackEdgeSearched(g, colour, stack, start);
    k := IndexOf(stack, start);
  }

  /** What following an edge does not disturb. */
  lemma FollowedOne(g: Graph, colour: seq<Colour>, cycles: nat, rounds: seq<nat>, u: nat, e: nat,
                    colour': seq<Colour>, cycles': nat, rounds': seq<nat>)
    requires u < |g| && e < |g[u]| && Followed(g, colour, cycles > 0, rounds, u, e)
    requires Later(colour, colour') && rounds <= rounds' && cycles <= cycles'
    requires g[u][e] < |colour'| && colour'[g[u][e]] != White && (cycles' == 0 ==> colour'[g[u][e]] == Black)
    requires Functional(g) ==> Accounted(g, colour', rounds', u, g[u][e])
    ensures Followed(g, colour', cycles' > 0, rounds', u, e + 1)
  {
    FollowedKept(g, colour, cycles > 0, rounds, u, e, colour', cycles' > 0, rounds');
  }

  /** The back edge from the top of the stack to `stack[k]`, and the cycle that it closes. */
  lemma RoundAt(g: Graph, stack: seq<nat>, k: nat, b: BackEdge, round: seq<nat>)
    requires Searched(g, stack) && k < |stack| && Edge(g, stack[|stack| - 1], stack[k])
    requires forall i :: 0 <= i < |stack| - 1 ==> Edge(g, stack[i], stack[i + 1])
    requires b == BackEdge(stack, stack[k]) && round == stack[k..]
    ensures Looping(g, b) && RoundOf(b) == round
    ensures IsCycle(g, round) && stack[|stack| - 1] in round && Cyclic(g)
    ensures Returns(g, b) <==> Closes(HopsOf(g, stack), k) && Length(HopsOf(g, stack), k) < IN_CYCLE
  {
    IndexUnique(stack, k);
    RoundIsCycle(g, stack, k);
  }

  /** A back edge whose walk has been listed. */
  lemma Reported(g: Graph, colour: seq<Colour>, stack: seq<nat>, order: seq<nat>, cycles: nat, list: seq<nat>,
                 rounds: seq<nat>, overrun: bool, met: seq<BackEdge>, b: BackEdge, round: seq<nat>,
                 members: seq<nat>, closed: bool)
    requires Sane(g, colour, stack, order, cycles, list, rounds, overrun, met) && stack != []
    requires Looping(g, b) && b.stack == stack && RoundOf(b) == round
    requires IsCycle(g, round) && stack[|stack| - 1] in round && (closed <==> Returns(g, b))
    requires ListsOnlyCycles(g, members) && members != [] && b.start < |colour|
    requires Functional(g) && ShortCycles(g) ==> IsCycle(g, members) && stack[|stack| - 1] in members
    ensures Sane(g, colour, stack, order, cycles + 1, list + members, rounds + round, overrun || !closed, met + [b])
    ensures Functional(g) ==> Accounted(g, colour, rounds + round, stack[|stack| - 1], b.start)
  {
    if Functional(g) && ShortCycles(g) { FunctionalCycles(g, round, members, stack[|stack| - 1]); }
    RecordOneMore(g, cycles, met, overrun, list, rounds, b, closed, members);
    ListMore(g, colour, stack, order, cycles > 0, list, rounds, members, round);
    assert Contains(rounds + round, round);
  }

  /** What is known when every node is finished. */
  lemma SearchEnds(g: Graph, colour: seq<Colour>, order: seq<nat>, cycles: nat, list: seq<nat>, rounds: seq<nat>,
                   overrun: bool, met: seq<BackEdge>)
    requires Sane(g, colour, [], order, cycles, list, rounds, overrun, met)
    requires |colour| == |g| && forall v :: 0 <= v < |g| ==> colour[v] == Black
    ensures (cycles > 0 <==> Cyclic(g)) && (list != [] <==> Cyclic(g))
    ensures Functional(g) ==> (overrun <==> !ShortCycles(g))
    ensures Functional(g) && !overrun ==> forall v: nat :: v in list <==> OnCycle(g, v)
  {
    if cycles == 0 { TopologicalIsAcyclic(g, order); }
    if list != [] { ListedIsCyclic(g, list); }
    if Functional(g) {
      OverrunIffLong(g, colour, met, overrun, rounds, cycles, list);
      if !overrun { AllListed(g, colour, list, rounds); }
    }
  }

  class Detector {
    const g: Graph
    const visited: array<Colour>
    var cycles: nat            // how often a grey node was met
    var inDeadlock: seq<nat>   // the members listed; the first one is the transaction to be aborted
    var overrun: bool          // a walk did not come back before its array was full
    ghost var order: seq<nat>
    ghost var met: seq<BackEdge>
    ghost var rounds: seq<nat>   // the nodes of the cycles that these back edges close

    ghost predicate Searching(stack: seq<nat>)
      reads this, visited
    {
      Sane(g, visited[..], stack, order, cycles, inDeadlock, rounds, overrun, met)
    }

    ghost function Now(): Search
      reads this, visited
    {
      Search(visited[..], met)
    }

    constructor (g: Graph)
      requires WellFormed(g)
      ensures this.g == g && fresh(visited) && Searching([]) && Now() == Start(g)
    {
      this.g := g;
      visited := new Colour[|g|](_ => White);
      cycles, inDeadlock, overrun, order, met, rounds := 0, [], false, [], [], [];
      new;
      assert visited[..] == Start(g).colour;
    }

    /** The first edge to a grey node; there is one. */
    method NextGrey(current: nat, ghost stack: seq<nat>) returns (e: nat)
      requires WellFormed(g) && GreyIsStack(g, visited[..], stack) && current < |g|
      requires FirstInto(g[current], stack) < |g[current]|
      ensures e == FirstInto(g[current], stack)
    {
      e := 0;
      while visited[g[current][e]] != Grey
        invariant e <= FirstInto(g[current], stack)
        decreases |g[current]| - e
      {
        e := e + 1;
      }
    }

    /** One step of the walk. */
    method WalkOn(current: nat, ghost stack: seq<nat>, ghost h: Hops, ghost p: nat) returns (next: nat)
      requires WellFormed(g) && GreyIsStack(g, visited[..], stack) && HopsAlong(g, stack, h)
      requires p < |stack| && stack[p] == current
      ensures next == stack[h[p]] && Edge(g, current, next)
    {
      assert HopsTo(g, stack, p, h[p]);
      var e := NextGrey(current, stack);
      next := g[current][e];
    }

    /** Lists the cycle that was closed by an edge to the grey node `start`, by going from grey node to grey
        node, each time along the first edge to one. The loop of the code ends iff it comes back to
        `start`; here it is cut off where the array that holds the nodes would overflow. */
    method Cycle(start: nat, ghost stack: seq<nat>, ghost k: nat, ghost h: Hops)
      returns (members: seq<nat>, closed: bool)
      requires WellFormed(g) && GreyIsStack(g, visited[..], stack) && HopsAlong(g, stack, h)
      requires k < |stack| && stack[k] == start && Edge(g, stack[|stack| - 1], start)
      ensures closed <==> Closes(h, k) && Length(h, k) < IN_CYCLE
      ensures |members| == if closed then Length(h, k) else IN_CYCLE - 1
      ensures forall n :: 0 <= n < |members| ==> members[n] == stack[WalkAt(h, k, n)]
      ensures ListsOnlyCycles(g, members) && (closed ==> IsCycle(g, members))
    {
      members, closed := [], false;
      var current: nat := start;
      while !closed && |members| < IN_CYCLE - 1
        invariant |members| < IN_CYCLE && Walking(h, stack, k, members, current)
        invariant OnWay(g, stack, k, members, current)
        invariant closed <==> members != [] && current == start
        decreases IN_CYCLE - |members|
      {
        ghost var p := WalkAt(h, k, |members|);
        WalkingOn(h, stack, k, members, current);
        var next := WalkOn(current, stack, h, p);
        OnWayFurther(g, stack, k, members, p, next);
        members, current := members + [current], next;
        closed := current == start;
      }
      WalkingEnds(h, stack, k, members, current, closed);
      if closed { CycleListed(g, members, current); }
    }

    /** Lists the cycle of a back edge; in a functional graph the cycle goes through the node being visited. */
    method ListCycle(start: nat, ghost stack: seq<nat>, ghost k: nat) returns (members: seq<nat>, closed: bool)
      requires Searching(stack) && Searched(g, stack)
      requires k < |stack| && stack[k] == start && Edge(g, stack[|stack| - 1], start)
      ensures closed <==> Closes(HopsOf(g, stack), k) && Length(HopsOf(g, stack), k) < IN_CYCLE
      ensures ListsOnlyCycles(g, members) && members != []
      ensures Functional(g) && ShortCycles(g) ==> IsCycle(g, members) && stack[|stack| - 1] in members
    {
      ghost var h := HopsOf(g, stack);
      members, closed := Cycle(start, stack, k, h);
      if Functional(g) && ShortCycles(g) {
        FunctionalListing(g, stack, k, h, members);
      }
    }

    /** An edge to a grey node has been met: a cycle is reported and its members are listed. */
    method Report(start: nat, ghost stack: seq<nat>)
      requires Searching(stack) && stack != [] && Edge(g, stack[|stack| - 1], start) && visited[start] == Grey
      modifies this`cycles, this`inDeadlock, this`overrun, this`met, this`rounds
      ensures Searching(stack) && met == old(met) + [BackEdge(stack, start)] && old(rounds) <= rounds
      ensures Functional(g) ==> Accounted(g, visited[..], rounds, stack[|stack| - 1], start)
    {
      ghost var colour := visited[..];
      ghost var k := BackEdgeAt(g, colour, stack, order, cycles, inDeadlock, rounds, overrun, met, start);
      var members, closed := ListCycle(start, stack, k);
      ghost var b, round := BackEdge(stack, start), stack[k..];
      RoundAt(g, stack, k, b, round);
      Reported(g, colour, stack, order, cycles, inDeadlock, rounds, overrun, met, b, round, members, closed);
      Note(members, closed, b, round);
    }

    /** Counts a cycle and takes down its members. */
    method Note(members: seq<nat>, closed: bool, ghost b: BackEdge, ghost round: seq<nat>)
      requires Sane(g, visited[..], b.stack, order, cycles + 1, inDeadlock + members, rounds + round,
                    overrun || !closed, met + [b])
      modifies this`cycles, this`inDeadlock, this`overrun, this`met, this`rounds
      ensures Searching(b.stack) && met == old(met) + [b] && rounds == old(rounds) + round
    {
      cycles, inDeadlock, overrun := cycles + 1, inDeadlock + members, overrun || !closed;
      met, rounds := met + [b], rounds + round;
    }

    /** Visits `u` and everything that can be reached from it by way of white nodes. */
    method DfsVisit(u: nat, ghost stack: seq<nat>)
      requires Searching(stack) && u < |g| && visited[u] == White
      requires stack != [] ==> Edge(g, stack[|stack| - 1], u)
      requires Orderly(g, visited[..][u := Grey], stack + [u])
      modifies this, visited
      ensures Searching(stack) && visited[u] == Black && Now() == Visit(g, old(Now()), stack, u)
      ensures old(rounds) <= rounds && Later(old(visited[..]), visited[..])
      decreases |Whites(visited[..])|, 0
    {
      PaintGrey(u, stack);
      FollowAll(u, stack);
      PaintBlack(u, stack);
    }

    method PaintGrey(u: nat, ghost stack: seq<nat>)
      requires Searching(stack) && u < |g| && visited[u] == White
      requires stack != [] ==> Edge(g, stack[|stack| - 1], u)
      requires Orderly(g, visited[..][u := Grey], stack + [u])
      modifies visited
      ensures Searching(stack + [u]) && visited[..] == old(visited[..])[u := Grey]
      ensures |Whites(visited[..])| < |Whites(old(visited[..]))|
      ensures Followed(g, visited[..], cycles > 0, rounds, u, 0)
    {
      ghost var start := visited[..];
      Entered(g, start, stack, order, cycles, inDeadlock, rounds, overrun, met, u);
      FewerWhites(start, u, Grey);
      visited[u] := Grey;
      assert visited[..] == start[u := Grey];
    }

    method PaintBlack(u: nat, ghost stack: seq<nat>)
      requires Searching(stack + [u]) && u < |g| && Followed(g, visited[..], cycles > 0, rounds, u, |g[u]|)
      modifies visited, this`order
      ensures Searching(stack) && visited[..] == old(visited[..])[u := Black]
    {
      ghost var now := visited[..];
      Left(g, now, stack, order, cycles, inDeadlock, rounds, overrun, met, u);
      visited[u], order := Black, order + [u];
      assert visited[..] == now[u := Black];
    }

    /** Follows the edges of the node being visited. */
    method FollowAll(u: nat, ghost stack: seq<nat>)
      requires Searching(stack + [u]) && u < |g| && Followed(g, visited[..], cycles > 0, rounds, u, 0)
      modifies this, visited
      ensures Searching(stack + [u]) && old(rounds) <= rounds
      ensures Now() == FollowFrom(g, old(Now()), stack, u, 0) && Later(old(visited[..]), visited[..])
      ensures Followed(g, visited[..], cycles > 0, rounds, u, |g[u]|)
      decreases |Whites(visited[..])|, 2
    {
      ghost var entered := Now();
      var e := 0;
      while e < |g[u]|
        invariant e <= |g[u]| && Searching(stack + [u]) && old(rounds) <= rounds
        invariant Later(entered.colour, visited[..]) && Whites(visited[..]) <= Whites(entered.colour)
        invariant FollowFrom(g, entered, stack, u, 0) == FollowFrom(g, Now(), stack, u, e)
        invariant Followed(g, visited[..], cycles > 0, rounds, u, e)
      {
        SubsetSize(Whites(visited[..]), Whites(entered.colour));
        Follow(u, e, stack);
        e := e + 1;
      }
    }

    /** Follows one edge of the node being visited. */
    method Follow(u: nat, e: nat, ghost stack: seq<nat>)
      requires Searching(stack + [u]) && u < |g| && e < |g[u]| && Followed(g, visited[..], cycles > 0, rounds, u, e)
      modifies this, visited
      ensures Searching(stack + [u]) && old(rounds) <= rounds
      ensures Now() == FollowEdge(g, old(Now()), stack, u, e) && Later(old(visited[..]), visited[..])
      ensures Followed(g, visited[..], cycles > 0, rounds, u, e + 1)
      decreases |Whites(visited[..])|, 1
    {
      ghost var colour, before, known, path := visited[..], cycles, rounds, stack + [u];
      var w := g[u][e];
      assert Edge(g, u, w) && path[|path| - 1] == u;
      if visited[w] == Grey {
        Report(w, path);
      }
      if visited[w] == White {
        EnterOrderly(g, colour, path, e);
        DfsVisit(w, path);
      }
      FollowedOne(g, colour, before, known, u, e, visited[..], cycles, rounds);
    }

    /** The whole search. It meets the back edges that `BackEdges` lists. A cycle is reported exactly when there
        is one, and the transaction chosen for aborting is on a cycle. Some walk runs over its array exactly
        when there is a back edge whose walk does not return in time. If every node has one edge, that is when
        there is a cycle too long for the array, and otherwise exactly the transactions on cycles are listed. */
    method DetectCycles()
      requires Searching([]) && Now() == Start(g)
      modifies this, visited
      ensures Searching([]) && met == BackEdges(g) && (cycles > 0 <==> Cyclic(g))
      ensures forall b :: b in BackEdges(g) ==> Looping(g, b)
      ensures overrun <==> exists b :: b in BackEdges(g) && !Returns(g, b)
      ensures ListsOnlyCycles(g, inDeadlock) && (inDeadlock != [] <==> Cyclic(g))
      ensures Functional(g) ==> (overrun <==> !ShortCycles(g))
      ensures Functional(g) && !overrun ==> forall v: nat :: v in inDeadlock <==> OnCycle(g, v)
    {
      var v := 0;
      while v < |g|
        invariant v <= |g| && Searching([]) && BackEdges(g) == VisitFrom(g, Now(), v).met
        invariant forall w :: 0 <= w < v ==> visited[w] == Black
      {
        ghost var now := visited[..];
        if visited[v] == White {
          DfsVisit(v, []);
        }
        assert visited[v] != Grey;
        assert forall w :: 0 <= w < v ==> now[w] == Black;
        v := v + 1;
      }
      SearchEnds(g, visited[..], order, cycles, inDeadlock, rounds, overrun, met);
    }
  }

  lemma ListedIsCyclic(g: Graph, list: seq<nat>)
    requires ListsOnlyCycles(g, list) && list != []
    ensures Cyclic(g)
  {
    assert list[0] in list;
  }

  lemma AllListed(g: Graph, colour: seq<Colour>, list: seq<nat>, rounds: seq<nat>)
    requires ListsOnlyCycles(g, list) && ListsFinishedCycles(g, colour, rounds) && Contains(list, rounds)
    requires |colour| == |g| && forall v :: 0 <= v < |g| ==> colour[v] == Black
    ensures forall v: nat :: v in list <==> OnCycle(g, v)
  {
    forall v: nat | OnCycle(g, v) ensures v in list {
      var p :| IsCycle(g, p) && v in p;
      var w := CycleSuccessor(g, p, v);
      assert Contains(rounds, p);
    }
  }

  /** When the search of a functional graph has ended, a walk has run over the array iff a cycle is too long. */
  lemma OverrunIffLong(g: Graph, colour: seq<Colour>, met: seq<BackEdge>, overrun: bool, rounds: seq<nat>,
                       cycles: nat, list: seq<nat>)
    requires Functional(g) && ListsFinishedCycles(g, colour, rounds) && Recorded(g, cycles, met, overrun, list, rounds)
    requires |colour| == |g| && forall v :: 0 <= v < |g| ==> colour[v] == Black
    ensures overrun <==> !ShortCycles(g)
  {
    if overrun {
      var b :| b in met && !Returns(g, b);
      ReturnsIffShort(g, b);
    }
    if !ShortCycles(g) {
      var p: seq<nat> :| IsCycle(g, p) && Distinct(p) && |p| >= IN_CYCLE;
      var b := MetOnCycle(g, colour, met, rounds, p);
      ReturnsIffShort(g, b);
    }
  }

  /** Some back edge that was met closes a cycle that contains `p`, and so is as long. */
  lemma MetOnCycle(g: Graph, colour: seq<Colour>, met: seq<BackEdge>, rounds: seq<nat>, p: seq<nat>)
    returns (b: BackEdge)
    requires Functional(g) && ListsFinishedCycles(g, colour, rounds) && IsCycle(g, p) && Distinct(p)
    requires |colour| == |g| && forall v :: 0 <= v < |g| ==> colour[v] == Black
    requires (forall b :: b in met ==> Looping(g, b)) && forall v :: v in rounds ==> InRound(met, v)
    ensures b in met && |p| <= |RoundOf(b)|
  {
    assert p[0] in p && colour[p[0]] == Black;
    assert Contains(rounds, p) && InRound(met, p[0]);
    b :| b in met && p[0] in RoundOf(b);
    ReturnsIffShort(g, b);
    FunctionalCycles(g, p, RoundOf(b), p[0]);
    NoLonger(p, RoundOf(b));
  }

  /** A sequence of distinct elements is no longer than one that contains them all. */
  lemma {:induction false} NoLonger(p: seq<nat>, q: seq<nat>)
    requires Distinct(p) && Contains(q, p)
    ensures |p| <= |q|
  {
    if p != [] {
      var last := |p| - 1;
      assert p[last] in p && p[last] in q;
      var i := IndexOf(q, p[last]);
      forall v | v in p[..last] ensures v in Removed(q, i) {
        var m :| 0 <= m < last && p[m] == v;
        assert v in p && v in q;
        var j :| 0 <= j < |q| && q[j] == v;
        assert Removed(q, i)[if j < i then j else j - 1] == v;
      }
      NoLonger(p[..last], Removed(q, i));
    }
  }

  /** In a graph smaller than the array no cycle is too long for it. */
  lemma SmallGraph(g: Graph)
    requires |g| < IN_CYCLE
    ensures ShortCycles(g)
  {
    forall p: seq<nat> | IsCycle(g, p) && Distinct(p) ensures |p| < IN_CYCLE {
      var all: seq<nat> := seq(|g|, i => i);
      forall v | v in p ensures v in all {
        var w := CycleSuccessor(g, p, v);
        assert all[v] == v;
      }
      NoLonger(p, all);
    }
  }
}

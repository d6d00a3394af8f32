/** The wait list: one node for each file that transactions wait for, sorted by inode, with the number of
    transactions that wait for it. */
module WaitList {
  import opened Basics
  import opened Protocol
  import opened Storage

  datatype WaitNode = WaitNode(inode: File, inWait: nat)

  ghost predicate Ordered(nodes: seq<WaitNode>) {
    && (forall i, j :: 0 <= i < j < |nodes| ==> nodes[i].inode < nodes[j].inode)
    && (forall i :: 0 <= i < |nodes| ==> nodes[i].inWait > 0)
  }

  ghost predicate HasNode(nodes: seq<WaitNode>, f: File) {
    exists i :: 0 <= i < |nodes| && nodes[i].inode == f
  }

  /** The nodes hold the counts of the map `waits`. */
  ghost predicate Counts(nodes: seq<WaitNode>, waits: map<File, nat>) {
    && (forall i :: 0 <= i < |nodes| ==> nodes[i].inode in waits && waits[nodes[i].inode] == nodes[i].inWait)
    && (forall f :: f in waits ==> HasNode(nodes, f))
  }

  lemma InsertedHasNode(nodes: seq<WaitNode>, at: nat, n: WaitNode, f: File)
    requires at <= |nodes| && (n.inode == f || HasNode(nodes, f))
    ensures HasNode(Inserted(nodes, at, n), f)
  {
    if n.inode == f {
      assert Inserted(nodes, at, n)[at].inode == f;
    } else {
      var i :| 0 <= i < |nodes| && nodes[i].inode == f;
      assert Inserted(nodes, at, n)[if i < at then i else i + 1].inode == f;
    }
  }

  lemma InsertKeeps(nodes: seq<WaitNode>, at: nat, f: File, waits: map<File, nat>)
    requires Ordered(nodes) && Counts(nodes, waits) && at <= |nodes|
    requires (forall i :: 0 <= i < at ==> nodes[i].inode < f) && (forall i :: at <= i < |nodes| ==> nodes[i].inode > f)
    ensures f !in waits
    ensures var r := Inserted(nodes, at, WaitNode(f, 1)); Ordered(r) && Counts(r, waits[f := 1])
  {
    var r, more := Inserted(nodes, at, WaitNode(f, 1)), waits[f := 1];
    assert !HasNode(nodes, f);
    forall i | 0 <= i < |r| ensures r[i].inode in more && more[r[i].inode] == r[i].inWait {
      if i != at {
        var j := if i < at then i else i - 1;
        assert r[i] == nodes[j] && nodes[j].inode in waits;
      }
    }
    forall g | g in more ensures HasNode(r, g) {
      InsertedHasNode(nodes, at, WaitNode(f, 1), g);
    }
  }

  lemma UpdateKeeps(nodes: seq<WaitNode>, at: nat, n: nat, waits: map<File, nat>)
    requires Ordered(nodes) && Counts(nodes, waits) && at < |nodes| && n > 0
    ensures var r := nodes[at := nodes[at].(inWait := n)]; Ordered(r) && Counts(r, waits[nodes[at].inode := n])
  {
    var r := nodes[at := nodes[at].(inWait := n)];
    assert forall i :: 0 <= i < |nodes| ==> r[i].inode == nodes[i].inode;
    forall g | g in waits ensures HasNode(r, g) {
      var i :| 0 <= i < |nodes| && nodes[i].inode == g;
      assert r[i].inode == g;
    }
  }

  lemma RemovedHasNode(nodes: seq<WaitNode>, at: nat, f: File)
    requires at < |nodes| && nodes[at].inode != f && HasNode(nodes, f)
    ensures HasNode(Removed(nodes, at), f)
  {
    var i :| 0 <= i < |nodes| && nodes[i].inode == f;
    assert Removed(nodes, at)[if i < at then i else i - 1].inode == f;
  }

  lemma RemoveKeeps(nodes: seq<WaitNode>, at: nat, waits: map<File, nat>)
    requires Ordered(nodes) && Counts(nodes, waits) && at < |nodes|
    ensures Ordered(Removed(nodes, at)) && Counts(Removed(nodes, at), waits - {nodes[at].inode})
  {
    var r, f := Removed(nodes, at), nodes[at].inode;
    forall i | 0 <= i < |r| ensures r[i].inode != f && r[i].inode in waits && waits[r[i].inode] == r[i].inWait {
      var j := if i < at then i else i + 1;
      assert r[i] == nodes[j] && nodes[j].inode in waits;
    }
    forall g | g in waits - {f} ensures HasNode(r, g) {
      RemovedHasNode(nodes, at, g);
    }
  }

  class WaitList {
    var nodes: seq<WaitNode>

    constructor ()
      ensures Ordered(nodes) && Counts(nodes, map[])
    {
      nodes := [];
    }

    /** The position of the node of `f`, or the length of the list. */
    method Search(f: File) returns (at: nat)
      ensures at <= |nodes| && (at < |nodes| <==> HasNode(nodes, f))
      ensures at < |nodes| ==> nodes[at].inode == f
    {
      at := 0;
      while at < |nodes| && nodes[at].inode != f
        invariant at <= |nodes| && forall i :: 0 <= i < at ==> nodes[i].inode != f
      {
        at := at + 1;
      }
    }

    /** A node for the first transaction that waits for `f`. */
    method Insert(f: File, ghost waits: map<File, nat>)
      requires Ordered(nodes) && Counts(nodes, waits) && !HasNode(nodes, f)
      modifies this
      ensures f !in waits && Ordered(nodes) && Counts(nodes, waits[f := 1])
    {
      var at := 0;
      while at < |nodes| && nodes[at].inode <= f
        invariant at <= |nodes| && forall i :: 0 <= i < at ==> nodes[i].inode < f
      {
        at := at + 1;
      }
      InsertKeeps(nodes, at, f, waits);
      nodes := Inserted(nodes, at, WaitNode(f, 1));
    }

    /** One more transaction waits at the node. */
    method Add(at: nat, ghost waits: map<File, nat>)
      requires Ordered(nodes) && Counts(nodes, waits) && at < |nodes|
      modifies this
      ensures var f := old(nodes[at].inode); f in waits && Counts(nodes, waits[f := waits[f] + 1])
      ensures Ordered(nodes)
    {
      UpdateKeeps(nodes, at, nodes[at].inWait + 1, waits);
      nodes := nodes[at := nodes[at].(inWait := nodes[at].inWait + 1)];
    }

    /** A transaction leaves the node of `f`, which goes with the last one. */
    method Leave(f: File, ghost waits: map<File, nat>)
      requires Ordered(nodes) && Counts(nodes, waits) && HasNode(nodes, f)
      modifies this
      ensures Ordered(nodes) && Counts(nodes, LeaveWaitNode(waits, f))
    {
      var at := Search(f);
      if nodes[at].inWait == 1 {
        RemoveKeeps(nodes, at, waits);
        nodes := Removed(nodes, at);
      } else {
        UpdateKeeps(nodes, at, nodes[at].inWait - 1, waits);
        nodes := nodes[at := nodes[at].(inWait := nodes[at].inWait - 1)];
      }
    }
  }
}

/** Directory iteration: open search contexts survive the removal of the entries they stand at. */
module DirectorySearch {
  import opened Basics

  type DirId = int
  type Obj = int

  /** The object after `o` in the list of children. */
  function After(kids: seq<Obj>, o: Obj): Option<Obj>
    requires o in kids
  {
    var i := IndexOf(kids, o) + 1;
    if i < |kids| then Some(kids[i]) else None
  }

  function First(kids: seq<Obj>): Option<Obj> {
    if kids == [] then None else Some(kids[0])
  }

  function Without(kids: seq<Obj>, o: Obj): seq<Obj>
    requires o in kids
  {
    Removed(kids, IndexOf(kids, o))
  }

  /** Where a context stands that is to return `next`. */
  ghost function Position(kids: seq<Obj>, next: Option<Obj>): nat
    requires next.Some? ==> next.value in kids
  {
    match next
    case None => |kids|
    case Some(o) => IndexOf(kids, o)
  }

  /** A pass over a directory in progress: it stands at a child or at the end, and of the children that
      have been there all along it has returned exactly those it has gone past, each once. */
  ghost predicate Passing(kids: seq<Obj>, next: Option<Obj>, stayed: set<Obj>, returned: seq<Obj>) {
    && Distinct(kids)
    && (next.Some? ==> next.value in kids)
    && (forall o :: o in stayed ==> o in kids)
    && (forall i :: 0 <= i < |kids| && kids[i] in stayed ==>
          multiset(returned)[kids[i]] == if i < Position(kids, next) then 1 else 0)
  }

  lemma PassBegins(kids: seq<Obj>)
    requires Distinct(kids)
    ensures Passing(kids, First(kids), set o | o in kids, [])
  {
    if kids != [] { IndexUnique(kids, 0); }
  }

  lemma PassGoesOn(kids: seq<Obj>, o: Obj, stayed: set<Obj>, returned: seq<Obj>)
    requires Passing(kids, Some(o), stayed, returned)
    ensures Passing(kids, After(kids, o), stayed, returned + [o])
  {
    var k := IndexOf(kids, o);
    if k + 1 < |kids| { IndexUnique(kids, k + 1); }
    assert multiset(returned + [o]) == multiset(returned) + multiset{o};
  }

  lemma WithoutAt(kids: seq<Obj>, o: Obj)
    requires Distinct(kids) && o in kids
    ensures |Without(kids, o)| == |kids| - 1 && Distinct(Without(kids, o))
    ensures forall i :: 0 <= i < |kids| - 1 ==>
              Without(kids, o)[i] == kids[if i < IndexOf(kids, o) then i else i + 1]
  {
  }

  lemma IndexWithout(kids: seq<Obj>, o: Obj, x: Obj)
    requires Distinct(kids) && o in kids && x in kids && x != o
    ensures x in Without(kids, o)
    ensures IndexOf(Without(kids, o), x) == IndexOf(kids, x) - if IndexOf(kids, x) < IndexOf(kids, o) then 0 else 1
  {
    var k, m, fewer := IndexOf(kids, o), IndexOf(kids, x), Without(kids, o);
    WithoutAt(kids, o);
    assert fewer[if m < k then m else m - 1] == x;
    IndexUnique(fewer, if m < k then m else m - 1);
  }

  lemma WithoutSubset(kids: seq<Obj>, o: Obj)
    requires Distinct(kids) && o in kids
    ensures Distinct(Without(kids, o)) && o !in Without(kids, o)
    ensures forall x :: x in Without(kids, o) ==> x in kids
  {
    WithoutAt(kids, o);
  }

  /** Removing an object, after the contexts that stand at it have been moved on. */
  lemma PassSurvivesRemoval(kids: seq<Obj>, next: Option<Obj>, stayed: set<Obj>, returned: seq<Obj>, o: Obj)
    requires Passing(kids, next, stayed, returned) && o in kids
    ensures Passing(Without(kids, o), if next == Some(o) then After(kids, o) else next, stayed - {o}, returned)
  {
    var k := IndexOf(kids, o);
    var fewer, moved := Without(kids, o), if next == Some(o) then After(kids, o) else next;
    WithoutAt(kids, o);
    if next == Some(o) && moved.Some? { IndexUnique(kids, k + 1); }
    if moved.Some? { IndexWithout(kids, o, moved.value); }
    var p := Position(kids, next);
    assert Position(fewer, moved) == if p <= k then p else p - 1;
    forall x | x in stayed - {o} ensures x in fewer {
      IndexWithout(kids, o, x);
    }
  }

  lemma InsertedDistinct(kids: seq<Obj>, o: Obj, at: nat)
    requires Distinct(kids) && o !in kids && at <= |kids|
    ensures Distinct(Inserted(kids, at, o))
    ensures forall x :: x in Inserted(kids, at, o) <==> x == o || x in kids
  {
    var more := Inserted(kids, at, o);
    forall x | x in kids ensures x in more {
      var i := IndexOf(kids, x);
      assert more[if i < at then i else i + 1] == x;
    }
    forall i, j | 0 <= i < j < |more| ensures more[i] != more[j] {
      assert i != at ==> more[i] == kids[if i < at then i else i - 1];
      assert j != at ==> more[j] == kids[if j < at then j else j - 1];
    }
  }

  lemma IndexInserted(kids: seq<Obj>, o: Obj, at: nat, x: Obj)
    requires Distinct(kids) && o !in kids && at <= |kids| && x in kids
    ensures x in Inserted(kids, at, o)
    ensures IndexOf(Inserted(kids, at, o), x) == IndexOf(kids, x) + if IndexOf(kids, x) < at then 0 else 1
  {
    var m, more := IndexOf(kids, x), Inserted(kids, at, o);
    InsertedDistinct(kids, o, at);
    assert more[if m < at then m else m + 1] == x;
    IndexUnique(more, if m < at then m else m + 1);
  }

  /** A new child can be put anywhere in the list. */
  lemma PassSurvivesAddition(kids: seq<Obj>, next: Option<Obj>, stayed: set<Obj>, returned: seq<Obj>, o: Obj, at: nat)
    requires Passing(kids, next, stayed, returned) && o !in kids && at <= |kids|
    ensures Passing(Inserted(kids, at, o), next, stayed, returned)
  {
    var more := Inserted(kids, at, o);
    InsertedDistinct(kids, o, at);
    if next.Some? { IndexInserted(kids, o, at, next.value); }
    forall i | 0 <= i < |more| && more[i] in stayed
      ensures multiset(returned)[more[i]] == if i < Position(more, next) then 1 else 0
    {
      assert i != at;
      var j := if i < at then i else i - 1;
      assert more[i] == kids[j];
    }
  }

  class Context {
    const dir: DirId
    var nextReturn: Option<Obj>
    var offset: nat
    ghost var stayed: set<Obj>     // the children at the last rewind that have not been removed since
    ghost var returned: seq<Obj>   // what has been returned since then

    constructor (dir: DirId)
      ensures this.dir == dir
    {
      this.dir := dir;
      nextReturn, offset, stayed, returned := None, 0, {}, [];
    }
  }

  /** The open search contexts, and the directories they go over. */
  class Searches {
    var children: map<DirId, seq<Obj>>
    var contexts: seq<Context>

    /** Every object is in one directory, once; every context is in the middle of a pass. */
    ghost predicate Valid()
      reads this, contexts
    {
      && (forall d :: d in children ==> Distinct(children[d]))
      && (forall d, e, o :: d in children && e in children && o in children[d] && o in children[e] ==> d == e)
      && (forall i, j :: 0 <= i < j < |contexts| ==> contexts[i] != contexts[j])
      && (forall c :: c in contexts ==> Standing(c))
    }

    ghost predicate Standing(c: Context)
      reads this, c
    {
      c.dir in children && Passing(children[c.dir], c.nextReturn, c.stayed, c.returned)
    }

    constructor (children: map<DirId, seq<Obj>>)
      requires forall d :: d in children ==> Distinct(children[d])
      requires forall d, e, o :: d in children && e in children && o in children[d] && o in children[e] ==> d == e
      ensures Valid() && this.children == children && contexts == []
    {
      this.children, contexts := children, [];
    }

    method SetDirRewound(c: Context)
      requires c.dir in children && Distinct(children[c.dir])
      modifies c
      ensures Standing(c) && c.offset == 0
      ensures c.stayed == (set o | o in children[c.dir]) && c.returned == []
    {
      c.offset := 0;
      c.nextReturn := if children[c.dir] == [] then None else Some(children[c.dir][0]);
      c.stayed, c.returned := set o | o in children[c.dir], [];
      PassBegins(children[c.dir]);
    }

    method DirAdvance(c: Context)
      requires c.dir in children && (c.nextReturn.Some? ==> c.nextReturn.value in children[c.dir])
      modifies c`nextReturn
      ensures c.nextReturn == if old(c.nextReturn).Some? then After(children[c.dir], old(c.nextReturn).value) else None
    {
      if c.nextReturn == None || children[c.dir] == [] {
        c.nextReturn := None;
      } else {
        c.nextReturn := After(children[c.dir], c.nextReturn.value);
      }
    }

    method OpenDir(dir: DirId) returns (c: Context)
      requires Valid() && dir in children
      modifies this`contexts
      ensures Valid() && fresh(c) && contexts == [c] + old(contexts)
      ensures c.dir == dir && c.stayed == (set o | o in children[dir]) && c.returned == []
    {
      c := new Context(dir);
      contexts := [c] + contexts;
      SetDirRewound(c);
    }

    method CloseDir(c: Context)
      requires Valid() && c in contexts
      modifies this`contexts
      ensures Valid() && c !in contexts && forall d :: d in old(contexts) && d != c ==> d in contexts
    {
      var i := 0;
      while contexts[i] != c
        invariant i < |contexts| && c !in contexts[..i]
        decreases |contexts| - i
      {
        i := i + 1;
      }
      ghost var was := contexts;
      contexts := contexts[..i] + contexts[i + 1..];
      assert forall j :: 0 <= j < |contexts| ==> contexts[j] == was[if j < i then j else j + 1];
      forall d | d in contexts ensures d in was && Standing(d) {
      }
      forall d | d in was && d != c ensures d in contexts {
        var j :| 0 <= j < |was| && was[j] == d;
        assert contexts[if j < i then j else j - 1] == d;
      }
    }

    method RewindDir(c: Context)
      requires Valid() && c in contexts
      modifies c
      ensures Valid() && c.stayed == (set o | o in children[c.dir]) && c.returned == []
    {
      SetDirRewound(c);
    }

    /** Returns the next child. What is returned is a child at that time; when there is nothing left, every
        child that has been there since the last rewind has been returned exactly once. */
    method ReadDir(c: Context) returns (entry: Option<(Obj, nat)>)
      requires Valid() && c in contexts
      modifies c
      ensures Valid() && c.stayed == old(c.stayed)
      ensures entry.Some? ==> entry.value.0 in children[c.dir] && c.returned == old(c.returned) + [entry.value.0]
      ensures entry.Some? ==> entry.value.1 == old(c.offset) && c.offset == old(c.offset) + 1
      ensures entry.None? ==> c.returned == old(c.returned)
      ensures entry.None? ==> forall o :: o in c.stayed ==> multiset(c.returned)[o] == 1
    {
      if c.nextReturn.Some? {
        var o := c.nextReturn.value;
        PassGoesOn(children[c.dir], o, c.stayed, c.returned);
        entry := Some((o, c.offset));
        c.offset := c.offset + 1;
        DirAdvance(c);
        c.returned := c.returned + [o];
      } else {
        entry := None;
        forall o | o in c.stayed ensures multiset(c.returned)[o] == 1 {
          var i :| 0 <= i < |children[c.dir]| && children[c.dir][i] == o;
        }
      }
    }

    /** Where a context stands after the object has been announced as going away. */
    ghost function MovedOn(c: Context, next: Option<Obj>, o: Obj): Option<Obj>
      reads this
    {
      if next == Some(o) && c.dir in children && o in children[c.dir] then After(children[c.dir], o) else next
    }

    /** Moves on every context that stands at the object. */
    method RemoveObjectCallback(o: Obj)
      requires Valid()
      modifies contexts
      ensures forall c :: c in contexts ==>
                && c.stayed == old(c.stayed) && c.returned == old(c.returned) && c.offset == old(c.offset)
                && c.nextReturn == MovedOn(c, old(c.nextReturn), o)
    {
      var i := 0;
      while i < |contexts|
        invariant i <= |contexts|
        invariant forall c :: c in contexts ==>
                    c.stayed == old(c.stayed) && c.returned == old(c.returned) && c.offset == old(c.offset)
        invariant forall j :: i <= j < |contexts| ==> contexts[j].nextReturn == old(contexts[j].nextReturn)
        invariant forall j :: 0 <= j < i ==>
                    contexts[j].nextReturn == MovedOn(contexts[j], old(contexts[j].nextReturn), o)
      {
        if contexts[i].nextReturn == Some(o) {
          assert old(Standing(contexts[i]));
          DirAdvance(contexts[i]);
        }
        i := i + 1;
      }
    }

    /** Removes an object: the callback comes first, while the object still has a successor. */
    method Remove(dir: DirId, o: Obj)
      requires Valid() && dir in children && o in children[dir]
      modifies this`children, contexts
      ensures Valid() && children == old(children)[dir := Without(old(children)[dir], o)]
      ensures forall c :: c in contexts ==>
                && c.returned == old(c.returned)
                && c.stayed == if c.dir == dir then old(c.stayed) - {o} else old(c.stayed)
    {
      RemoveObjectCallback(o);
      forall c | c in contexts && c.dir == dir {
        c.stayed := c.stayed - {o};
      }
      children := children[dir := Without(children[dir], o)];
      WithoutSubset(old(children)[dir], o);
      forall c | c in contexts ensures Standing(c) {
        assert old(Standing(c));
        if c.dir == dir {
          PassSurvivesRemoval(old(children)[dir], old(c.nextReturn), old(c.stayed), c.returned, o);
        }
      }
    }

    /** Adds an object, anywhere in the list. */
    method Add(dir: DirId, o: Obj, at: nat)
      requires Valid() && dir in children && at <= |children[dir]|
      requires forall d :: d in children ==> o !in children[d]
      modifies this`children
      ensures Valid() && children == old(children)[dir := Inserted(old(children)[dir], at, o)]
    {
      ghost var kids := children[dir];
      children := children[dir := Inserted(children[dir], at, o)];
      InsertedDistinct(kids, o, at);
      forall c | c in contexts ensures Standing(c) {
        assert old(Standing(c));
        if c.dir == dir {
          PassSurvivesAddition(kids, c.nextReturn, c.stayed, c.returned, o, at);
        }
      }
    }
  }
}

/** The array that counts how often each transaction has been paused for the backup. */
module PauseArray {
  import opened Protocol

  const ENTRIES := 100

  const FREED: TxnId := -1

  /** How the counting of a pause ends: too often, to be asked again, or by a store past the array. */
  datatype Counted = TooOften | Again | Overrun

  datatype Entry = Entry(txn: TxnId, times: nat)

  /** Entries 1 to `last` have been given out; those that were reset belong to nobody and are not given out
      again. Entry 0 and the entries not given out are zero. */
  ghost predicate Laid(s: seq<Entry>, last: nat) {
    && |s| == ENTRIES && last < ENTRIES && s[0] == Entry(0, 0)
    && (forall i :: last < i < ENTRIES ==> s[i] == Entry(0, 0))
    && (forall i :: 1 <= i <= last ==> s[i].txn > 0 || s[i] == Entry(FREED, 0))
    && (forall i, j :: 1 <= i < j <= last && s[i].txn > 0 ==> s[i].txn != s[j].txn)
  }

  /** The entries hold the pauses of the map. */
  ghost predicate Counts(s: seq<Entry>, last: nat, pauses: map<TxnId, nat>)
    requires Laid(s, last)
  {
    && (forall i :: 1 <= i <= last && s[i].txn > 0 ==> s[i].txn in pauses && pauses[s[i].txn] == s[i].times)
    && (forall t :: t in pauses ==> t > 0 && HasEntry(s, last, t))
  }

  ghost predicate HasEntry(s: seq<Entry>, last: nat, t: TxnId) {
    exists i :: 1 <= i <= last && i < |s| && s[i].txn == t
  }

  function Times(pauses: map<TxnId, nat>, t: TxnId): nat {
    if t in pauses then pauses[t] else 0
  }

  ghost predicate IsReset(s: seq<Entry>, r: seq<Entry>, t: TxnId) {
    |r| == |s| && forall j :: 0 <= j < |s| ==> r[j] == if s[j].txn == t then Entry(FREED, 0) else s[j]
  }

  lemma ResetKeeps(s: seq<Entry>, r: seq<Entry>, last: nat, t: TxnId, pauses: map<TxnId, nat>)
    requires Laid(s, last) && Counts(s, last, pauses) && t > 0 && IsReset(s, r, t)
    ensures Laid(r, last) && Counts(r, last, pauses - {t})
  {
    forall u | u in pauses && u != t ensures HasEntry(r, last, u) {
      var j :| 1 <= j <= last && s[j].txn == u;
      assert r[j].txn == u;
    }
  }

  lemma UpdateKeeps(s: seq<Entry>, last: nat, i: nat, times: nat, pauses: map<TxnId, nat>)
    requires Laid(s, last) && Counts(s, last, pauses) && 1 <= i <= last && s[i].txn > 0
    ensures Laid(s[i := Entry(s[i].txn, times)], last)
    ensures Counts(s[i := Entry(s[i].txn, times)], last, pauses[s[i].txn := times])
  {
    var r := s[i := Entry(s[i].txn, times)];
    assert forall j :: 0 <= j < |s| ==> r[j].txn == s[j].txn;
    forall u | u in pauses ensures HasEntry(r, last, u) {
      var j :| 1 <= j <= last && s[j].txn == u;
      assert r[j].txn == u;
    }
  }

  lemma NewEntryLaid(s: seq<Entry>, last: nat, t: TxnId)
    requires Laid(s, last) && last + 1 < ENTRIES && t > 0 && !HasEntry(s, last, t)
    ensures Laid(s[last + 1 := Entry(t, 1)], last + 1)
  {
    assert forall j :: 1 <= j <= last ==> s[j].txn != t;
  }

  lemma NewEntryKeeps(s: seq<Entry>, last: nat, t: TxnId, pauses: map<TxnId, nat>)
    requires Laid(s, last) && Counts(s, last, pauses) && last + 1 < ENTRIES && t > 0 && !HasEntry(s, last, t)
    ensures t !in pauses
    ensures Laid(s[last + 1 := Entry(t, 1)], last + 1)
    ensures Counts(s[last + 1 := Entry(t, 1)], last + 1, pauses[t := 1])
  {
    var r, more := s[last + 1 := Entry(t, 1)], pauses[t := 1];
    NewEntryLaid(s, last, t);
    forall i | 1 <= i <= last + 1 && r[i].txn > 0 ensures r[i].txn in more && more[r[i].txn] == r[i].times {
      assert i <= last ==> r[i] == s[i] && s[i].txn != t;
    }
    forall u | u in more ensures u > 0 && HasEntry(r, last + 1, u) {
      if u == t {
        assert r[last + 1].txn == t;
      } else {
        StillHasEntry(s, last, t, u);
      }
    }
  }

  lemma StillHasEntry(s: seq<Entry>, last: nat, t: TxnId, u: TxnId)
    requires HasEntry(s, last, u) && last + 1 < |s|
    ensures HasEntry(s[last + 1 := Entry(t, 1)], last + 1, u)
  {
    var j :| 1 <= j <= last && j < |s| && s[j].txn == u;
    assert s[last + 1 := Entry(t, 1)][j].txn == u;
  }

  class PauseArray {
    const entries: array<Entry>
    var last: nat

    ghost predicate Valid()
      reads this, entries
    {
      Laid(entries[..], last)
    }

    /** It holds the pauses of the map. */
    ghost predicate Holds(pauses: map<TxnId, nat>)
      reads this, entries
    {
      Valid() && Counts(entries[..], last, pauses)
    }

    constructor ()
      ensures Holds(map[]) && fresh(entries) && last == 0
    {
      entries := new Entry[ENTRIES](_ => Entry(0, 0));
      last := 0;
    }

    /** Forgets the pauses of `t`. */
    method Reset(t: TxnId, ghost pauses: map<TxnId, nat>)
      requires Holds(pauses) && t > 0
      modifies entries
      ensures Holds(pauses - {t})
    {
      ghost var was := entries[..];
      var i := 0;
      while i <= last
        invariant i <= last + 1
        invariant forall j :: 0 <= j < entries.Length ==>
                    entries[j] == if j < i && was[j].txn == t then Entry(FREED, 0) else was[j]
      {
        if entries[i].txn == t {
          entries[i] := Entry(FREED, 0);
        }
        i := i + 1;
      }
      ResetKeeps(was, entries[..], last, t, pauses);
    }

    /** The first entry of `t`, or the one after those given out. */
    method Find(t: TxnId) returns (i: nat)
      requires Valid() && t > 0
      ensures HasEntry(entries[..], last, t) <==> i <= last
      ensures 1 <= i <= last + 1 && (i <= last ==> entries[i].txn == t)
    {
      i := 0;
      while i <= last && entries[i].txn != t
        invariant i <= last + 1 && forall j :: 0 <= j < i ==> entries[j].txn != t
      {
        i := i + 1;
      }
      assert i <= last ==> entries[..][i].txn == t;
    }

    /** One more pause of a transaction that has an entry. */
    method CountAt(i: nat, ghost pauses: map<TxnId, nat>)
      requires Holds(pauses) && 1 <= i <= last && entries[i].txn > 0
      modifies entries
      ensures Holds(pauses[old(entries[i].txn) := old(entries[i].times) + 1])
    {
      ghost var was := entries[..];
      UpdateKeeps(was, last, i, entries[i].times + 1, pauses);
      entries[i] := entries[i].(times := entries[i].times + 1);
      assert entries[..] == was[i := Entry(was[i].txn, was[i].times + 1)];
    }

    /** The first pause of a transaction that has none. */
    method NewEntry(t: TxnId, ghost pauses: map<TxnId, nat>)
      requires Holds(pauses) && t > 0 && !HasEntry(entries[..], last, t) && last + 1 < ENTRIES
      modifies this`last, entries
      ensures Holds(pauses[t := 1]) && t !in pauses && last == old(last) + 1
    {
      ghost var was := entries[..];
      NewEntryKeeps(was, last, t, pauses);
      last := last + 1;
      entries[last] := Entry(t, 1);
      assert entries[..] == was[last := Entry(t, 1)];
    }

    /** Counts one more pause of `t`, unless it has been paused more often than the limit allows. A transaction
        that has no entry takes a new one; when none is left, the store goes one past the array. */
    method CountPause(t: TxnId, ghost pauses: map<TxnId, nat>) returns (c: Counted, ghost now: map<TxnId, nat>)
      requires Holds(pauses) && t > 0
      modifies this`last, entries
      ensures c == Overrun <==> t !in pauses && old(last) + 1 == 100
      ensures c == TooOften <==> Times(pauses, t) > 5
      ensures last == old(last) + if t !in pauses && c != Overrun then 1 else 0
      ensures Holds(now) && now == if c == Again then pauses[t := Times(pauses, t) + 1] else pauses
    {
      ghost var was := entries[..];
      var i := Find(t);
      if i == ENTRIES { return Overrun, pauses; }
      if entries[i].txn == t {
        assert was[i].txn == t;
        if entries[i].times > PAUSE_LIMIT { return TooOften, pauses; }
        CountAt(i, pauses);
      } else {
        NewEntry(t, pauses);
      }
      return Again, pauses[t := Times(pauses, t) + 1];
    }
  }

  /** After 99 transactions have been paused the first pause of any other one is stored past the array; it makes
      no difference whether the pauses of the others have been reset meanwhile. */
  method HundredthPause(t: TxnId, forgotten: set<TxnId>) returns (c: Counted)
    requires t > 99
    ensures c == Overrun
  {
    var pauses := new PauseArray();
    ghost var counted: map<TxnId, nat> := map[];
    var u := 1;
    while u < ENTRIES
      invariant 1 <= u <= ENTRIES && fresh(pauses) && fresh(pauses.entries)
      invariant pauses.Holds(counted) && pauses.last == u - 1
      invariant forall v :: v in counted ==> v < u
    {
      var again;
      again, counted := pauses.CountPause(u, counted);
      assert again == Again;
      if u in forgotten {
        pauses.Reset(u, counted);
        counted := counted - {u};
      }
      u := u + 1;
    }
    c, counted := pauses.CountPause(t, counted);
  }
}

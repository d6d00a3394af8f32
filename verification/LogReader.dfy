/** Reading a log back: from front to back, and along the chain of one transaction. */
module LogReader {
  import opened Basics
  import opened LogCodec
  import opened LogChains

  /** The records that stand in `b` from offset `at` on. */
  function ParseAll(b: seq<Byte>, at: nat): Parsed<seq<Record>>
    requires at <= |b|
    decreases |b| - at
  {
    if at == |b| then Good([])
    else
      match ParseAt(b, at)
      case Bad => Bad
      case Good((r, after)) =>
        match ParseAll(b, after)
        case Bad => Bad
        case Good(rest) => Good([r] + rest)
  }

  function Prepend(done: seq<Record>, p: Parsed<seq<Record>>): Parsed<seq<Record>> {
    match p
    case Bad => Bad
    case Good(rest) => Good(done + rest)
  }

  lemma ParseOne(b: seq<Byte>, at: nat, r: Record, after: nat)
    requires ParseAt(b, at) == Good((r, after))
    ensures at < after <= |b| && ParseAll(b, at) == Prepend([r], ParseAll(b, after))
  {
  }

  /** What is left to parse at record `k` is that record and what is left after it. */
  ghost predicate PeelsOff(left: seq<Parsed<seq<Record>>>, rs: seq<Record>, k: int)
    requires 0 <= k < |rs| && |left| == |rs| + 1
  {
    left[k] == Prepend([rs[k]], left[k + 1])
  }

  lemma {:induction false} PeelAll(left: seq<Parsed<seq<Record>>>, rs: seq<Record>, i: nat)
    requires i <= |rs| && |left| == |rs| + 1 && left[|rs|] == Good([])
    requires forall k :: 0 <= k < |rs| ==> PeelsOff(left, rs, k)
    ensures left[i] == Good(rs[i..])
    decreases |rs| - i
  {
    if i < |rs| {
      assert PeelsOff(left, rs, i);
      PeelAll(left, rs, i + 1);
      assert rs[i..] == [rs[i]] + rs[i + 1..];
    } else {
      assert rs[i..] == [];
    }
  }

  /** What is parsed at `at` is the record, which ends at `after`. */
  ghost predicate ParsesTo(b: seq<Byte>, r: Record, at: nat, after: nat) {
    ParseAt(b, at) == Good((r, after))
  }

  lemma StandingParses(b: seq<Byte>, r: Record, at: nat, after: nat)
    requires Fits(r) && StandsAt(b, at, Encode(r)) && after == at + Size(r)
    ensures ParsesTo(b, r, at, after)
  {
    ParseEncoded(b, at, r);
  }

  lemma RecordParses(rs: seq<Record>, k: nat)
    requires AllFit(rs) && k < |rs|
    ensures ParsesTo(EncodeAll(rs), rs[k], Total(rs[..k]), Total(rs[..k + 1]))
  {
    RecordStands(rs, k);
    TotalStep(rs, k);
    StandingParses(EncodeAll(rs), rs[k], Total(rs[..k]), Total(rs[..k + 1]));
  }

  /** Bytes in which the records are parsed one after the other, at the offsets `ends`, hold the records. */
  lemma ParseInPlace(b: seq<Byte>, rs: seq<Record>, ends: seq<nat>)
    requires |ends| == |rs| + 1 && ends[0] == 0 && ends[|rs|] == |b|
    requires forall k :: 0 <= k < |rs| ==> ParsesTo(b, rs[k], ends[k], ends[k + 1])
    ensures ParseAll(b, 0) == Good(rs)
  {
    forall k | 0 <= k <= |rs| ensures ends[k] <= |b| {
      if k < |rs| {
        assert ParsesTo(b, rs[k], ends[k], ends[k + 1]);
        ParseOne(b, ends[k], rs[k], ends[k + 1]);
      }
    }
    var left := seq(|rs| + 1, k requires 0 <= k <= |rs| => ParseAll(b, ends[k]));
    forall k | 0 <= k < |rs| ensures PeelsOff(left, rs, k) {
      assert ParsesTo(b, rs[k], ends[k], ends[k + 1]);
      ParseOne(b, ends[k], rs[k], ends[k + 1]);
    }
    PeelAll(left, rs, 0);
    assert rs[0..] == rs;
  }

  ghost function Ends(rs: seq<Record>): (r: seq<nat>)
    ensures |r| == |rs| + 1 && forall k :: 0 <= k <= |rs| ==> r[k] == Total(rs[..k])
  {
    seq(|rs| + 1, k requires 0 <= k <= |rs| => Total(rs[..k]))
  }

  /** Round trip: the bytes of a log parse back to exactly its records. */
  lemma RoundTrip(rs: seq<Record>)
    requires AllFit(rs)
    ensures ParseAll(EncodeAll(rs), 0) == Good(rs)
  {
    EncodedLength(rs);
    assert rs[..|rs|] == rs && rs[..0] == [];
    var ends := Ends(rs);
    forall k | 0 <= k < |rs| ensures ParsesTo(EncodeAll(rs), rs[k], ends[k], ends[k + 1]) {
      RecordParses(rs, k);
    }
    ParseInPlace(EncodeAll(rs), rs, ends);
  }

  /** The sequential reader. */
  method ReadAll(b: seq<Byte>) returns (out: Parsed<seq<Record>>)
    ensures out == ParseAll(b, 0)
  {
    var at, records := 0, [];
    assert forall rest: seq<Record> :: [] + rest == rest;
    while at < |b|
      invariant at <= |b|
      invariant ParseAll(b, 0) == Prepend(records, ParseAll(b, at))
    {
      match ParseAt(b, at) {
        case Bad => return Bad;
        case Good((r, after)) =>
          assert forall rest :: (records + [r]) + rest == records + ([r] + rest);
          records := records + [r];
          at := after;
      }
    }
    assert records + [] == records;
    return Good(records);
  }

  /** The first record from `j` on that belongs to transaction `t`, or `|rs|`. */
  function NextSame(rs: seq<Record>, t: int, j: nat): (k: nat)
    requires j <= |rs|
    ensures j <= k <= |rs|
    ensures k < |rs| ==> rs[k].txn == t
    ensures forall m :: j <= m < k ==> rs[m].txn != t
    decreases |rs| - j
  {
    if j == |rs| || rs[j].txn == t then j else NextSame(rs, t, j + 1)
  }

  /** The records of a transaction from record `i` to its end record, or to the end of the log. */
  function Chain(rs: seq<Record>, i: nat): seq<nat>
    requires i < |rs|
    decreases |rs| - i
  {
    var k := NextSame(rs, rs[i].txn, i + 1);
    if rs[i].kind == End || k == |rs| then [i] else [i] + Chain(rs, k)
  }

  /** The places met by going from `at` along `next`, as long as it leads forward. */
  function FollowVia(next: nat -> int, limit: nat, at: nat): seq<nat>
    decreases limit - at
  {
    if at >= limit || next(at) <= at then [at] else [at] + FollowVia(next, limit, next(at))
  }

  /** The `next_LRN` field of the record that stands at an offset of the bytes. */
  function NextField(b: seq<Byte>): nat -> int {
    (at: nat) => if at + AT_KIND <= |b| then Field(b, at + AT_NEXT, LONG) else -1
  }

  /** The `prev_LRN` field of the record that stands at an offset of the bytes. */
  function PrevField(b: seq<Byte>): nat -> int {
    (at: nat) => if at + AT_NEXT <= |b| then Field(b, at + AT_PREV, LONG) else -1
  }

  /** The LRNs met by going from offset `at` along the `next_LRN` fields in the bytes. */
  function Follow(b: seq<Byte>, at: nat): seq<nat> {
    FollowVia(NextField(b), |b|, at)
  }

  function Lrns(rs: seq<Record>, chain: seq<nat>): seq<int>
    requires forall k :: k in chain ==> k < |rs|
  {
    seq(|chain|, i requires 0 <= i < |chain| => assert chain[i] in chain; rs[chain[i]].lrn)
  }

  lemma {:induction false} ChainInRange(rs: seq<Record>, i: nat)
    requires i < |rs|
    ensures Chain(rs, i) != [] && Chain(rs, i)[0] == i
    ensures forall k :: k in Chain(rs, i) ==> i <= k < |rs|
    decreases |rs| - i
  {
    var k := NextSame(rs, rs[i].txn, i + 1);
    if rs[i].kind != End && k < |rs| { ChainInRange(rs, k); }
  }

  /** The chain fields of every record are found at its LRN. */
  ghost predicate ChainsReadable(next: nat -> int, prev: nat -> int, limit: nat, rs: seq<Record>) {
    forall i :: 0 <= i < |rs| ==>
                  && 0 <= rs[i].lrn < limit
                  && next(rs[i].lrn) == rs[i].next && prev(rs[i].lrn) == rs[i].prev
  }

  lemma ReadableAt(rs: seq<Record>, i: nat)
    requires AllFit(rs) && Placed(rs) && i < |rs|
    ensures rs[i].lrn >= 0 && rs[i].lrn + AT_KIND <= |EncodeAll(rs)| && HeadReads(EncodeAll(rs), rs[i].lrn, rs[i])
  {
    assert PlacedAt(rs, i);
    RecordStands(rs, i);
    HeadRead(EncodeAll(rs), Total(rs[..i]), rs[i]);
  }

  lemma LogIsReadable(rs: seq<Record>)
    requires AllFit(rs) && Placed(rs)
    ensures var b := EncodeAll(rs);
            ChainsReadable(NextField(b), PrevField(b), |b|, rs)
  {
    var b := EncodeAll(rs);
    forall i | 0 <= i < |rs|
      ensures 0 <= rs[i].lrn < |b|
      ensures NextField(b)(rs[i].lrn) == rs[i].next && PrevField(b)(rs[i].lrn) == rs[i].prev
    {
      ReadableAt(rs, i);
    }
  }

  /** The `next_LRN` of a record leads to the next record of its chain, or nowhere. */
  ghost predicate LeadsOn(rs: seq<Record>, i: int)
    requires 0 <= i < |rs|
  {
    var k := NextSame(rs, rs[i].txn, i + 1);
    if rs[i].kind == End || k == |rs| then rs[i].next == -1
    else rs[i].next == rs[k].lrn && rs[i].lrn < rs[k].lrn
  }

  lemma NextOnChain(rs: seq<Record>, i: nat)
    requires Placed(rs) && Linked(rs) && Grammatical(rs) && i < |rs|
    ensures LeadsOn(rs, i)
  {
    var k := NextSame(rs, rs[i].txn, i + 1);
    if k == |rs| {
      assert LastAt(rs, rs[i].txn, i);
    } else {
      assert Consecutive(rs, i, k);
      assert PlacedAt(rs, i) && PlacedAt(rs, k);
      TotalMonotone(rs, i, k);
    }
  }

  lemma {:induction false} FollowRecords(next: nat -> int, prev: nat -> int, limit: nat, rs: seq<Record>, i: nat)
    requires i < |rs| && ChainsReadable(next, prev, limit, rs)
    requires forall k :: 0 <= k < |rs| ==> LeadsOn(rs, k)
    ensures forall k :: k in Chain(rs, i) ==> k < |rs|
    ensures FollowVia(next, limit, rs[i].lrn) == Lrns(rs, Chain(rs, i))
    decreases |rs| - i
  {
    assert LeadsOn(rs, i);
    ChainInRange(rs, i);
    var k := NextSame(rs, rs[i].txn, i + 1);
    if rs[i].kind != End && k < |rs| {
      FollowRecords(next, prev, limit, rs, k);
      assert Lrns(rs, [i] + Chain(rs, k)) == [rs[i].lrn] + Lrns(rs, Chain(rs, k));
    }
  }

  /** Following `next_LRN` through the bytes visits exactly the records of the transaction, in the order in
      which they were appended. */
  lemma FollowIsChain(rs: seq<Record>, i: nat)
    requires WellLogged(rs) && i < |rs|
    ensures ChainFound(EncodeAll(rs), rs, i)
  {
    LogIsReadable(rs);
    var b := EncodeAll(rs);
    forall k | 0 <= k < |rs| ensures LeadsOn(rs, k) { NextOnChain(rs, k); }
    FollowRecords(NextField(b), PrevField(b), |b|, rs, i);
  }

  /** The record is what is parsed at its LRN. */
  ghost predicate FoundAtLrn(b: seq<Byte>, r: Record) {
    r.lrn >= 0 && ParsesTo(b, r, r.lrn, r.lrn + Size(r))
  }

  /** Going along `next_LRN` from record `i` visits its chain. */
  ghost predicate ChainFound(b: seq<Byte>, rs: seq<Record>, i: int)
    requires 0 <= i < |rs|
  {
    && rs[i].lrn >= 0 && (forall k :: k in Chain(rs, i) ==> k < |rs|)
    && Follow(b, rs[i].lrn) == Lrns(rs, Chain(rs, i))
  }

  /** An LRN is the byte offset of its record. */
  lemma FoundInLog(rs: seq<Record>, i: nat)
    requires AllFit(rs) && Placed(rs) && i < |rs|
    ensures FoundAtLrn(EncodeAll(rs), rs[i])
  {
    assert PlacedAt(rs, i);
    RecordParses(rs, i);
    TotalStep(rs, i);
    FoundFrom(EncodeAll(rs), rs[i], Total(rs[..i]), Total(rs[..i + 1]));
  }

  lemma FoundFrom(b: seq<Byte>, r: Record, at: nat, after: nat)
    requires ParsesTo(b, r, at, after) && r.lrn == at && after == at + Size(r)
    ensures FoundAtLrn(b, r)
  {
  }

  /** No end record of `t` stands in `rs[i..k]`. */
  ghost predicate Unended(rs: seq<Record>, t: int, i: int, k: int) {
    forall m :: i <= m < k && 0 <= m < |rs| && rs[m].txn == t ==> rs[m].kind != End
  }

  /** Exactly its records: a record is on the chain iff it is the transaction's and no end record of it
      comes between. */
  lemma {:induction false} ChainExact(rs: seq<Record>, i: nat, k: nat)
    requires i < |rs|
    ensures k in Chain(rs, i) <==> i <= k < |rs| && rs[k].txn == rs[i].txn && Unended(rs, rs[i].txn, i, k)
    decreases |rs| - i
  {
    var j := NextSame(rs, rs[i].txn, i + 1);
    if rs[i].kind != End && j < |rs| {
      ChainInRange(rs, j);
      ChainExact(rs, j, k);
      if i < k < j && k < |rs| { assert rs[k].txn != rs[i].txn; }
      if j <= k { assert Unended(rs, rs[i].txn, i, k) <==> Unended(rs, rs[i].txn, j, k); }
    }
  }

  /** Neighbours on a chain are neighbours in the log. */
  lemma {:induction false} ChainSteps(rs: seq<Record>, i: nat, n: nat)
    requires i < |rs| && n + 1 < |Chain(rs, i)|
    ensures var c := Chain(rs, i);
            c[n + 1] < |rs| && Consecutive(rs, c[n], c[n + 1]) && rs[c[n]].kind != End && rs[c[n]].txn == rs[i].txn
    decreases |rs| - i
  {
    var k := NextSame(rs, rs[i].txn, i + 1);
    ChainInRange(rs, k);
    if n > 0 { ChainSteps(rs, k, n - 1); }
  }

  lemma PrevOnChain(rs: seq<Record>, i: nat, j: nat)
    requires Linked(rs) && Grammatical(rs) && Consecutive(rs, i, j) && rs[i].kind != End
    ensures rs[j].prev == rs[i].lrn
  {
    assert Follows(rs[i].kind, rs[j].kind, rs[i].txn);
  }

  /** `prev_LRN` is the inverse: in the bytes, every later record of a chain points back at the one before
      it, and a first record at nothing. */
  lemma PrevIsInverse(rs: seq<Record>, i: nat, n: nat)
    requires WellLogged(rs) && i < |rs| && n < |Chain(rs, i)| && rs[i].kind == Beg
    ensures var c := Chain(rs, i);
            && c[n] < |rs| && (n > 0 ==> c[n - 1] < |rs|) && rs[c[n]].lrn >= 0
            && PrevField(EncodeAll(rs))(rs[c[n]].lrn) == if n == 0 then -1 else rs[c[n - 1]].lrn
  {
    LogIsReadable(rs);
    var c := Chain(rs, i);
    ChainInRange(rs, i);
    assert c[n] in c;
    if n > 0 {
      assert c[n - 1] in c;
      ChainSteps(rs, i, n - 1);
      PrevOnChain(rs, c[n - 1], c[n]);
    }
  }

  /** The record kinds along a chain that has reached its end record spell BEG op* (COMMIT | ABORT) END for a
      user transaction, and BEG END for the backup. */
  ghost predicate SpellsTransaction(kinds: seq<Kind>, t: int) {
    var n := |kinds|;
    && n >= 2 && kinds[0] == Beg && kinds[n - 1] == End
    && (t == 0 ==> n == 2)
    && (t != 0 ==>
          && n >= 3 && (kinds[n - 2] == CommitRec || kinds[n - 2] == AbortRec)
          && forall m :: 0 < m < n - 2 ==> IsOperation(kinds[m]))
  }

  function Kinds(rs: seq<Record>, chain: seq<nat>): seq<Kind>
    requires forall k :: k in chain ==> k < |rs|
  {
    seq(|chain|, i requires 0 <= i < |chain| => assert chain[i] in chain; rs[chain[i]].kind)
  }

  /** Kinds that follow each other by the rules, from a begin to an end record, spell a transaction. */
  lemma FollowingSpells(kinds: seq<Kind>, t: int)
    requires |kinds| > 0 && kinds[0] == Beg && kinds[|kinds| - 1] == End
    requires forall n :: 0 <= n < |kinds| - 1 ==>
                           Follows(kinds[n], kinds[n + 1], t) && kinds[n] != End
    ensures SpellsTransaction(kinds, t)
  {
    var n := |kinds|;
    assert n >= 2;
    assert Follows(kinds[n - 2], kinds[n - 1], t);
    if t != 0 {
      assert n >= 3;
      forall m | 0 < m < n - 2 ensures IsOperation(kinds[m]) {
        assert Follows(kinds[m], kinds[m + 1], t);
        assert Follows(kinds[m - 1], kinds[m], t);
        assert Follows(kinds[m + 1], kinds[m + 2], t);
      }
    } else {
      assert n > 2 ==> Follows(kinds[n - 3], kinds[n - 2], t);
    }
  }

  lemma FinishedChainSpells(rs: seq<Record>, i: nat)
    requires WellLogged(rs) && i < |rs| && rs[i].kind == Beg
    requires var c := Chain(rs, i); c[|c| - 1] < |rs| && rs[c[|c| - 1]].kind == End
    ensures forall k :: k in Chain(rs, i) ==> k < |rs|
    ensures SpellsTransaction(Kinds(rs, Chain(rs, i)), rs[i].txn)
  {
    var c := Chain(rs, i);
    ChainInRange(rs, i);
    var kinds := Kinds(rs, c);
    forall n | 0 <= n < |c| - 1 ensures Follows(kinds[n], kinds[n + 1], rs[i].txn) && kinds[n] != End {
      ChainSteps(rs, i, n);
    }
    FollowingSpells(kinds, rs[i].txn);
  }
}

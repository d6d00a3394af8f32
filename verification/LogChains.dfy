/** The log as a list of records: placement, back-patched chains, and what a reader of the bytes sees. */
module LogChains {
  import opened Basics
  import opened LogCodec

  ghost predicate AllFit(rs: seq<Record>) {
    forall r :: r in rs ==> Fits(r)
  }

  /** The bytes of a log. */
  ghost function EncodeAll(rs: seq<Record>): seq<Byte>
    requires AllFit(rs)
  {
    if rs == [] then []
    else
      assert forall r :: r in rs[..|rs| - 1] ==> r in rs;
      assert rs[|rs| - 1] in rs;
      EncodeAll(rs[..|rs| - 1]) + Encode(rs[|rs| - 1])
  }

  function Total(rs: seq<Record>): nat {
    if rs == [] then 0 else Total(rs[..|rs| - 1]) + Size(rs[|rs| - 1])
  }

  lemma {:induction false} EncodedLength(rs: seq<Record>)
    requires AllFit(rs)
    ensures |EncodeAll(rs)| == Total(rs)
  {
    if rs != [] {
      assert rs[|rs| - 1] in rs && AllFit(rs[..|rs| - 1]) by { forall r | r in rs[..|rs| - 1] ensures r in rs {} }
      EncodedLength(rs[..|rs| - 1]);
    }
  }

  lemma {:induction false} EncodeSplit(a: seq<Record>, b: seq<Record>)
    requires AllFit(a + b)
    ensures AllFit(a) && AllFit(b)
    ensures EncodeAll(a + b) == EncodeAll(a) + EncodeAll(b)
    ensures Total(a + b) == Total(a) + Total(b)
  {
    forall r | r in a ensures r in a + b {}
    forall r | r in b ensures r in a + b {}
    if b == [] {
      assert a + b == a;
    } else {
      var front := b[..|b| - 1];
      assert (a + b)[..|a + b| - 1] == a + front;
      assert AllFit(a + front) by { forall r | r in a + front ensures r in a + b {} }
      EncodeSplit(a, front);
    }
  }

  lemma EncodeOne(r: Record)
    requires Fits(r)
    ensures AllFit([r]) && EncodeAll([r]) == Encode(r) && Total([r]) == Size(r)
  {
    assert [r][..0] == [];
  }

  /** The bytes in front of record `i`, its own, and those behind it. */
  lemma ThreeParts(rs: seq<Record>, i: nat)
    requires AllFit(rs) && i < |rs|
    ensures rs[i] in rs && AllFit(rs[..i]) && AllFit(rs[i + 1..])
    ensures EncodeAll(rs) == EncodeAll(rs[..i]) + Encode(rs[i]) + EncodeAll(rs[i + 1..])
    ensures |EncodeAll(rs[..i])| == Total(rs[..i])
  {
    assert rs == rs[..i] + [rs[i]] + rs[i + 1..];
    EncodeSplit(rs[..i] + [rs[i]], rs[i + 1..]);
    EncodeSplit(rs[..i], [rs[i]]);
    EncodeOne(rs[i]);
    EncodedLength(rs[..i]);
  }

  /** Record `i` stands in the bytes at the total size of the records before it. */
  lemma RecordStands(rs: seq<Record>, i: nat)
    requires AllFit(rs) && i < |rs|
    ensures rs[i] in rs && StandsAt(EncodeAll(rs), Total(rs[..i]), Encode(rs[i]))
  {
    ThreeParts(rs, i);
    var head, e, tail := EncodeAll(rs[..i]), Encode(rs[i]), EncodeAll(rs[i + 1..]);
    assert (head + e + tail)[|head|..|head| + |e|] == e;
  }

  lemma TotalStep(rs: seq<Record>, i: nat)
    requires i < |rs|
    ensures Total(rs[..i + 1]) == Total(rs[..i]) + Size(rs[i])
  {
    assert rs[..i + 1][..i] == rs[..i] && rs[..i + 1][i] == rs[i];
  }

  lemma {:induction false} TotalMonotone(rs: seq<Record>, i: nat, j: nat)
    requires i <= j <= |rs|
    ensures Total(rs[..i]) <= Total(rs[..j])
    ensures i < j ==> Total(rs[..i]) + Size(rs[i]) <= Total(rs[..j])
  {
    if i < j {
      TotalMonotone(rs, i, j - 1);
      assert rs[..j][..j - 1] == rs[..j - 1];
    }
  }

  lemma PatchMiddle(head: seq<Byte>, e: seq<Byte>, tail: seq<Byte>, field: seq<Byte>, f: seq<Byte>)
    requires |e| >= AT_KIND && f == e[..AT_NEXT] + field + e[AT_KIND..]
    ensures var b, at := head + e + tail, |head| + AT_NEXT;
            b[..at] + field + b[at + LONG..] == head + f + tail
  {
    var b := head + e + tail;
    assert b[..|head| + AT_NEXT] == head + e[..AT_NEXT];
    assert b[|head| + AT_KIND..] == e[AT_KIND..] + tail;
  }

  lemma PatchedAmong(head: seq<Byte>, r: Record, tail: seq<Byte>, next: int)
    requires Fits(r) && InRange(next, LONG)
    ensures var b, at := head + Encode(r) + tail, |head| + AT_NEXT;
            b[..at] + Encoded(next, LONG) + b[at + LONG..] == head + Encode(r.(next := next)) + tail
  {
    PatchedRecord(r, next);
    PatchMiddle(head, Encode(r), tail, Encoded(next, LONG), Encode(r.(next := next)));
  }

  /** `next_LRN` of record `p` overwritten in the bytes: the log of the records with that field changed. */
  lemma PatchedLog(rs: seq<Record>, p: nat, next: int)
    requires AllFit(rs) && p < |rs| && InRange(next, LONG)
    ensures var at := Total(rs[..p]) + AT_NEXT;
            var b := EncodeAll(rs);
            && AllFit(rs[p := rs[p].(next := next)])
            && at + LONG <= |b|
            && EncodeAll(rs[p := rs[p].(next := next)]) == b[..at] + Encoded(next, LONG) + b[at + LONG..]
  {
    var r := rs[p].(next := next);
    var qs := rs[p := r];
    PatchFits(rs, p, next);
    ThreeParts(rs, p);
    ThreeParts(qs, p);
    assert qs[..p] == rs[..p] && qs[p + 1..] == rs[p + 1..];
    PatchedAmong(EncodeAll(rs[..p]), rs[p], EncodeAll(rs[p + 1..]), next);
  }

  /** `j` is the record of the same transaction id that follows `i`. */
  ghost predicate Consecutive(rs: seq<Record>, i: int, j: int) {
    0 <= i < j < |rs| && rs[i].txn == rs[j].txn && forall k :: i < k < j ==> rs[k].txn != rs[i].txn
  }

  ghost predicate LastAt(rs: seq<Record>, t: int, p: int) {
    0 <= p < |rs| && rs[p].txn == t && forall k :: p < k < |rs| ==> rs[k].txn != t
  }

  ghost predicate FirstAt(rs: seq<Record>, t: int, p: int) {
    0 <= p < |rs| && rs[p].txn == t && forall k :: 0 <= k < p ==> rs[k].txn != t
  }

  predicate IsOperation(k: Kind) {
    k == Update || k == Rename || k == Creat || k == Unlink
  }

  /** Which record may follow which in the records of one transaction id. The backup's is 0. */
  predicate Follows(a: Kind, b: Kind, t: int) {
    match b
    case Beg => a == End
    case End => if t == 0 then a == Beg else a == CommitRec || a == AbortRec
    case _ => t != 0 && (a == Beg || IsOperation(a))
  }

  /** Every LRN is a byte offset. */
  ghost predicate Placed(rs: seq<Record>) {
    forall i :: 0 <= i < |rs| ==> PlacedAt(rs, i)
  }

  ghost predicate PlacedAt(rs: seq<Record>, i: int)
    requires 0 <= i < |rs|
  {
    rs[i].lrn == Total(rs[..i])
  }

  ghost predicate Grammatical(rs: seq<Record>) {
    && (forall i, j :: Consecutive(rs, i, j) ==> Follows(rs[i].kind, rs[j].kind, rs[i].txn))
    && (forall t, i :: FirstAt(rs, t, i) ==> rs[i].kind == Beg)
  }

  /** The chain fields: neighbours point at each other, ends hold -1. */
  ghost predicate Linked(rs: seq<Record>) {
    && (forall i, j :: Consecutive(rs, i, j) && rs[j].kind != Beg ==>
                         rs[i].next == rs[j].lrn && rs[j].prev == rs[i].lrn)
    && (forall i :: 0 <= i < |rs| && rs[i].kind == Beg ==> rs[i].prev == -1)
    && (forall i :: 0 <= i < |rs| && rs[i].kind == End ==> rs[i].next == -1)
    && (forall t, i :: LastAt(rs, t, i) ==> rs[i].next == -1)
  }

  ghost predicate WellLogged(rs: seq<Record>) {
    AllFit(rs) && Placed(rs) && Grammatical(rs) && Linked(rs)
  }

  lemma {:induction false} TotalSameSizes(a: seq<Record>, b: seq<Record>)
    requires |a| == |b| && forall i :: 0 <= i < |a| ==> Size(a[i]) == Size(b[i])
    ensures Total(a) == Total(b)
  {
    if a != [] { TotalSameSizes(a[..|a| - 1], b[..|b| - 1]); }
  }

  lemma AppendPlaced(rs: seq<Record>, r: Record)
    requires Placed(rs) && r.lrn == Total(rs)
    ensures Placed(rs + [r])
  {
    var qs := rs + [r];
    forall i | 0 <= i < |qs| ensures PlacedAt(qs, i) {
      assert i < |rs| ==> PlacedAt(rs, i);
      assert qs[..i] == rs[..i];
      assert rs[..|rs|] == rs;
    }
  }

  lemma AppendFits(rs: seq<Record>, r: Record)
    requires AllFit(rs) && Fits(r)
    ensures AllFit(rs + [r])
  {
    forall q | q in rs + [r] ensures Fits(q) { assert q in rs || q == r; }
  }

  lemma AppendConsecutive(rs: seq<Record>, r: Record, i: int, j: int)
    ensures Consecutive(rs + [r], i, j) <==> Consecutive(rs, i, j) || (j == |rs| && LastAt(rs, r.txn, i))
  {
    var qs := rs + [r];
    assert forall k :: 0 <= k < |rs| ==> qs[k] == rs[k];
  }

  lemma BeginGrammatical(rs: seq<Record>, r: Record)
    requires Grammatical(rs) && r.kind == Beg
    requires forall p :: LastAt(rs, r.txn, p) ==> rs[p].kind == End
    ensures Grammatical(rs + [r])
  {
    var qs := rs + [r];
    forall i, j | Consecutive(qs, i, j) ensures Follows(qs[i].kind, qs[j].kind, qs[i].txn) {
      AppendConsecutive(rs, r, i, j);
    }
    forall t, i | FirstAt(qs, t, i) ensures qs[i].kind == Beg {
      if i < |rs| {
        assert forall k :: 0 <= k < i ==> qs[k] == rs[k];
        assert FirstAt(rs, t, i);
      }
    }
  }

  lemma BeginLinked(rs: seq<Record>, r: Record)
    requires Linked(rs) && r.kind == Beg && r.prev == -1 && r.next == -1
    ensures Linked(rs + [r])
  {
    var qs := rs + [r];
    forall i, j | Consecutive(qs, i, j) && qs[j].kind != Beg
      ensures qs[i].next == qs[j].lrn && qs[j].prev == qs[i].lrn
    {
      AppendConsecutive(rs, r, i, j);
      assert Consecutive(rs, i, j);
    }
    forall t, i | LastAt(qs, t, i) ensures qs[i].next == -1 {
      if i < |rs| {
        assert forall k :: i < k < |rs| ==> qs[k] == rs[k];
        assert LastAt(rs, t, i);
      }
    }
  }

  /** A first record of a transaction keeps the log well-formed. */
  lemma BeginLogged(rs: seq<Record>, r: Record)
    requires WellLogged(rs) && Fits(r) && r.lrn == Total(rs)
    requires r.kind == Beg && r.prev == -1 && r.next == -1
    requires forall p :: LastAt(rs, r.txn, p) ==> rs[p].kind == End
    ensures WellLogged(rs + [r])
  {
    AppendPlaced(rs, r);
    AppendFits(rs, r);
    BeginGrammatical(rs, r);
    BeginLinked(rs, r);
  }

  /** Appending a further record of a transaction and back-patching its predecessor. */
  function Chained(rs: seq<Record>, p: nat, r: Record): seq<Record>
    requires p < |rs|
  {
    rs[p := rs[p].(next := r.lrn)] + [r]
  }

  lemma PatchPlaced(rs: seq<Record>, p: nat, next: int)
    requires Placed(rs) && p < |rs|
    ensures Placed(rs[p := rs[p].(next := next)]) && Total(rs[p := rs[p].(next := next)]) == Total(rs)
  {
    var qs := rs[p := rs[p].(next := next)];
    forall i | 0 <= i <= |qs| ensures Total(qs[..i]) == Total(rs[..i]) {
      TotalSameSizes(qs[..i], rs[..i]);
    }
    assert rs[..|rs|] == rs && qs[..|qs|] == qs;
    forall i | 0 <= i < |qs| ensures PlacedAt(qs, i) {
      assert PlacedAt(rs, i);
    }
  }

  lemma PatchFits(rs: seq<Record>, p: nat, next: int)
    requires AllFit(rs) && p < |rs| && InRange(next, LONG)
    ensures AllFit(rs[p := rs[p].(next := next)])
  {
    assert rs[p] in rs;
    forall q | q in rs[p := rs[p].(next := next)] ensures Fits(q) {
      assert q in rs || q == rs[p].(next := next);
    }
  }

  /** Up to the appended record, who follows whom is unchanged. */
  lemma ChainedConsecutive(rs: seq<Record>, p: nat, r: Record, i: int, j: int)
    requires LastAt(rs, r.txn, p)
    ensures var qs := Chained(rs, p, r);
            Consecutive(qs, i, j) <==> Consecutive(rs, i, j) || (i == p && j == |rs|)
  {
    var qs := Chained(rs, p, r);
    assert forall k :: 0 <= k < |rs| ==> qs[k].txn == rs[k].txn;
    if Consecutive(qs, i, j) && j == |rs| {
      assert qs[p].txn == r.txn;
      assert i >= p;
      assert i == p;
    }
  }

  lemma LastHasNoSuccessor(rs: seq<Record>, t: int, p: int, j: int)
    requires LastAt(rs, t, p)
    ensures !Consecutive(rs, p, j)
  {
  }

  lemma ChainedLinked(rs: seq<Record>, p: nat, r: Record)
    requires Linked(rs) && LastAt(rs, r.txn, p) && r.kind != Beg && rs[p].kind != End
    requires r.prev == rs[p].lrn && r.next == -1
    ensures Linked(Chained(rs, p, r))
  {
    var qs := Chained(rs, p, r);
    forall i, j | Consecutive(qs, i, j) && qs[j].kind != Beg
      ensures qs[i].next == qs[j].lrn && qs[j].prev == qs[i].lrn
    {
      ChainedConsecutive(rs, p, r, i, j);
      if j < |rs| { assert Consecutive(rs, i, j); LastHasNoSuccessor(rs, r.txn, p, j); }
    }
    forall i | 0 <= i < |qs| && qs[i].kind == End ensures qs[i].next == -1 {
      assert i != p;
      assert i < |rs| ==> qs[i] == rs[i];
    }
    forall t, i | LastAt(qs, t, i) ensures qs[i].next == -1 {
      assert qs[|rs|] == r && qs[p].txn == r.txn;
      if i < |rs| {
        assert i != p;
        assert forall k :: i < k < |rs| ==> qs[k].txn == rs[k].txn;
        assert LastAt(rs, t, i);
      }
    }
  }

  lemma ChainedGrammatical(rs: seq<Record>, p: nat, r: Record)
    requires Grammatical(rs) && LastAt(rs, r.txn, p) && Follows(rs[p].kind, r.kind, r.txn)
    ensures Grammatical(Chained(rs, p, r))
  {
    var qs := Chained(rs, p, r);
    forall i, j | Consecutive(qs, i, j) ensures Follows(qs[i].kind, qs[j].kind, qs[i].txn) {
      ChainedConsecutive(rs, p, r, i, j);
    }
    forall t, i | FirstAt(qs, t, i) ensures qs[i].kind == Beg {
      assert forall k :: 0 <= k < i && k < |rs| ==> qs[k].txn == rs[k].txn;
      assert qs[p].txn == r.txn && qs[|rs|] == r;
      assert i < |rs|;
      assert FirstAt(rs, t, i);
    }
  }

  /** A logging call keeps the log well-formed. */
  lemma ChainedLogged(rs: seq<Record>, p: nat, r: Record)
    requires WellLogged(rs) && LastAt(rs, r.txn, p) && r.kind != Beg
    requires Fits(r) && r.lrn == Total(rs) && r.prev == rs[p].lrn && r.next == -1
    requires Follows(rs[p].kind, r.kind, r.txn)
    ensures WellLogged(Chained(rs, p, r))
  {
    PatchPlaced(rs, p, r.lrn);
    PatchFits(rs, p, r.lrn);
    AppendPlaced(rs[p := rs[p].(next := r.lrn)], r);
    AppendFits(rs[p := rs[p].(next := r.lrn)], r);
    ChainedLinked(rs, p, r);
    ChainedGrammatical(rs, p, r);
  }
}

/** The event log as the server writes it: bytes that are appended to and patched in place. */
module LogManager {
  import opened Basics
  import opened LogCodec
  import opened LogChains
  import opened LogReader

  /** The placeholder stored where a record has no data. */
  const NA: seq<Byte> := [78, 65, 10]

  /** A record that only marks a step of its transaction. */
  function Marker(lrn: int, txn: int, prev: int, kind: Kind): Record {
    Record(lrn, txn, prev, -1, kind, -1, -1, NA, NA)
  }

  /** The last record of `t` has LRN `lrn`, and it is of one of the given kinds. */
  ghost predicate LastIs(rs: seq<Record>, t: int, lrn: int, kinds: set<Kind>) {
    exists p :: LastAt(rs, t, p) && rs[p].lrn == lrn && rs[p].kind in kinds
  }

  /** Transaction id `t` has no record, or its latest one is an end record. */
  ghost predicate Closed(rs: seq<Record>, t: int) {
    forall p :: LastAt(rs, t, p) ==> rs[p].kind == End
  }

  /** The log `rs` with a further record of an open transaction. */
  ghost predicate Extended(rs: seq<Record>, qs: seq<Record>, r: Record) {
    exists p :: LastAt(rs, r.txn, p) && rs[p].lrn == r.prev && qs == Chained(rs, p, r)
  }

  /** Updates applied in place when the log had `len` records: by then the commit record was the latest of
      its transaction. */
  ghost predicate CommittedFirst(rs: seq<Record>, t: int, len: nat) {
    len <= |rs| && exists p :: LastAt(rs[..len], t, p) && rs[p].kind == CommitRec
  }

  ghost predicate AllCommittedFirst(rs: seq<Record>, inPlace: seq<(int, nat)>) {
    forall k :: 0 <= k < |inPlace| ==> CommittedFirst(rs, inPlace[k].0, inPlace[k].1)
  }

  /** Every live node holds the LRN of its transaction's latest record, which is not an end record. */
  ghost predicate LiveNodesRight(rs: seq<Record>, last: map<int, int>) {
    forall t :: t in last ==> LastIs(rs, t, last[t], OPEN + {CommitRec, AbortRec})
  }

  const OPEN: set<Kind> := {Beg, Update, Rename, Creat, Unlink}

  lemma LastUnique(rs: seq<Record>, t: int, p: int, q: int)
    requires LastAt(rs, t, p) && LastAt(rs, t, q)
    ensures p == q
  {
  }

  /** Who is last once a record of `r.txn` has been appended. */
  lemma LastAfterChained(rs: seq<Record>, p: nat, r: Record, t: int, q: int)
    requires LastAt(rs, r.txn, p)
    ensures LastAt(Chained(rs, p, r), t, q) <==> if t == r.txn then q == |rs| else LastAt(rs, t, q)
  {
    var qs := Chained(rs, p, r);
    assert forall k :: 0 <= k < |rs| ==> qs[k].txn == rs[k].txn;
    assert qs[|rs|] == r;
  }

  lemma LastAfterAppend(rs: seq<Record>, r: Record, t: int, q: int)
    ensures LastAt(rs + [r], t, q) <==> if t == r.txn then q == |rs| else LastAt(rs, t, q)
  {
    assert forall k :: 0 <= k < |rs| ==> (rs + [r])[k] == rs[k];
    assert (rs + [r])[|rs|] == r;
  }

  lemma CommittedFirstStays(rs: seq<Record>, qs: seq<Record>, t: int, len: nat)
    requires CommittedFirst(rs, t, len) && |rs| <= |qs|
    requires forall k :: 0 <= k < |rs| ==> qs[k].txn == rs[k].txn && qs[k].kind == rs[k].kind
    ensures CommittedFirst(qs, t, len)
  {
    var p :| LastAt(rs[..len], t, p) && rs[p].kind == CommitRec;
    assert LastAt(qs[..len], t, p);
  }

  lemma AppendBytes(rs: seq<Record>, r: Record)
    requires AllFit(rs) && Fits(r)
    ensures AllFit(rs + [r]) && EncodeAll(rs + [r]) == EncodeAll(rs) + Encode(r)
  {
    AppendFits(rs, r);
    EncodeSplit(rs, [r]);
    EncodeOne(r);
  }

  /** The bytes after `next_LRN` of record `p` is patched and `r` appended. */
  lemma ChainedBytes(rs: seq<Record>, p: nat, r: Record, b: seq<Byte>, at: nat)
    requires AllFit(rs) && p < |rs| && Fits(r) && b == EncodeAll(rs) && at == Total(rs[..p]) + AT_NEXT
    ensures at + LONG <= |b| && AllFit(Chained(rs, p, r))
    ensures EncodeAll(Chained(rs, p, r)) == b[..at] + Encoded(r.lrn, LONG) + b[at + LONG..] + Encode(r)
  {
    PatchedLog(rs, p, r.lrn);
    AppendBytes(rs[p := rs[p].(next := r.lrn)], r);
  }

  /** The other transactions' latest records stay what they are. */
  lemma OthersLast(rs: seq<Record>, p: nat, r: Record, t: int, lrn: int, kinds: set<Kind>)
    requires LastAt(rs, r.txn, p) && LastIs(rs, t, lrn, kinds) && t != r.txn
    ensures LastIs(Chained(rs, p, r), t, lrn, kinds)
  {
    var q :| LastAt(rs, t, q) && rs[q].lrn == lrn && rs[q].kind in kinds;
    LastAfterChained(rs, p, r, t, q);
  }

  /** What the new record does to the rest of the state. */
  lemma ChainedKeeps(rs: seq<Record>, p: nat, r: Record, last: map<int, int>, inPlace: seq<(int, nat)>)
    requires LastAt(rs, r.txn, p) && LiveNodesRight(rs, last) && AllCommittedFirst(rs, inPlace)
    ensures var qs := Chained(rs, p, r);
            && LastIs(qs, r.txn, r.lrn, {r.kind})
            && LiveNodesRight(qs, last - {r.txn}) && AllCommittedFirst(qs, inPlace)
  {
    var qs := Chained(rs, p, r);
    LastAfterChained(rs, p, r, r.txn, |rs|);
    forall t | t in last && t != r.txn ensures LastIs(qs, t, last[t], OPEN + {CommitRec, AbortRec}) {
      OthersLast(rs, p, r, t, last[t], OPEN + {CommitRec, AbortRec});
    }
    forall k | 0 <= k < |inPlace| ensures CommittedFirst(qs, inPlace[k].0, inPlace[k].1) {
      CommittedFirstStays(rs, qs, inPlace[k].0, inPlace[k].1);
    }
  }

  lemma HasChainPoint(rs: seq<Record>, r: Record, kinds: set<Kind>)
    requires LastIs(rs, r.txn, r.prev, kinds)
    requires forall k :: k in kinds ==> Follows(k, r.kind, r.txn)
    ensures exists p :: ChainPoint(rs, p, r)
  {
    var p :| LastAt(rs, r.txn, p) && rs[p].lrn == r.prev && rs[p].kind in kinds;
    assert ChainPoint(rs, p, r);
  }

  /** An end record fits behind the last record of its transaction. */
  lemma MayEnd(rs: seq<Record>, r: Record)
    requires WellLogged(rs) && r == Marker(r.lrn, r.txn, r.prev, End) && InRange(r.txn, INT)
    requires r.lrn >= 0 && InRange(r.lrn, LONG)
    requires LastIs(rs, r.txn, r.prev, if r.txn == 0 then {Beg} else {CommitRec, AbortRec})
    ensures Fits(r) && exists p :: ChainPoint(rs, p, r)
  {
    var kinds := if r.txn == 0 then {Beg} else {CommitRec, AbortRec};
    HasChainPoint(rs, r, kinds);
    LastInRange(rs, r.txn, r.prev, kinds);
    MarkerFits(r.lrn, r.txn, r.prev, End);
  }

  lemma NodeAdvances(rs: seq<Record>, last: map<int, int>, t: int, lrn: int, kind: Kind)
    requires LiveNodesRight(rs, last - {t}) && LastIs(rs, t, lrn, {kind}) && kind in OPEN + {CommitRec, AbortRec}
    ensures LiveNodesRight(rs, last[t := lrn])
  {
    var now := last[t := lrn];
    forall u | u in now ensures LastIs(rs, u, now[u], OPEN + {CommitRec, AbortRec}) {
      assert u != t ==> u in last - {t} && (last - {t})[u] == last[u];
    }
  }

  lemma EndCloses(rs: seq<Record>, t: int, lrn: int)
    requires LastIs(rs, t, lrn, {End})
    ensures Closed(rs, t)
  {
    var p :| LastAt(rs, t, p) && rs[p].kind == End;
    forall q | LastAt(rs, t, q) ensures rs[q].kind == End { LastUnique(rs, t, p, q); }
  }

  /** A begin record is nobody else's latest record, and no update in place comes before it. */
  lemma BeginKeeps(rs: seq<Record>, r: Record, last: map<int, int>, inPlace: seq<(int, nat)>)
    requires LiveNodesRight(rs, last) && AllCommittedFirst(rs, inPlace) && r.txn !in last
    ensures LiveNodesRight(rs + [r], last) && AllCommittedFirst(rs + [r], inPlace)
  {
    forall t | t in last ensures LastIs(rs + [r], t, last[t], OPEN + {CommitRec, AbortRec}) {
      var p :| LastAt(rs, t, p) && rs[p].lrn == last[t] && rs[p].kind in OPEN + {CommitRec, AbortRec};
      LastAfterAppend(rs, r, t, p);
    }
    forall k | 0 <= k < |inPlace| ensures CommittedFirst(rs + [r], inPlace[k].0, inPlace[k].1) {
      CommittedFirstStays(rs, rs + [r], inPlace[k].0, inPlace[k].1);
    }
  }

  lemma NodeBegins(rs: seq<Record>, last: map<int, int>, r: Record)
    requires LiveNodesRight(rs + [r], last) && r.kind == Beg
    ensures LiveNodesRight(rs + [r], last[r.txn := r.lrn])
  {
    assert LastAt(rs + [r], r.txn, |rs|);
  }

  /** A latest record's LRN is the offset of a whole record. */
  lemma LastInRange(rs: seq<Record>, t: int, lrn: int, kinds: set<Kind>)
    requires WellLogged(rs) && LastIs(rs, t, lrn, kinds)
    ensures InRange(lrn, LONG)
  {
    var p :| LastAt(rs, t, p) && rs[p].lrn == lrn && rs[p].kind in kinds;
    assert rs[p] in rs;
  }

  /** The place at which the next record of `r.txn` is chained. */
  ghost predicate ChainPoint(rs: seq<Record>, p: int, r: Record) {
    LastAt(rs, r.txn, p) && rs[p].lrn == r.prev && Follows(rs[p].kind, r.kind, r.txn)
  }

  class EventLog {
    var bytes: seq<Byte>          // the log file
    var last: map<int, int>       // last_LRN of every live transaction
    ghost var records: seq<Record>
    ghost var inPlace: seq<(int, nat)>

    ghost predicate Valid()
      reads this
    {
      && WellLogged(records) && bytes == EncodeAll(records)
      && LiveNodesRight(records, last) && AllCommittedFirst(records, inPlace)
    }

    constructor ()
      ensures Valid() && bytes == [] && last == map[] && records == [] && inPlace == []
    {
      bytes, last, records, inPlace := [], map[], [], [];
    }

    /** Appends the begin record of a transaction. */
    method LogTxnBegin(txn: int) returns (lrn: int)
      requires Valid() && txn !in last && Closed(records, txn)
      requires InRange(txn, INT) && InRange(|bytes|, LONG)
      modifies this
      ensures Valid() && last == old(last) && inPlace == old(inPlace)
      ensures lrn == |old(bytes)|
      ensures records == old(records) + [Record(lrn, txn, -1, -1, Beg, -1, -1, [78, 65, 10], [78, 65, 10])]
    {
      lrn := |bytes|;
      var r := Marker(lrn, txn, -1, Beg);
      EncodedLength(records);
      BeginLogged(records, r);
      EncodeSplit(records, [r]);
      EncodeOne(r);
      BeginKeeps(records, r, last, inPlace);
      bytes := bytes + Encode(r);
      records := records + [r];
    }

    /** Begins a transaction: its begin record, then its node in the live list. The node is given the LRN as
        an `int`, hence the bound. */
    method OnTxnBegin(txn: int)
      requires Valid() && txn !in last && Closed(records, txn)
      requires InRange(txn, INT) && InRange(|bytes|, LONG) && |bytes| < 0x8000_0000
      modifies this
      ensures Valid() && inPlace == old(inPlace)
      ensures last == old(last)[txn := |old(bytes)|]
      ensures records == old(records) + [Record(|old(bytes)|, txn, -1, -1, Beg, -1, -1, [78, 65, 10], [78, 65, 10])]
    {
      var lrn := LogTxnBegin(txn);
      assert AsInt(lrn) == lrn;
      NodeBegins(old(records), last, Marker(lrn, txn, -1, Beg));
      last := last[txn := AsInt(lrn)];
    }

    /** Appends a record of an open transaction and stores its LRN in the `next_LRN` field of the record
        before it, which starts at offset `r.prev`. */
    method AppendLinked(r: Record)
      requires Valid() && Fits(r) && r.kind != Beg && r.lrn == |bytes| && r.next == -1
      requires exists p :: ChainPoint(records, p, r)
      modifies this`bytes, this`records
      ensures WellLogged(records) && bytes == EncodeAll(records) && |bytes| == |old(bytes)| + Size(r)
      ensures Extended(old(records), records, r)
      ensures LastIs(records, r.txn, r.lrn, {r.kind})
      ensures LiveNodesRight(records, last - {r.txn}) && AllCommittedFirst(records, inPlace)
    {
      ghost var rs := records;
      ghost var p :| ChainPoint(rs, p, r);
      EncodedLength(rs);
      assert PlacedAt(rs, p);
      var at := r.prev + AT_NEXT;
      ChainedBytes(rs, p, r, bytes, at);
      bytes := bytes[..at] + Encoded(r.lrn, LONG) + bytes[at + LONG..];
      bytes := bytes + Encode(r);
      records := Chained(rs, p, r);
      ChainedLogged(rs, p, r);
      ChainedKeeps(rs, p, r, last, inPlace);
    }

    /** The logging calls of a live user transaction: write, rename, creat, unlink, commit and abort. */
    method Log(txn: int, kind: Kind, fd: int, offset: int, data: seq<Byte>, data1: seq<Byte>) returns (lrn: int)
      requires Valid() && txn != 0 && txn in last && LastIs(records, txn, last[txn], OPEN)
      requires kind != Beg && kind != End
      requires Fits(Record(|bytes|, txn, last[txn], -1, kind, fd, offset, data, data1))
      modifies this
      ensures Valid() && inPlace == old(inPlace)
      ensures lrn == |old(bytes)| && last == old(last)[txn := lrn]
      ensures Extended(old(records), records, Record(lrn, txn, old(last)[txn], -1, kind, fd, offset, data, data1))
      ensures LastIs(records, txn, lrn, {kind})
      ensures |bytes| == |old(bytes)| + HEADER + |data| + LONG + |data1|
    {
      lrn := |bytes|;
      var r := Record(lrn, txn, last[txn], -1, kind, fd, offset, data, data1);
      HasChainPoint(records, r, OPEN);
      AppendLinked(r);
      NodeAdvances(records, last, txn, lrn, kind);
      last := last[txn := lrn];
    }

    /** Logs that an open transaction is about to commit or abort. */
    method LogEnding(txn: int, kind: Kind) returns (lrn: int)
      requires Valid() && txn != 0 && txn in last && LastIs(records, txn, last[txn], OPEN)
      requires kind in {CommitRec, AbortRec} && InRange(txn, INT) && InRange(|bytes| + 200, LONG)
      modifies this
      ensures Valid() && inPlace == old(inPlace)
      ensures lrn == |old(bytes)| && last == old(last)[txn := lrn] && |bytes| <= |old(bytes)| + 200
      ensures Extended(old(records), records, Marker(lrn, txn, old(last)[txn], kind))
      ensures LastIs(records, txn, lrn, {kind}) && |records| == |old(records)| + 1
    {
      LastInRange(records, txn, last[txn], OPEN);
      MarkerFits(|bytes|, txn, last[txn], kind);
      lrn := Log(txn, kind, -1, -1, NA, NA);
    }

    /** Appends the end record of a transaction whose node is already gone. */
    method LogTxnEnd(txn: int, prev: int)
      requires Valid() && txn !in last && InRange(txn, INT) && InRange(|bytes|, LONG)
      requires LastIs(records, txn, prev, if txn == 0 then {Beg} else {CommitRec, AbortRec})
      modifies this
      ensures Valid() && inPlace == old(inPlace) && last == old(last)
      ensures Extended(old(records), records,
                       Record(|old(bytes)|, txn, prev, -1, End, -1, -1, [78, 65, 10], [78, 65, 10]))
      ensures Closed(records, txn)
    {
      var r := Marker(|bytes|, txn, prev, End);
      MayEnd(records, r);
      AppendLinked(r);
      assert last - {txn} == last;
      EndCloses(records, txn, r.lrn);
    }

    /** The deferred updates are applied, while the locks are released: the commit record is in the log. */
    method ApplyDeferred(txn: int, ghost lrn: int)
      requires Valid() && LastIs(records, txn, lrn, {CommitRec})
      modifies this`inPlace
      ensures Valid() && inPlace == old(inPlace) + [(txn, |records|)]
    {
      inPlace := inPlace + [(txn, |records|)];
      assert records[..|records|] == records;
    }

    /** Drops the node of a transaction and writes its end record. */
    method DropAndEnd(txn: int)
      requires Valid() && txn != 0 && txn in last && LastIs(records, txn, last[txn], {CommitRec, AbortRec})
      requires InRange(txn, INT) && InRange(|bytes|, LONG)
      modifies this
      ensures Valid() && last == old(last) - {txn} && Closed(records, txn) && inPlace == old(inPlace)
      ensures Extended(old(records), records, Marker(|old(bytes)|, txn, old(last)[txn], End))
    {
      var prev := last[txn];
      last := last - {txn};
      LogTxnEnd(txn, prev);
    }

    /** The rest of a commit, once its record is in the log. */
    method ApplyAndEnd(txn: int)
      requires Valid() && txn != 0 && txn in last && LastIs(records, txn, last[txn], {CommitRec})
      requires InRange(txn, INT) && InRange(|bytes|, LONG)
      modifies this
      ensures Valid() && last == old(last) - {txn} && Closed(records, txn)
      ensures inPlace == old(inPlace) + [(txn, |old(records)|)]
      ensures Extended(old(records), records, Marker(|old(bytes)|, txn, old(last)[txn], End))
    {
      ApplyDeferred(txn, last[txn]);
      DropAndEnd(txn);
    }

    /** Commits: the commit record, then the updates in place, then the end record. */
    method OnTxnCommit(txn: int)
      requires Valid() && txn != 0 && txn in last && LastIs(records, txn, last[txn], OPEN)
      requires InRange(txn, INT) && InRange(|bytes| + 200, LONG)
      modifies this
      ensures Valid() && last == old(last) - {txn} && Closed(records, txn)
      ensures inPlace == old(inPlace) + [(txn, |old(records)| + 1)]
      ensures TwoMore(old(records), records, txn, CommitRec)
    {
      ghost var rs, r := records, Marker(|bytes|, txn, last[txn], CommitRec);
      var lrn := LogEnding(txn, CommitRec);
      ghost var mid, e := records, Marker(|bytes|, txn, lrn, End);
      assert |mid| == |rs| + 1;
      ApplyAndEnd(txn);
      assert inPlace == old(inPlace) + [(txn, |old(records)| + 1)];
      EndsWithTwo(rs, mid, records, r, e);
    }

    /** Aborts: the abort record, no update in place, the end record. */
    method OnTxnAbort(txn: int)
      requires Valid() && txn != 0 && txn in last && LastIs(records, txn, last[txn], OPEN)
      requires InRange(txn, INT) && InRange(|bytes| + 200, LONG)
      modifies this
      ensures Valid() && last == old(last) - {txn} && Closed(records, txn)
      ensures inPlace == old(inPlace)
      ensures TwoMore(old(records), records, txn, AbortRec)
    {
      ghost var rs, r := records, Marker(|bytes|, txn, last[txn], AbortRec);
      var lrn := LogEnding(txn, AbortRec);
      ghost var mid, e := records, Marker(|bytes|, txn, lrn, End);
      DropAndEnd(txn);
      EndsWithTwo(rs, mid, records, r, e);
    }

    /** Ends the backup: its node goes, then its end record is written. */
    method OnBackupEnd()
      requires Valid() && 0 in last && LastIs(records, 0, last[0], {Beg}) && InRange(|bytes|, LONG)
      modifies this
      ensures Valid() && last == old(last) - {0} && Closed(records, 0) && inPlace == old(inPlace)
      ensures Extended(old(records), records,
                       Record(|old(bytes)|, 0, old(last)[0], -1, End, -1, -1, [78, 65, 10], [78, 65, 10]))
    {
      var prev := last[0];
      last := last - {0};
      LogTxnEnd(0, prev);
    }

    /** After any sequence of calls: the bytes parse back to exactly the records appended, every record is
        found at its LRN, and the chain of every transaction can be followed in the bytes. */
    lemma BytesHoldTheLog()
      requires Valid()
      ensures ParseAll(bytes, 0) == Good(records)
      ensures forall i :: 0 <= i < |records| ==> FoundAtLrn(bytes, records[i])
      ensures forall i :: 0 <= i < |records| ==> ChainFound(bytes, records, i)
    {
      RoundTrip(records);
      forall i | 0 <= i < |records| ensures FoundAtLrn(bytes, records[i]) && ChainFound(bytes, records, i) {
        FoundInLog(records, i);
        FollowIsChain(records, i);
      }
    }
  }

  /** The log gained a commit or abort record of `t` and then its end record. */
  ghost predicate TwoMore(rs: seq<Record>, qs: seq<Record>, t: int, kind: Kind) {
    exists mid, r, e ::
      && Extended(rs, mid, r) && Extended(mid, qs, e)
      && r == Record(r.lrn, t, r.prev, -1, kind, -1, -1, [78, 65, 10], [78, 65, 10])
      && e == Record(e.lrn, t, r.lrn, -1, End, -1, -1, [78, 65, 10], [78, 65, 10])
  }

  lemma EndsWithTwo(rs: seq<Record>, mid: seq<Record>, qs: seq<Record>, r: Record, e: Record)
    requires Extended(rs, mid, r) && Extended(mid, qs, e)
    requires r == Marker(r.lrn, r.txn, r.prev, r.kind) && e == Marker(e.lrn, r.txn, r.lrn, End)
    ensures TwoMore(rs, qs, r.txn, r.kind) && |mid| == |rs| + 1
  {
  }

  lemma MarkerFits(lrn: nat, txn: int, prev: int, kind: Kind)
    requires InRange(lrn, LONG) && InRange(txn, INT) && InRange(prev, LONG)
    ensures Fits(Marker(lrn, txn, prev, kind))
  {
  }
}

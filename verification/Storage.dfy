/** Files, their contents, and the serial meaning of a transaction's operations. */
module Storage {
  import opened Basics

  /** An inode number. */
  type File = int

  type Content = seq<Byte>

  type Disk = map<File, Content>

  /** Bytes `pos .. pos + len` of a file, clipped at its end. */
  function Slice(c: Content, pos: nat, len: nat): Content {
    c[Min(pos, |c|)..Min(pos + len, |c|)]
  }

  /** As many bytes as lie in the range and in the file, from `pos` on. */
  lemma SlicedBytes(c: Content, pos: nat, len: nat)
    ensures |Slice(c, pos, len)| == if |c| <= pos then 0 else if |c| < pos + len then |c| - pos else len
    ensures forall i :: 0 <= i < |Slice(c, pos, len)| ==> Slice(c, pos, len)[i] == c[pos + i]
  {
  }

  /** One operation of a transaction; a read records what it returned. */
  datatype Op =
    | Read(file: File, pos: nat, len: nat, seen: Content)
    | Write(file: File, pos: nat, data: Content)

  ghost function Touched(ops: seq<Op>): set<File> {
    set op | op in ops :: op.file
  }

  /** The serial effect of one operation. */
  function ApplyOp(d: Disk, op: Op): Disk {
    match op
    case Read(_, _, _, _) => d
    case Write(f, pos, data) => if f in d then d[f := Patch(d[f], pos, data)] else d
  }

  /** The serial effect of a transaction that runs alone from `d`. */
  function Effect(d: Disk, ops: seq<Op>): Disk {
    if ops == [] then d else ApplyOp(Effect(d, ops[..|ops| - 1]), ops[|ops| - 1])
  }

  /** Every read recorded in `ops` is what a transaction running alone from `d` would read. */
  ghost predicate Faithful(d: Disk, ops: seq<Op>) {
    ops == [] ||
    var front, last := ops[..|ops| - 1], ops[|ops| - 1];
    && Faithful(d, front)
    && (last.Read? ==>
          var e := Effect(d, front);
          last.file in e && last.seen == Slice(e[last.file], last.pos, last.len))
  }

  /** Two disks with the same files that agree on `fs`. */
  ghost predicate Agree(d: Disk, e: Disk, fs: set<File>) {
    d.Keys == e.Keys && forall f :: f in fs && f in d ==> d[f] == e[f]
  }

  lemma {:induction false} EffectKeys(d: Disk, ops: seq<Op>)
    ensures Effect(d, ops).Keys == d.Keys
  {
    if ops != [] {
      EffectKeys(d, ops[..|ops| - 1]);
    }
  }

  /** A transaction leaves alone every file it does not touch. */
  lemma {:induction false} EffectOutside(d: Disk, ops: seq<Op>)
    ensures Effect(d, ops).Keys == d.Keys
    ensures forall f :: f in d && f !in Touched(ops) ==> Effect(d, ops)[f] == d[f]
  {
    if ops != [] {
      var front := ops[..|ops| - 1];
      EffectOutside(d, front);
      assert ops[|ops| - 1] in ops;
      assert Touched(front) <= Touched(ops);
    }
  }

  /** What a transaction reads and writes depends only on the files it touches. */
  lemma {:induction false} EffectFrame(d: Disk, e: Disk, ops: seq<Op>)
    requires Agree(d, e, Touched(ops))
    ensures Agree(Effect(d, ops), Effect(e, ops), Touched(ops))
    ensures Faithful(d, ops) <==> Faithful(e, ops)
  {
    EffectKeys(d, ops);
    EffectKeys(e, ops);
    if ops != [] {
      var front, last := ops[..|ops| - 1], ops[|ops| - 1];
      assert last in ops;
      assert Touched(front) <= Touched(ops);
      EffectFrame(d, e, front);
      EffectKeys(d, front);
      EffectKeys(e, front);
      EffectOutside(d, front);
      EffectOutside(e, front);
      assert Agree(Effect(d, front), Effect(e, front), Touched(ops));
    }
  }

  /** A transaction of the committed history: its id, its side of the backup and what it did. */
  datatype Committed = Committed(txn: int, side: bool, ops: seq<Op>)

  /** The disk after running whole transactions one at a time, in order. */
  function Serial(d: Disk, cs: seq<Committed>): Disk {
    if cs == [] then d else Effect(Serial(d, cs[..|cs| - 1]), cs[|cs| - 1].ops)
  }

  /** Each transaction read what it would have read in the serial order `cs`. */
  ghost predicate SerialFaithful(d: Disk, cs: seq<Committed>) {
    cs == [] ||
    (SerialFaithful(d, cs[..|cs| - 1]) && Faithful(Serial(d, cs[..|cs| - 1]), cs[|cs| - 1].ops))
  }

  ghost predicate TouchOnly(cs: seq<Committed>, fs: set<File>) {
    forall c :: c in cs ==> Touched(c.ops) <= fs
  }

  lemma {:induction false} SerialKeys(d: Disk, cs: seq<Committed>)
    ensures Serial(d, cs).Keys == d.Keys
  {
    if cs != [] {
      SerialKeys(d, cs[..|cs| - 1]);
      EffectKeys(Serial(d, cs[..|cs| - 1]), cs[|cs| - 1].ops);
    }
  }

  lemma {:induction false} SerialSplit(d: Disk, a: seq<Committed>, b: seq<Committed>)
    ensures Serial(d, a + b) == Serial(Serial(d, a), b)
    ensures SerialFaithful(d, a + b) <==> SerialFaithful(d, a) && SerialFaithful(Serial(d, a), b)
  {
    if b == [] {
      assert a + b == a;
    } else {
      var front := b[..|b| - 1];
      SerialSplit(d, a, front);
      assert (a + b)[..|a + b| - 1] == a + front;
    }
  }

  lemma SerialOne(d: Disk, c: Committed)
    ensures Serial(d, [c]) == Effect(d, c.ops)
    ensures SerialFaithful(d, [c]) <==> Faithful(d, c.ops)
  {
    assert [c][..0] == [];
  }

  /** Transactions confined to `fs` leave the rest alone. */
  lemma {:induction false} SerialOutside(d: Disk, cs: seq<Committed>, fs: set<File>)
    requires TouchOnly(cs, fs)
    ensures Serial(d, cs).Keys == d.Keys
    ensures forall f :: f in d && f !in fs ==> Serial(d, cs)[f] == d[f]
  {
    if cs != [] {
      var front := cs[..|cs| - 1];
      assert cs[|cs| - 1] in cs;
      assert TouchOnly(front, fs) by { forall c | c in front ensures c in cs {} }
      SerialOutside(d, front, fs);
      EffectOutside(Serial(d, front), cs[|cs| - 1].ops);
    }
  }

  /** What transactions confined to `fs` read and write depends only on `fs`. */
  lemma {:induction false} SerialFrame(d: Disk, e: Disk, cs: seq<Committed>, fs: set<File>)
    requires TouchOnly(cs, fs) && Agree(d, e, fs)
    ensures Agree(Serial(d, cs), Serial(e, cs), fs)
    ensures SerialFaithful(d, cs) <==> SerialFaithful(e, cs)
  {
    if cs != [] {
      var front, last := cs[..|cs| - 1], cs[|cs| - 1];
      assert last in cs;
      assert TouchOnly(front, fs) by { forall c | c in front ensures c in cs {} }
      SerialFrame(d, e, front, fs);
      var d1, e1 := Serial(d, front), Serial(e, front);
      EffectFrame(d1, e1, last.ops);
      EffectOutside(d1, last.ops);
      EffectOutside(e1, last.ops);
    }
  }

  /** A transaction that shares no file with the ones before it can be moved ahead of them. */
  lemma MoveAhead(d: Disk, cs: seq<Committed>, c: Committed, fs: set<File>)
    requires TouchOnly(cs, fs) && Touched(c.ops) !! fs
    ensures Serial(d, cs + [c]) == Serial(d, [c] + cs)
    ensures SerialFaithful(d, cs + [c]) <==> SerialFaithful(d, [c] + cs)
  {
    SerialSplit(d, cs, [c]);
    SerialSplit(d, [c], cs);
    SerialOne(d, c);
    SerialOne(Serial(d, cs), c);
    var after, first := Serial(d, cs), Effect(d, c.ops);
    SerialOutside(d, cs, fs);
    EffectOutside(d, c.ops);
    EffectFrame(d, after, c.ops);
    EffectOutside(after, c.ops);
    SerialFrame(d, first, cs, fs);
    SerialOutside(first, cs, fs);
    assert Serial(first, cs).Keys == Effect(after, c.ops).Keys;
    forall f | f in d ensures Serial(first, cs)[f] == Effect(after, c.ops)[f] {
      if f in Touched(c.ops) {
        assert f !in fs;
      }
    }
  }
}

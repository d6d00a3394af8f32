/** The byte layout of the event log. A log is a sequence of length-prefixed records; numbers are
    little-endian two's complement, 8 bytes for `long` and `size_t`, 4 for `int`. */
module LogCodec {
  import opened Basics

  datatype Kind = Beg | Update | Rename | Creat | Unlink | CommitRec | AbortRec | End

  /** A log record. `lrn` is the byte offset at which it is written; `prev` and `next` are the LRNs of
      its neighbours in its transaction's chain, or -1. */
  datatype Record = Record(lrn: int, txn: int, prev: int, next: int, kind: Kind,
                           fd: int, offset: int, data: seq<Byte>, data1: seq<Byte>)

  const LONG := 8
  const INT := 4
  const AT_TXN := LONG
  const AT_PREV := LONG + INT
  const AT_NEXT := LONG + INT + LONG
  const AT_KIND := LONG + INT + LONG + LONG
  const AT_FD := LONG + INT + LONG + LONG + INT
  const AT_OFFSET := LONG + INT + LONG + LONG + INT + INT
  const AT_LENGTH := LONG + INT + LONG + LONG + INT + INT + LONG
  const HEADER := LONG + INT + LONG + LONG + INT + INT + LONG + LONG

  function KindCode(k: Kind): int {
    match k
    case Beg => 1 case Update => 2 case Rename => 3 case Creat => 4
    case Unlink => 5 case CommitRec => 6 case AbortRec => 7 case End => 8
  }

  datatype Parsed<T> = Bad | Good(value: T)

  function KindOf(code: int): Parsed<Kind> {
    match code
    case 1 => Good(Beg) case 2 => Good(Update) case 3 => Good(Rename) case 4 => Good(Creat)
    case 5 => Good(Unlink) case 6 => Good(CommitRec) case 7 => Good(AbortRec) case 8 => Good(End)
    case _ => Bad
  }

  function Span(width: nat): (r: nat)
    ensures r > 0
  {
    if width == 0 then 1 else 256 * Span(width - 1)
  }

  /** The numbers of a signed integer type of the given width. */
  predicate InRange(v: int, width: nat) {
    width > 0 && 0 - 128 * Span(width - 1) <= v < 128 * Span(width - 1)
  }

  function Digits(v: nat, width: nat): (b: seq<Byte>)
    ensures |b| == width
  {
    if width == 0 then [] else [v % 256] + Digits(v / 256, width - 1)
  }

  function Value(b: seq<Byte>): nat {
    if b == [] then 0 else b[0] + 256 * Value(b[1..])
  }

  lemma {:induction false} ValueOfDigits(v: nat, width: nat)
    requires v < Span(width)
    ensures Value(Digits(v, width)) == v
  {
    if width > 0 {
      ValueOfDigits(v / 256, width - 1);
      assert Digits(v, width)[1..] == Digits(v / 256, width - 1);
    }
  }

  /** Byte `i` of a number is its digit to the base 256, the lowest first. */
  lemma {:induction false} DigitsAt(v: nat, width: nat, i: nat)
    requires i < width
    ensures Digits(v, width)[i] == v / Span(i) % 256
  {
    if i > 0 {
      DigitsAt(v / 256, width - 1, i - 1);
      DivTwice(v, Span(i - 1));
    }
  }

  lemma DivTwice(v: nat, s: nat)
    requires s > 0
    ensures v / 256 / s == v / (256 * s)
  {
    var q, r := v / 256 / s, v / 256 % s;
    assert v / 256 == q * s + r;
    assert v == 256 * (q * s + r) + v % 256;
    assert v == (256 * s) * q + (256 * r + v % 256);
    assert 256 * r + v % 256 < 256 * s;
    DivUnique(v, 256 * s, q, 256 * r + v % 256);
  }

  lemma DivUnique(v: nat, d: nat, q: nat, r: nat)
    requires d > 0 && v == d * q + r && r < d
    ensures v / d == q
  {
    var x: int := v / d - q;
    assert d * x == r - v % d;
    assert x > 0 ==> d * x >= d;
    assert x < 0 ==> d * x + d <= 0;
  }

  /** The bytes `fwrite` stores for a signed number. */
  function Encoded(v: int, width: nat): (b: seq<Byte>)
    requires InRange(v, width)
    ensures |b| == width
  {
    Digits(if v < 0 then v + Span(width) else v, width)
  }

  /** The signed number `fread` makes of some bytes. */
  function Decoded(b: seq<Byte>): int {
    var n := Value(b);
    if 2 * n < Span(|b|) then n else n - Span(|b|)
  }

  lemma DecodeEncoded(v: int, width: nat)
    requires InRange(v, width)
    ensures Decoded(Encoded(v, width)) == v
  {
    assert Span(width) == 256 * Span(width - 1);
    ValueOfDigits(if v < 0 then v + Span(width) else v, width);
  }

  lemma {:induction false} DigitsOfValue(b: seq<Byte>)
    ensures Value(b) < Span(|b|) && Digits(Value(b), |b|) == b
  {
    if b != [] {
      DigitsOfValue(b[1..]);
      assert Value(b) % 256 == b[0] && Value(b) / 256 == Value(b[1..]);
    }
  }

  /** Any bytes are those of the number that is read from them. */
  lemma EncodeDecoded(b: seq<Byte>)
    requires b != []
    ensures InRange(Decoded(b), |b|) && Encoded(Decoded(b), |b|) == b
  {
    DigitsOfValue(b);
    assert Span(|b|) == 256 * Span(|b| - 1);
  }

  /** The record's fields fit their C types. */
  predicate Fits(r: Record) {
    && InRange(r.lrn, LONG) && InRange(r.txn, INT) && InRange(r.prev, LONG) && InRange(r.next, LONG)
    && InRange(KindCode(r.kind), INT) && InRange(r.fd, INT) && InRange(r.offset, LONG)
    && InRange(|r.data|, LONG) && InRange(|r.data1|, LONG)
  }

  function Size(r: Record): nat {
    HEADER + |r.data| + LONG + |r.data1|
  }

  /** What the logging functions append for a record. */
  function Encode(r: Record): (b: seq<Byte>)
    requires Fits(r)
    ensures |b| == Size(r)
  {
    Head(r) + Encoded(r.next, LONG) + Tail(r)
  }

  /** The part of a record in front of its `next_LRN` field. */
  function Head(r: Record): (b: seq<Byte>)
    requires Fits(r)
    ensures |b| == AT_NEXT
  {
    Encoded(r.lrn, LONG) + Encoded(r.txn, INT) + Encoded(r.prev, LONG)
  }

  /** The part behind it. */
  function Tail(r: Record): (b: seq<Byte>)
    requires Fits(r)
    ensures |b| == Size(r) - AT_KIND
  {
    Encoded(KindCode(r.kind), INT) + Encoded(r.fd, INT) + Encoded(r.offset, LONG)
    + Encoded(|r.data|, LONG) + r.data + Encoded(|r.data1|, LONG) + r.data1
  }

  /** A number of `width` bytes at offset `at` of a log. */
  function Field(b: seq<Byte>, at: nat, width: nat): int
    requires at + width <= |b|
  {
    Decoded(b[at..at + width])
  }

  /** Reads the record that starts at offset `at`, as the sequential log reader does. */
  function ParseAt(b: seq<Byte>, at: nat): Parsed<(Record, nat)> {
    ParseVia((from: nat, width: nat) => if from + width <= |b| then Field(b, from, width) else -1, b, at)
  }

  /** The same, with the way numbers are read as a parameter. */
  function ParseVia(number: (nat, nat) -> int, b: seq<Byte>, at: nat): Parsed<(Record, nat)> {
    if at + HEADER > |b| then Bad
    else
      var len := number(at + AT_LENGTH, LONG);
      var kind := KindOf(number(at + AT_KIND, INT));
      if len < 0 || kind.Bad? || at + HEADER + len + LONG > |b| then Bad
      else
        var mid := at + HEADER + len;
        var len1 := number(mid, LONG);
        if len1 < 0 || mid + LONG + len1 > |b| then Bad
        else
          Good((Record(number(at, LONG), number(at + AT_TXN, INT), number(at + AT_PREV, LONG),
                       number(at + AT_NEXT, LONG), kind.value, number(at + AT_FD, INT),
                       number(at + AT_OFFSET, LONG), b[at + HEADER..mid],
                       b[mid + LONG..mid + LONG + len1]),
                mid + LONG + len1))
  }

  /** `part` stands at offset `at` of `b`. */
  ghost predicate StandsAt(b: seq<Byte>, at: nat, part: seq<Byte>) {
    at + |part| <= |b| && b[at..at + |part|] == part
  }

  /** A part of a part stands where it should. */
  lemma PartOfPart(b: seq<Byte>, at: nat, whole: seq<Byte>, from: nat, part: seq<Byte>)
    requires StandsAt(b, at, whole) && StandsAt(whole, from, part)
    ensures StandsAt(b, at + from, part)
  {
    forall i | 0 <= i < |part| ensures b[at + from + i] == part[i] {
      assert b[at..at + |whole|][from + i] == whole[from + i];
      assert whole[from..from + |part|][i] == part[i];
    }
  }

  lemma NumberAt(b: seq<Byte>, at: nat, whole: seq<Byte>, from: nat, v: int, width: nat)
    requires InRange(v, width)
    requires StandsAt(b, at, whole) && StandsAt(whole, from, Encoded(v, width))
    ensures Reads(b, at + from, v, width)
  {
    PartOfPart(b, at, whole, from, Encoded(v, width));
    DecodeEncoded(v, width);
  }

  /** The fields of record `r` stand in its bytes `e` at these offsets. They are the ones the deferred-update
      readers seek to: the descriptor, the file offset, the first length, the data, the second length. */
  ghost predicate Laid(e: seq<Byte>, r: Record)
    requires Fits(r)
  {
    && |e| == Size(r)
    && StandsAt(e, 0, Encoded(r.lrn, LONG)) && StandsAt(e, AT_TXN, Encoded(r.txn, INT))
    && StandsAt(e, AT_PREV, Encoded(r.prev, LONG)) && StandsAt(e, AT_NEXT, Encoded(r.next, LONG))
    && StandsAt(e, AT_KIND, Encoded(KindCode(r.kind), INT)) && StandsAt(e, AT_FD, Encoded(r.fd, INT))
    && StandsAt(e, AT_OFFSET, Encoded(r.offset, LONG))
    && StandsAt(e, AT_LENGTH, Encoded(|r.data|, LONG)) && StandsAt(e, HEADER, r.data)
    && StandsAt(e, HEADER + |r.data|, Encoded(|r.data1|, LONG))
    && StandsAt(e, HEADER + |r.data| + LONG, r.data1)
  }

  lemma FieldsStand(r: Record)
    requires Fits(r)
    ensures Laid(Encode(r), r)
  {
    HeadStands(r);
    TailStands(r);
    var e := Encode(r);
    assert StandsAt(e, 0, Head(r)) && StandsAt(e, AT_NEXT, Encoded(r.next, LONG)) && StandsAt(e, AT_KIND, Tail(r));
    PartsLaid(e, Head(r), Tail(r), r);
  }

  lemma PartsLaid(e: seq<Byte>, h: seq<Byte>, t: seq<Byte>, r: Record)
    requires Fits(r) && |e| == Size(r) && StandsAt(e, 0, h) && StandsAt(e, AT_KIND, t)
    requires StandsAt(e, AT_NEXT, Encoded(r.next, LONG)) && HeadLaid(h, r) && TailLaid(t, r)
    ensures Laid(e, r)
  {
    PartOfPart(e, 0, h, 0, Encoded(r.lrn, LONG));
    PartOfPart(e, 0, h, AT_TXN, Encoded(r.txn, INT));
    PartOfPart(e, 0, h, AT_PREV, Encoded(r.prev, LONG));
    PartOfPart(e, AT_KIND, t, 0, Encoded(KindCode(r.kind), INT));
    PartOfPart(e, AT_KIND, t, AT_FD - AT_KIND, Encoded(r.fd, INT));
    PartOfPart(e, AT_KIND, t, AT_OFFSET - AT_KIND, Encoded(r.offset, LONG));
    PartOfPart(e, AT_KIND, t, AT_LENGTH - AT_KIND, Encoded(|r.data|, LONG));
    PartOfPart(e, AT_KIND, t, HEADER - AT_KIND, r.data);
    PartOfPart(e, AT_KIND, t, HEADER - AT_KIND + |r.data|, Encoded(|r.data1|, LONG));
    PartOfPart(e, AT_KIND, t, HEADER - AT_KIND + |r.data| + LONG, r.data1);
  }

  ghost predicate HeadLaid(h: seq<Byte>, r: Record)
    requires Fits(r)
  {
    && StandsAt(h, 0, Encoded(r.lrn, LONG)) && StandsAt(h, AT_TXN, Encoded(r.txn, INT))
    && StandsAt(h, AT_PREV, Encoded(r.prev, LONG))
  }

  ghost predicate TailLaid(t: seq<Byte>, r: Record)
    requires Fits(r)
  {
    && StandsAt(t, 0, Encoded(KindCode(r.kind), INT))
    && StandsAt(t, AT_FD - AT_KIND, Encoded(r.fd, INT))
    && StandsAt(t, AT_OFFSET - AT_KIND, Encoded(r.offset, LONG))
    && StandsAt(t, AT_LENGTH - AT_KIND, Encoded(|r.data|, LONG))
    && StandsAt(t, HEADER - AT_KIND, r.data)
    && StandsAt(t, HEADER - AT_KIND + |r.data|, Encoded(|r.data1|, LONG))
    && StandsAt(t, HEADER - AT_KIND + |r.data| + LONG, r.data1)
  }

  lemma HeadStands(r: Record)
    requires Fits(r)
    ensures HeadLaid(Head(r), r)
  {
  }

  lemma TailStands(r: Record)
    requires Fits(r)
    ensures TailLaid(Tail(r), r)
  {
  }

  /** The number at offset `at` is `v`. */
  ghost predicate Reads(b: seq<Byte>, at: nat, v: int, width: nat) {
    at + width <= |b| && Field(b, at, width) == v
  }

  /** The numbers of a record as they are read where its bytes stand. */
  ghost predicate HeadReads(b: seq<Byte>, at: nat, r: Record) {
    && Reads(b, at, r.lrn, LONG) && Reads(b, at + AT_TXN, r.txn, INT)
    && Reads(b, at + AT_PREV, r.prev, LONG) && Reads(b, at + AT_NEXT, r.next, LONG)
  }

  ghost predicate TailReads(b: seq<Byte>, at: nat, r: Record) {
    && Reads(b, at + AT_KIND, KindCode(r.kind), INT) && Reads(b, at + AT_FD, r.fd, INT)
    && Reads(b, at + AT_OFFSET, r.offset, LONG) && Reads(b, at + AT_LENGTH, |r.data|, LONG)
    && Reads(b, at + HEADER + |r.data|, |r.data1|, LONG)
  }

  ghost predicate DataReads(b: seq<Byte>, at: nat, r: Record) {
    StandsAt(b, at + HEADER, r.data) && StandsAt(b, at + HEADER + |r.data| + LONG, r.data1)
  }

  lemma HeadReadIn(b: seq<Byte>, at: nat, e: seq<Byte>, r: Record)
    requires Fits(r) && Laid(e, r) && StandsAt(b, at, e)
    ensures HeadReads(b, at, r)
  {
    NumberAt(b, at, e, 0, r.lrn, LONG);
    NumberAt(b, at, e, AT_TXN, r.txn, INT);
    NumberAt(b, at, e, AT_PREV, r.prev, LONG);
    NumberAt(b, at, e, AT_NEXT, r.next, LONG);
  }

  /** The fixed fields behind `next_LRN`. */
  lemma KindReadIn(b: seq<Byte>, at: nat, e: seq<Byte>, r: Record)
    requires Fits(r) && Laid(e, r) && StandsAt(b, at, e)
    ensures Reads(b, at + AT_KIND, KindCode(r.kind), INT) && Reads(b, at + AT_FD, r.fd, INT)
    ensures Reads(b, at + AT_OFFSET, r.offset, LONG)
  {
    NumberAt(b, at, e, AT_KIND, KindCode(r.kind), INT);
    NumberAt(b, at, e, AT_FD, r.fd, INT);
    NumberAt(b, at, e, AT_OFFSET, r.offset, LONG);
  }

  lemma LengthReadIn(b: seq<Byte>, at: nat, e: seq<Byte>, r: Record)
    requires Fits(r) && Laid(e, r) && StandsAt(b, at, e)
    ensures Reads(b, at + AT_LENGTH, |r.data|, LONG)
  {
    NumberAt(b, at, e, AT_LENGTH, |r.data|, LONG);
  }

  lemma SecondLengthReadIn(b: seq<Byte>, at: nat, e: seq<Byte>, r: Record)
    requires Fits(r) && Laid(e, r) && StandsAt(b, at, e)
    ensures Reads(b, at + HEADER + |r.data|, |r.data1|, LONG)
  {
    var from := HEADER + |r.data|;
    NumberAt(b, at, e, from, |r.data1|, LONG);
    assert at + from == at + HEADER + |r.data|;
  }

  lemma TailReadIn(b: seq<Byte>, at: nat, e: seq<Byte>, r: Record)
    requires Fits(r) && Laid(e, r) && StandsAt(b, at, e)
    ensures TailReads(b, at, r)
  {
    KindReadIn(b, at, e, r);
    LengthReadIn(b, at, e, r);
    SecondLengthReadIn(b, at, e, r);
  }

  lemma DataReadIn(b: seq<Byte>, at: nat, e: seq<Byte>, r: Record)
    requires Fits(r) && Laid(e, r) && StandsAt(b, at, e)
    ensures DataReads(b, at, r)
  {
    PartOfPart(b, at, e, HEADER, r.data);
    PartOfPart(b, at, e, HEADER + |r.data| + LONG, r.data1);
  }

  lemma HeadRead(b: seq<Byte>, at: nat, r: Record)
    requires Fits(r) && StandsAt(b, at, Encode(r))
    ensures HeadReads(b, at, r)
  {
    FieldsStand(r);
    HeadReadIn(b, at, Encode(r), r);
  }

  /** The numbers behind `next_LRN` and the data, among them what the deferred-update readers fetch. */
  lemma TailRead(b: seq<Byte>, at: nat, r: Record)
    requires Fits(r) && StandsAt(b, at, Encode(r))
    ensures TailReads(b, at, r) && DataReads(b, at, r)
  {
    FieldsStand(r);
    TailReadIn(b, at, Encode(r), r);
    DataReadIn(b, at, Encode(r), r);
  }

  lemma ParseNumbers(number: (nat, nat) -> int, b: seq<Byte>, at: nat, r: Record)
    requires number(at, LONG) == r.lrn && number(at + AT_TXN, INT) == r.txn && number(at + AT_PREV, LONG) == r.prev
    requires number(at + AT_NEXT, LONG) == r.next && number(at + AT_KIND, INT) == KindCode(r.kind)
    requires number(at + AT_FD, INT) == r.fd && number(at + AT_OFFSET, LONG) == r.offset
    requires number(at + AT_LENGTH, LONG) == |r.data| && number(at + HEADER + |r.data|, LONG) == |r.data1|
    requires DataReads(b, at, r)
    ensures ParseVia(number, b, at) == Good((r, at + Size(r)))
  {
  }

  lemma ParseRead(b: seq<Byte>, at: nat, r: Record)
    requires HeadReads(b, at, r) && TailReads(b, at, r) && DataReads(b, at, r)
    ensures ParseAt(b, at) == Good((r, at + Size(r)))
  {
    var number := (from: nat, width: nat) => if from + width <= |b| then Field(b, from, width) else -1;
    ParseNumbers(number, b, at, r);
  }

  lemma ParseLaid(b: seq<Byte>, at: nat, e: seq<Byte>, r: Record)
    requires Fits(r) && Laid(e, r) && StandsAt(b, at, e)
    ensures at + Size(r) <= |b| && ParseAt(b, at) == Good((r, at + Size(r)))
  {
    HeadReadIn(b, at, e, r);
    TailReadIn(b, at, e, r);
    DataReadIn(b, at, e, r);
    ParseRead(b, at, r);
  }

  /** Reading at the offset where a record was written gives the record back. */
  lemma ParseEncoded(b: seq<Byte>, at: nat, r: Record)
    requires Fits(r) && StandsAt(b, at, Encode(r))
    ensures at + Size(r) <= |b| && ParseAt(b, at) == Good((r, at + Size(r)))
  {
    FieldsStand(r);
    ParseLaid(b, at, Encode(r), r);
  }

  /** A number that is read somewhere stands there. */
  lemma StandsWhereRead(b: seq<Byte>, at: nat, v: int, width: nat)
    requires width > 0 && at + width <= |b| && Field(b, at, width) == v
    ensures InRange(v, width) && StandsAt(b, at, Encoded(v, width))
  {
    EncodeDecoded(b[at..at + width]);
  }

  lemma CodeOfKind(code: int)
    requires KindOf(code).Good?
    ensures KindCode(KindOf(code).value) == code
  {
  }

  /** Parts that adjoin. */
  lemma StandTogether(b: seq<Byte>, at: nat, p: seq<Byte>, q: seq<Byte>)
    requires StandsAt(b, at, p) && StandsAt(b, at + |p|, q)
    ensures StandsAt(b, at, p + q)
  {
    forall i | 0 <= i < |p + q| ensures b[at..at + |p + q|][i] == (p + q)[i] {
      if i < |p| { assert b[at..at + |p|][i] == p[i]; }
      else { assert b[at + |p|..at + |p| + |q|][i - |p|] == q[i - |p|]; }
    }
  }

  lemma HeadFound(b: seq<Byte>, at: nat, r: Record, n: nat)
    requires ParseAt(b, at) == Good((r, n))
    ensures InRange(r.lrn, LONG) && InRange(r.txn, INT) && InRange(r.prev, LONG) && InRange(r.next, LONG)
    ensures StandsAt(b, at, Encoded(r.lrn, LONG)) && StandsAt(b, at + AT_TXN, Encoded(r.txn, INT))
    ensures StandsAt(b, at + AT_PREV, Encoded(r.prev, LONG)) && StandsAt(b, at + AT_NEXT, Encoded(r.next, LONG))
  {
    StandsWhereRead(b, at, r.lrn, LONG);
    StandsWhereRead(b, at + AT_TXN, r.txn, INT);
    StandsWhereRead(b, at + AT_PREV, r.prev, LONG);
    StandsWhereRead(b, at + AT_NEXT, r.next, LONG);
  }

  lemma KindFound(b: seq<Byte>, at: nat, r: Record, n: nat)
    requires ParseAt(b, at) == Good((r, n))
    ensures InRange(KindCode(r.kind), INT) && InRange(r.fd, INT) && InRange(r.offset, LONG)
    ensures StandsAt(b, at + AT_KIND, Encoded(KindCode(r.kind), INT)) && StandsAt(b, at + AT_FD, Encoded(r.fd, INT))
    ensures StandsAt(b, at + AT_OFFSET, Encoded(r.offset, LONG))
  {
    CodeOfKind(Field(b, at + AT_KIND, INT));
    StandsWhereRead(b, at + AT_KIND, KindCode(r.kind), INT);
    StandsWhereRead(b, at + AT_FD, r.fd, INT);
    StandsWhereRead(b, at + AT_OFFSET, r.offset, LONG);
  }

  lemma DataFound(b: seq<Byte>, at: nat, r: Record, n: nat)
    requires ParseAt(b, at) == Good((r, n))
    ensures n == at + Size(r) && InRange(|r.data|, LONG) && InRange(|r.data1|, LONG)
    ensures StandsAt(b, at + AT_LENGTH, Encoded(|r.data|, LONG)) && StandsAt(b, at + HEADER, r.data)
    ensures StandsAt(b, at + HEADER + |r.data|, Encoded(|r.data1|, LONG))
    ensures StandsAt(b, at + HEADER + |r.data| + LONG, r.data1)
  {
    StandsWhereRead(b, at + AT_LENGTH, |r.data|, LONG);
    StandsWhereRead(b, at + HEADER + |r.data|, |r.data1|, LONG);
  }

  /** The bytes of a record stand where its fields do. */
  lemma JoinHead(b: seq<Byte>, at: nat, r: Record)
    requires Fits(r)
    requires StandsAt(b, at, Encoded(r.lrn, LONG)) && StandsAt(b, at + AT_TXN, Encoded(r.txn, INT))
    requires StandsAt(b, at + AT_PREV, Encoded(r.prev, LONG)) && StandsAt(b, at + AT_NEXT, Encoded(r.next, LONG))
    ensures StandsAt(b, at, Head(r) + Encoded(r.next, LONG))
  {
    StandTogether(b, at, Encoded(r.lrn, LONG), Encoded(r.txn, INT));
    StandTogether(b, at, Encoded(r.lrn, LONG) + Encoded(r.txn, INT), Encoded(r.prev, LONG));
    StandTogether(b, at, Head(r), Encoded(r.next, LONG));
  }

  lemma JoinTail(b: seq<Byte>, at: nat, r: Record)
    requires Fits(r)
    requires StandsAt(b, at + AT_KIND, Encoded(KindCode(r.kind), INT)) && StandsAt(b, at + AT_FD, Encoded(r.fd, INT))
    requires StandsAt(b, at + AT_OFFSET, Encoded(r.offset, LONG))
    requires StandsAt(b, at + AT_LENGTH, Encoded(|r.data|, LONG)) && StandsAt(b, at + HEADER, r.data)
    requires StandsAt(b, at + HEADER + |r.data|, Encoded(|r.data1|, LONG))
    requires StandsAt(b, at + HEADER + |r.data| + LONG, r.data1)
    ensures StandsAt(b, at + AT_KIND, Tail(r))
  {
    var k, fd, off := Encoded(KindCode(r.kind), INT), Encoded(r.fd, INT), Encoded(r.offset, LONG);
    var len, len1 := Encoded(|r.data|, LONG), Encoded(|r.data1|, LONG);
    FourTogether(b, at + AT_KIND, k, fd, off, len);
    FourTogether(b, at + AT_KIND, k + fd + off + len, r.data, len1, r.data1);
  }

  lemma FourTogether(b: seq<Byte>, at: nat, p: seq<Byte>, q: seq<Byte>, r: seq<Byte>, s: seq<Byte>)
    requires StandsAt(b, at, p) && StandsAt(b, at + |p|, q) && StandsAt(b, at + |p| + |q|, r)
    requires StandsAt(b, at + |p| + |q| + |r|, s)
    ensures StandsAt(b, at, p + q + r + s)
  {
    StandTogether(b, at, p, q);
    StandTogether(b, at, p + q, r);
    StandTogether(b, at, p + q + r, s);
  }

  lemma RecordFound(b: seq<Byte>, at: nat, r: Record, n: nat)
    requires ParseAt(b, at) == Good((r, n))
    ensures IsWritten(b, at, r, n)
  {
    HeadFound(b, at, r, n);
    KindFound(b, at, r, n);
    DataFound(b, at, r, n);
    JoinHead(b, at, r);
    JoinTail(b, at, r);
    StandTogether(b, at, Head(r) + Encoded(r.next, LONG), Tail(r));
  }

  /** The bytes of a record stand from `at` to `n`. */
  ghost predicate IsWritten(b: seq<Byte>, at: nat, r: Record, n: nat) {
    Fits(r) && StandsAt(b, at, Encode(r)) && n == at + Size(r)
  }

  lemma WrittenIsRead(b: seq<Byte>, at: nat, r: Record, n: nat)
    requires IsWritten(b, at, r, n)
    ensures ParseAt(b, at) == Good((r, n))
  {
    ParseEncoded(b, at, r);
  }

  /** The reader takes exactly the encodings for records: it reads a record where the bytes of one stand, and
      nowhere else. */
  lemma ParsesExactly(b: seq<Byte>, at: nat, r: Record, n: nat)
    ensures ParseAt(b, at) == Good((r, n)) <==> IsWritten(b, at, r, n)
  {
    if IsWritten(b, at, r, n) { WrittenIsRead(b, at, r, n); }
    if ParseAt(b, at) == Good((r, n)) { RecordFound(b, at, r, n); }
  }

  /** The layout in numbers: which bytes of a record hold which field, and the code of its type. */
  lemma RecordBytes(r: Record)
    requires Fits(r)
    ensures var e, n := Encode(r), |r.data|;
            && |e| == 60 + n + |r.data1|
            && e[0..8] == Encoded(r.lrn, 8) && e[8..12] == Encoded(r.txn, 4)
            && e[12..20] == Encoded(r.prev, 8) && e[20..28] == Encoded(r.next, 8)
            && e[28..32] == [match r.kind
                             case Beg => 1 case Update => 2 case Rename => 3 case Creat => 4
                             case Unlink => 5 case CommitRec => 6 case AbortRec => 7 case End => 8, 0, 0, 0]
            && e[32..36] == Encoded(r.fd, 4) && e[36..44] == Encoded(r.offset, 8)
            && e[44..52] == Encoded(n, 8) && e[52..52 + n] == r.data
            && e[52 + n..60 + n] == Encoded(|r.data1|, 8) && e[60 + n..] == r.data1
  {
    FieldsStand(r);
    KindBytes(r.kind);
  }

  lemma KindBytes(k: Kind)
    requires InRange(KindCode(k), INT)
    ensures Encoded(KindCode(k), INT) == [KindCode(k), 0, 0, 0]
  {
    assert Span(4) == 256 * Span(3);
    forall i | 0 <= i < 4 ensures Encoded(KindCode(k), INT)[i] == [KindCode(k), 0, 0, 0][i] {
      DigitsAt(KindCode(k), 4, i);
      assert i > 0 ==> Span(i) >= 256;
    }
  }

  /** A number is stored lowest byte first, a negative one as its two's complement. */
  lemma EncodedBytes(v: int, width: nat, u: nat, i: nat)
    requires InRange(v, width) && u == (if v < 0 then v + Span(width) else v) && i < width
    ensures Encoded(v, width)[i] == u / Span(i) % 256
  {
    DigitsAt(u, width, i);
  }

  /** Overwriting `next_LRN`, 20 bytes into a record, changes that field and no other byte. */
  lemma PatchedRecord(r: Record, next: int)
    requires Fits(r) && InRange(next, LONG)
    ensures var e := Encode(r);
            e[..AT_NEXT] + Encoded(next, LONG) + e[AT_KIND..] == Encode(r.(next := next))
  {
    var e := Encode(r);
    assert e[..AT_NEXT] == Head(r) && e[AT_KIND..] == Tail(r);
  }
}

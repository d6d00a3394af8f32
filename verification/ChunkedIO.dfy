/** Reading, writing and seeking through a descriptor. Transfers are cut at 8192-byte boundaries. */
module ChunkedIO {
  import opened Basics

  const RW_SIZE := 8192

  datatype Error = NoError | EINVAL | ENOSPC

  /** How far a position is into its block. */
  function InBlock(pos: nat): (r: nat)
    ensures r < RW_SIZE
  {
    if pos < RW_SIZE then pos else InBlock(pos - RW_SIZE)
  }

  /** That is the position under the mask `RW_SIZE - 1`. */
  lemma {:induction false} InBlockIsRemainder(pos: nat)
    ensures InBlock(pos) == pos % RW_SIZE
  {
    if pos >= RW_SIZE { InBlockIsRemainder(pos - RW_SIZE); }
  }

  /** The size of the next piece of a transfer: up to the next boundary. */
  function Piece(pos: nat, n: nat): (k: nat)
    ensures n > 0 ==> 0 < k
    ensures k <= n
  {
    Min(RW_SIZE - InBlock(pos), n)
  }

  /** One call of the lower layer, for `len` bytes at `pos`. */
  datatype Call = Call(pos: nat, len: nat)

  /** The calls that a transfer makes of a lower layer whose answer to a call is `xfer`: it goes on as long
      as each call transfers all it was asked to. */
  function Calls(xfer: (nat, nat) -> int, pos: nat, n: nat): seq<Call>
    decreases n
  {
    if n == 0 then []
    else
      var k := Piece(pos, n);
      [Call(pos, k)] + if xfer(pos, k) == k then Calls(xfer, pos + k, n - k) else []
  }

  /** How many bytes that transfers. */
  function Moved(xfer: (nat, nat) -> int, pos: nat, n: nat): nat
    decreases n
  {
    if n == 0 then 0
    else
      var k := Piece(pos, n);
      if xfer(pos, k) == k then k + Moved(xfer, pos + k, n - k)
      else if xfer(pos, k) > 0 then xfer(pos, k) else 0
  }

  /** The lower layer never transfers more than it was asked to. */
  ghost predicate Bounded(xfer: (nat, nat) -> int) {
    forall p, k :: xfer(p, k) <= k
  }

  /** Every call of this transfer is served in full. */
  ghost predicate Full(xfer: (nat, nat) -> int, pos: nat, n: nat) {
    Served(xfer, Calls(xfer, pos, n))
  }

  ghost predicate Served(xfer: (nat, nat) -> int, cs: seq<Call>) {
    forall c :: c in cs ==> xfer(c.pos, c.len) == c.len
  }

  lemma ServedFirst(xfer: (nat, nat) -> int, c: Call, rest: seq<Call>)
    ensures Served(xfer, [c] + rest) <==> xfer(c.pos, c.len) == c.len && Served(xfer, rest)
  {
    forall d ensures d in [c] + rest <==> d == c || d in rest {}
  }

  predicate InOneBlock(c: Call) {
    c.len > 0 && c.pos / RW_SIZE == (c.pos + c.len - 1) / RW_SIZE
  }

  /** The calls are consecutive pieces of the request, from its start on, and none of them crosses a
      boundary. */
  ghost predicate Consecutive(cs: seq<Call>, pos: nat, n: nat) {
    && (forall i :: 0 <= i < |cs| ==> InOneBlock(cs[i]))
    && (forall i :: 0 <= i < |cs| ==> cs[i].pos + cs[i].len <= pos + n)
    && (forall i :: 0 < i < |cs| ==> Adjoins(cs, i))
    && (cs != [] ==> cs[0].pos == pos)
  }

  /** Call `i` begins where the one before it ends. */
  ghost predicate Adjoins(cs: seq<Call>, i: nat)
    requires 0 < i < |cs|
  {
    cs[i].pos == cs[i - 1].pos + cs[i - 1].len
  }

  lemma PieceInBlock(pos: nat, n: nat)
    requires n > 0
    ensures InOneBlock(Call(pos, Piece(pos, n)))
  {
    InBlockIsRemainder(pos);
  }

  lemma {:induction false} CallsAreConsecutive(xfer: (nat, nat) -> int, pos: nat, n: nat, cs: seq<Call>)
    requires cs == Calls(xfer, pos, n)
    ensures Consecutive(cs, pos, n)
    decreases n
  {
    if n > 0 {
      var k := Piece(pos, n);
      var rest := if xfer(pos, k) == k then Calls(xfer, pos + k, n - k) else [];
      if xfer(pos, k) == k { CallsAreConsecutive(xfer, pos + k, n - k, rest); }
      PrependPiece(pos, n, rest, cs);
    }
  }

  lemma PrependPiece(pos: nat, n: nat, rest: seq<Call>, cs: seq<Call>)
    requires n > 0 && Consecutive(rest, pos + Piece(pos, n), n - Piece(pos, n))
    requires cs == [Call(pos, Piece(pos, n))] + rest
    ensures Consecutive(cs, pos, n)
  {
    PieceInBlock(pos, n);
    PrependCall(Call(pos, Piece(pos, n)), rest, n);
  }

  lemma PrependCall(c: Call, rest: seq<Call>, n: nat)
    requires InOneBlock(c) && c.len <= n && Consecutive(rest, c.pos + c.len, n - c.len)
    ensures Consecutive([c] + rest, c.pos, n)
  {
    var cs := [c] + rest;
    forall i | 0 < i < |cs| ensures Adjoins(cs, i) {
      assert cs[i] == rest[i - 1];
      if i > 1 { assert cs[i - 1] == rest[i - 2] && Adjoins(rest, i - 1); }
    }
  }

  /** The call goes up to the next 8192-byte boundary or to `end`. */
  ghost predicate Whole(c: Call, end: nat) {
    && 0 < c.len <= 8192 && c.pos / 8192 == (c.pos + c.len - 1) / 8192
    && (c.pos + c.len == end || (c.pos + c.len) % 8192 == 0)
  }

  /** Call `i` is served in full, and the next one begins where it ends. */
  ghost predicate Goes(xfer: (nat, nat) -> int, cs: seq<Call>, i: nat)
    requires i + 1 < |cs|
  {
    xfer(cs[i].pos, cs[i].len) == cs[i].len && cs[i + 1].pos == cs[i].pos + cs[i].len
  }

  /** The calls of a transfer from `pos` to `end`: they follow each other from the start of the request on, all
      but the last are served in full, and if the last one is too it has come to the end. */
  ghost predicate AreCalls(xfer: (nat, nat) -> int, cs: seq<Call>, pos: nat, end: nat) {
    && (pos < end <==> cs != [])
    && (forall i :: 0 <= i < |cs| - 1 ==> Goes(xfer, cs, i))
    && (forall i :: 0 <= i < |cs| ==> Whole(cs[i], end))
    && (cs != [] ==>
          var last := cs[|cs| - 1];
          cs[0].pos == pos && (xfer(last.pos, last.len) == last.len ==> last.pos + last.len == end))
  }

  lemma CallBefore(xfer: (nat, nat) -> int, c: Call, rest: seq<Call>, end: nat)
    requires Whole(c, end) && c.pos + c.len <= end
    requires if xfer(c.pos, c.len) == c.len then AreCalls(xfer, rest, c.pos + c.len, end) else rest == []
    ensures AreCalls(xfer, [c] + rest, c.pos, end)
  {
    var cs := [c] + rest;
    forall i | 0 <= i < |cs| - 1 ensures Goes(xfer, cs, i) {
      if i > 0 { assert Goes(xfer, rest, i - 1); }
    }
    forall i | 0 <= i < |cs| ensures Whole(cs[i], end) {
      if i > 0 { assert Whole(rest[i - 1], end); }
    }
  }

  /** The first call of a transfer, and the others. */
  lemma FirstCall(xfer: (nat, nat) -> int, pos: nat, n: nat, end: nat) returns (k: nat, rest: seq<Call>, moved: nat)
    requires n > 0 && end == pos + n
    ensures k <= n && Whole(Call(pos, k), end)
    ensures if xfer(pos, k) == k then rest == Calls(xfer, pos + k, n - k) && moved == Moved(xfer, pos + k, n - k)
            else rest == [] && moved == 0
    ensures Calls(xfer, pos, n) == [Call(pos, k)] + rest
    ensures Moved(xfer, pos, n) == if xfer(pos, k) == k then k + moved else if xfer(pos, k) > 0 then xfer(pos, k) else 0
  {
    k := Piece(pos, n);
    CallIsWhole(pos, n, k, end);
    if xfer(pos, k) == k {
      rest, moved := Calls(xfer, pos + k, n - k), Moved(xfer, pos + k, n - k);
    } else {
      rest, moved := [], 0;
    }
  }

  /** `cs` are the calls of a transfer that moves `moved` bytes. */
  ghost predicate Exact(xfer: (nat, nat) -> int, pos: nat, end: nat, cs: seq<Call>, moved: nat) {
    AreCalls(xfer, cs, pos, end) && moved == if cs == [] then 0 else MovedBy(xfer, pos, cs[|cs| - 1])
  }

  lemma ExactStep(xfer: (nat, nat) -> int, pos: nat, end: nat, k: nat, rest: seq<Call>, moved: nat)
    requires Whole(Call(pos, k), end) && pos + k <= end
    requires if xfer(pos, k) == k then Exact(xfer, pos + k, end, rest, moved) else rest == []
    ensures Exact(xfer, pos, end, [Call(pos, k)] + rest,
                  if xfer(pos, k) == k then k + moved else if xfer(pos, k) > 0 then xfer(pos, k) else 0)
  {
    CallBefore(xfer, Call(pos, k), rest, end);
    var cs := [Call(pos, k)] + rest;
    assert rest != [] ==> cs[|cs| - 1] == rest[|rest| - 1];
  }

  /** Which calls a transfer makes, and that it moves what these move together. */
  lemma {:induction false} CallsExact(xfer: (nat, nat) -> int, pos: nat, n: nat, end: nat, cs: seq<Call>, moved: nat)
    requires end == pos + n && cs == Calls(xfer, pos, n) && moved == Moved(xfer, pos, n)
    ensures Exact(xfer, pos, end, cs, moved)
    decreases n
  {
    if n > 0 {
      var k, rest, further := FirstCall(xfer, pos, n, end);
      if xfer(pos, k) == k { CallsExact(xfer, pos + k, n - k, end, rest, further); }
      ExactStep(xfer, pos, end, k, rest, further);
    }
  }

  /** All bytes in front of the last call, and those that it moves. */
  ghost function MovedBy(xfer: (nat, nat) -> int, pos: nat, last: Call): int {
    last.pos - pos + if xfer(last.pos, last.len) > 0 then xfer(last.pos, last.len) else 0
  }

  lemma CallIsWhole(pos: nat, n: nat, k: nat, end: nat)
    requires n > 0 && k == Piece(pos, n) && end == pos + n
    ensures Whole(Call(pos, k), end) && k <= n
  {
    InBlockIsRemainder(pos);
  }

  lemma {:induction false} MovedBounds(xfer: (nat, nat) -> int, pos: nat, n: nat)
    requires Bounded(xfer)
    ensures Moved(xfer, pos, n) <= n
    decreases n
  {
    if n > 0 {
      var k := Piece(pos, n);
      if xfer(pos, k) == k { MovedBounds(xfer, pos + k, n - k); }
    }
  }

  /** A transfer moves all of the request iff every call is served in full. */
  lemma {:induction false} FullMovesAll(xfer: (nat, nat) -> int, pos: nat, n: nat)
    requires Bounded(xfer)
    ensures Full(xfer, pos, n) <==> Moved(xfer, pos, n) == n
    decreases n
  {
    if n > 0 {
      var k := Piece(pos, n);
      var rest := if xfer(pos, k) == k then Calls(xfer, pos + k, n - k) else [];
      ServedFirst(xfer, Call(pos, k), rest);
      if xfer(pos, k) == k { FullMovesAll(xfer, pos + k, n - k); }
    }
  }

  /** One call and what is left to do after it. */
  lemma OneCall(xfer: (nat, nat) -> int, pos: nat, n: nat, k: nat, before: seq<Call>)
    requires Bounded(xfer) && n > 0 && k == Piece(pos, n)
    ensures 0 < k <= n && xfer(pos, k) <= k
    ensures var got := if xfer(pos, k) > 0 then xfer(pos, k) else 0;
            var left := if xfer(pos, k) == k then n - k else 0;
            && Moved(xfer, pos, n) == got + Moved(xfer, pos + got, left)
            && before + Calls(xfer, pos, n) == before + [Call(pos, k)] + Calls(xfer, pos + got, left)
  {
  }

  /** Two adjoining writes are one write. */
  lemma PatchTwice(c: seq<Byte>, pos: nat, a: seq<Byte>, b: seq<Byte>)
    requires a != []
    ensures Patch(Patch(c, pos, a), pos + |a|, b) == Patch(c, pos, a + b)
  {
    var once := Patch(c, pos, a);
    var twice, both := Patch(once, pos + |a|, b), Patch(c, pos, a + b);
    PatchedBytes(c, pos, a);
    PatchedBytes(once, pos + |a|, b);
    PatchedBytes(c, pos, a + b);
    assert |twice| == |both|;
    forall i | 0 <= i < |both| ensures twice[i] == both[i] {}
  }

  /** The bytes of a file after a write of which `moved` bytes were stored. */
  lemma BytesWritten(c: seq<Byte>, pos: nat, data: seq<Byte>, moved: nat, now: seq<Byte>)
    requires moved <= |data| && now == if moved == 0 then c else Patch(c, pos, data[..moved])
    ensures |now| == if moved > 0 && |c| < pos + moved then pos + moved else |c|
    ensures forall i :: 0 <= i < |now| ==>
              now[i] == if pos <= i < pos + moved then data[i - pos] else if i < |c| then c[i] else 0
  {
    PatchedBytes(c, pos, data[..moved]);
  }

  /** After `done` bytes and the calls `calls`, with `left` bytes still to be asked for. */
  ghost predicate Transferring(xfer: (nat, nat) -> int, start: nat, len: nat, done: nat, left: nat, calls: seq<Call>) {
    && done <= len && (left > 0 ==> done + left == len)
    && Moved(xfer, start, len) == done + Moved(xfer, start + done, left)
    && Calls(xfer, start, len) == calls + Calls(xfer, start + done, left)
  }

  lemma TransferBegins(xfer: (nat, nat) -> int, start: nat, len: nat)
    ensures Transferring(xfer, start, len, 0, len, [])
  {
    assert [] + Calls(xfer, start, len) == Calls(xfer, start, len);
  }

  lemma TransferEnds(xfer: (nat, nat) -> int, start: nat, len: nat, done: nat, calls: seq<Call>)
    requires Transferring(xfer, start, len, done, 0, calls)
    ensures Moved(xfer, start, len) == done <= len && Calls(xfer, start, len) == calls
  {
    assert calls + [] == calls;
  }

  /** What is written after `done` bytes of `data`, and after the next `put` of them. */
  function Written(c: seq<Byte>, start: nat, data: seq<Byte>, done: nat): seq<Byte>
    requires done <= |data|
  {
    if done == 0 then c else Patch(c, start, data[..done])
  }

  /** `states[d]` is the file after `d` bytes of the data. */
  ghost predicate Growing(states: seq<seq<Byte>>, start: nat, data: seq<Byte>) {
    && |states| == |data| + 1
    && forall d: nat, put: nat :: 0 < put && d + put <= |data| ==> Grows(states, start, data, d, put)
  }

  ghost predicate Grows(states: seq<seq<Byte>>, start: nat, data: seq<Byte>, d: nat, put: nat)
    requires d + put <= |data| && |states| == |data| + 1
  {
    Patch(states[d], start + d, data[d..d + put]) == states[d + put]
  }

  ghost predicate AreStates(states: seq<seq<Byte>>, c: seq<Byte>, start: nat, data: seq<Byte>) {
    |states| == |data| + 1 && forall d :: 0 <= d <= |data| ==> states[d] == Written(c, start, data, d)
  }

  lemma StatesOf(c: seq<Byte>, start: nat, data: seq<Byte>) returns (states: seq<seq<Byte>>)
    ensures AreStates(states, c, start, data)
  {
    states := seq(|data| + 1, d requires 0 <= d <= |data| => Written(c, start, data, d));
  }

  lemma StatesGrow(states: seq<seq<Byte>>, c: seq<Byte>, start: nat, data: seq<Byte>)
    requires AreStates(states, c, start, data)
    ensures Growing(states, start, data)
  {
    forall d: nat, put: nat | 0 < put && d + put <= |data| ensures Grows(states, start, data, d, put) {
      StateGrows(states, c, start, data, d, put);
    }
  }

  lemma StateGrows(states: seq<seq<Byte>>, c: seq<Byte>, start: nat, data: seq<Byte>, d: nat, put: nat)
    requires AreStates(states, c, start, data) && 0 < put && d + put <= |data|
    ensures Grows(states, start, data, d, put)
  {
    WrittenGrows(c, start, data, d, put);
  }

  lemma WrittenGrows(c: seq<Byte>, start: nat, data: seq<Byte>, done: nat, put: nat)
    requires done + put <= |data| && put > 0
    ensures Patch(Written(c, start, data, done), start + done, data[done..done + put])
         == Written(c, start, data, done + put)
  {
    if done > 0 { PatchTwice(c, start, data[..done], data[done..done + put]); }
    assert data[..done] + data[done..done + put] == data[..done + put];
  }

  /** The request passes the range check of the read and write calls. */
  predicate InBounds(pos: int, n: nat, max: nat) {
    0 <= pos && pos + n <= max
  }

  /** The check as the code makes it, on `int`s: the end of the request may have wrapped around. */
  predicate OutOfRange(pos: int, n: nat, max: nat) {
    pos < 0 || pos > max || n > max || AsInt(pos + n) < 0 || AsInt(pos + n) > max
  }

  lemma RangeCheckExact(pos: int, n: nat, max: nat)
    requires max < 0x8000_0000
    ensures OutOfRange(pos, n, max) <==> !InBounds(pos, n, max)
  {
  }

  /** The first `total` bytes from `start` on. */
  ghost function Taken(content: seq<Byte>, start: nat, total: nat): seq<Byte> {
    if total > 0 && start + total <= |content| then content[start..start + total] else []
  }

  /** An open descriptor and the contents of its file. `max` is the largest file size. */
  class OpenFile {
    const reading: bool
    const writing: bool
    const append: bool
    const max: nat
    var position: int
    var content: seq<Byte>

    ghost predicate Valid()
      reads this
    {
      max < 0x8000_0000 && |content| <= max && 0 <= position <= max
    }

    constructor (reading: bool, writing: bool, append: bool, max: nat, content: seq<Byte>)
      requires max < 0x8000_0000 && |content| <= max
      ensures Valid() && position == 0 && this.content == content
      ensures this.reading == reading && this.writing == writing && this.append == append && this.max == max
    {
      this.reading, this.writing, this.append, this.max := reading, writing, append, max;
      this.position, this.content := 0, content;
    }

    /** How much of a read request lies inside the file. */
    function Clipped(pos: int, n: nat): nat
      reads this
    {
      if |content| > pos then Min(n, |content| - pos) else 0
    }

    /** The read call. `at` is given for a positioned read. With a lower layer that answers `xfer`, the bytes
        are the ones from the start position on, as many as are moved. */
    method Read(n: nat, positioned: bool, at: int, xfer: (nat, nat) -> int)
      returns (total: int, data: seq<Byte>, err: Error, ghost calls: seq<Call>)
      requires Valid() && n < 0x1_0000_0000 && -0x8000_0000 <= at < 0x8000_0000 && Bounded(xfer)
      modifies this`position
      ensures Valid()
      ensures var pos := if positioned then at else old(position);
              var len := if |content| <= pos then 0 else if n < |content| - pos then n else |content| - pos;
              if !reading || n > max then
                total == -1 && err == EINVAL && data == [] && calls == [] && position == old(position)
              else if !InBounds(pos, len, max) then
                && total == -1 && data == [] && calls == [] && position == old(position)
                && err == if positioned then NoError else EINVAL
              else
                && total == Moved(xfer, pos, len) <= len && err == NoError && calls == Calls(xfer, pos, len)
                && data == (if total == 0 then [] else content[pos..pos + total])
                && position == if positioned then old(position) else pos + total
    {
      data, err, calls := [], NoError, [];
      if !reading || n > max { return -1, [], EINVAL, []; }
      var start := if positioned then at else position;
      var len := if |content| > start then Min(n, |content| - start) else 0;
      assert len == Clipped(start, n);
      RangeCheckExact(start, len, max);
      if OutOfRange(start, len, max) {
        total := -1;
      } else {
        total, data, calls := ReadPieces(start, len, xfer);
        assert data == if total == 0 then [] else content[start..start + total];
      }
      if !positioned {
        if total >= 0 {
          position := start + total;
        } else {
          err := EINVAL;
        }
      }
    }

    /** The read loop. */
    method ReadPieces(start: nat, len: nat, xfer: (nat, nat) -> int)
      returns (total: nat, data: seq<Byte>, ghost calls: seq<Call>)
      requires Bounded(xfer) && (len > 0 ==> start + len <= |content|)
      ensures total == Moved(xfer, start, len) <= len && calls == Calls(xfer, start, len)
      ensures data == Taken(content, start, total)
    {
      MovedBounds(xfer, start, len);
      total, data, calls := 0, [], [];
      var pos: nat, left: nat := start, len;
      TransferBegins(xfer, start, len);
      while left > 0
        invariant pos == start + total && Transferring(xfer, start, len, total, left, calls)
        invariant data == Taken(content, start, total)
        decreases left
      {
        var got: nat, rest: nat;
        got, rest, calls := NextCall(xfer, pos, left, start, len, total, calls);
        if got > 0 {
          data := GetBytes(start, total, got, data);
          total := total + got;
          pos := pos + got;
        }
        left := rest;
      }
      TransferEnds(xfer, start, len, total, calls);
    }

    /** One call for the data from `pos` on, with the bytes it puts into the file. */
    method PutPiece(start: nat, data: seq<Byte>, xfer: (nat, nat) -> int, pos: nat, left: nat,
                    ghost states: seq<seq<Byte>>, ghost done: nat, ghost before: seq<Call>)
      returns (put: nat, rest: nat, ghost calls: seq<Call>)
      requires Bounded(xfer) && left > 0 && pos == start + done && done <= |data| && Growing(states, start, data)
      requires Transferring(xfer, start, |data|, done, left, before) && content == states[done]
      modifies this`content
      ensures put <= left && rest < left && (put == 0 ==> rest == 0) && done + put <= |data|
      ensures Transferring(xfer, start, |data|, done + put, rest, calls) && content == states[done + put]
    {
      put, rest, calls := NextCall(xfer, pos, left, start, |data|, done, before);
      if put > 0 { PutBytes(start, data, pos, put, states, done); }
    }

    /** The lower layer stores the next `put` bytes of the data. */
    method PutBytes(start: nat, data: seq<Byte>, pos: nat, put: nat, ghost states: seq<seq<Byte>>, ghost done: nat)
      requires 0 < put && pos == start + done && done + put <= |data|
      requires Growing(states, start, data) && content == states[done]
      modifies this`content
      ensures content == states[done + put]
    {
      assert Grows(states, start, data, done, put);
      content := Patch(content, pos, data[pos - start..pos - start + put]);
    }

    /** The lower layer fetches the next `got` bytes. */
    method GetBytes(start: nat, total: nat, got: nat, data: seq<Byte>) returns (more: seq<Byte>)
      requires got > 0 && start + total + got <= |content|
      requires data == Taken(content, start, total)
      ensures more == Taken(content, start, total + got)
    {
      more := data + content[start + total..start + total + got];
    }

    /** One call of the lower layer: how much it moved, and how much of the request is still to do. */
    method NextCall(xfer: (nat, nat) -> int, pos: nat, left: nat,
                    ghost start: nat, ghost len: nat, ghost done: nat, ghost before: seq<Call>)
      returns (got: nat, rest: nat, ghost calls: seq<Call>)
      requires Bounded(xfer) && left > 0 && pos == start + done && Transferring(xfer, start, len, done, left, before)
      ensures got <= left && rest < left && (got == 0 ==> rest == 0)
      ensures Transferring(xfer, start, len, done + got, rest, calls)
    {
      var k := Piece(pos, left);
      var moved := xfer(pos, k);
      OneCall(xfer, pos, left, k, before);
      got := if moved > 0 then moved else 0;
      rest := if moved == k then left - k else 0;
      calls := before + [Call(pos, k)];
    }

    /** The write call. */
    method Write(data: seq<Byte>, positioned: bool, at: int, xfer: (nat, nat) -> int)
      returns (total: int, err: Error, ghost calls: seq<Call>)
      requires Valid() && |data| < 0x1_0000_0000 && -0x8000_0000 <= at < 0x8000_0000 && Bounded(xfer)
      modifies this`position, this`content
      ensures Valid()
      ensures var pos := if append then |old(content)| else if positioned then at else old(position);
              if !writing then
                total == -1 && err == EINVAL && calls == [] && content == old(content) && position == old(position)
              else if !InBounds(pos, |data|, max) then
                && total == -1 && calls == [] && content == old(content) && position == old(position)
                && err == if positioned then NoError else EINVAL
              else
                var moved := Moved(xfer, pos, |data|);
                && moved <= |data| && calls == Calls(xfer, pos, |data|)
                && total == (if moved == 0 && data != [] then -1 else moved)
                && |content| == (if moved > 0 && |old(content)| < pos + moved then pos + moved else |old(content)|)
                && (forall i :: 0 <= i < |content| ==>
                      content[i] == if pos <= i < pos + moved then data[i - pos]
                                    else if i < |old(content)| then old(content)[i] else 0)
                && position == (if positioned || moved == 0 then old(position) else pos + moved)
                && (moved > 0 ==> err == NoError)
    {
      err, calls := NoError, [];
      if !writing { return -1, EINVAL, []; }
      var start := if append then |content| else if positioned then at else position;
      RangeCheckExact(start, |data|, max);
      if OutOfRange(start, |data|, max) {
        total := -1;
      } else {
        total, err, calls := StorePieces(start, data, xfer);
      }
      if !positioned {
        if total > 0 {
          position := start + total;
        } else {
          err := EINVAL;
        }
      }
    }

    /** The write loop, in terms of the bytes it stores. */
    method StorePieces(start: nat, data: seq<Byte>, xfer: (nat, nat) -> int)
      returns (total: int, err: Error, ghost calls: seq<Call>)
      requires Bounded(xfer)
      modifies this`content
      ensures var moved := Moved(xfer, start, |data|);
              && moved <= |data| && calls == Calls(xfer, start, |data|)
              && total == (if moved == 0 && data != [] then -1 else moved)
              && |content| == (if moved > 0 && |old(content)| < start + moved then start + moved else |old(content)|)
              && (forall i :: 0 <= i < |content| ==>
                    content[i] == if start <= i < start + moved then data[i - start]
                                  else if i < |old(content)| then old(content)[i] else 0)
              && (moved > 0 ==> err == NoError)
    {
      ghost var was := content;
      total, err, calls := WritePieces(start, data, xfer);
      BytesWritten(was, start, data, Moved(xfer, start, |data|), content);
    }

    /** The write loop. */
    method WritePieces(start: nat, data: seq<Byte>, xfer: (nat, nat) -> int)
      returns (total: int, err: Error, ghost calls: seq<Call>)
      requires Bounded(xfer)
      modifies this`content
      ensures var moved := Moved(xfer, start, |data|);
              && moved <= |data| && calls == Calls(xfer, start, |data|)
              && total == (if moved == 0 && data != [] then -1 else moved)
              && content == (if moved == 0 then old(content) else Patch(old(content), start, data[..moved]))
              && (moved > 0 ==> err == NoError)
    {
      ghost var states := StatesOf(content, start, data);
      StatesGrow(states, content, start, data);
      ghost var done;
      total, err, done, calls := PutPieces(start, data, xfer, states);
      TransferEnds(xfer, start, |data|, done, calls);
    }

    method PutPieces(start: nat, data: seq<Byte>, xfer: (nat, nat) -> int, ghost states: seq<seq<Byte>>)
      returns (total: int, err: Error, ghost done: nat, ghost calls: seq<Call>)
      requires Bounded(xfer) && Growing(states, start, data) && content == states[0]
      modifies this`content
      ensures Transferring(xfer, start, |data|, done, 0, calls) && content == states[done]
      ensures total == (if done == 0 && data != [] then -1 else done) && (done > 0 ==> err == NoError)
    {
      total, err, done, calls := 0, NoError, 0, [];
      var pos: nat, left: nat := start, |data|;
      TransferBegins(xfer, start, |data|);
      while left > 0
        invariant pos == start + done && Transferring(xfer, start, |data|, done, left, calls)
        invariant total == done || (total == -1 && done == 0 && left == 0 && data != [])
        invariant done == 0 && total == 0 ==> left == |data|
        invariant content == states[done]
        invariant err != NoError ==> total == -1
        decreases left
      {
        var put: nat, rest: nat;
        put, rest, calls := PutPiece(start, data, xfer, pos, left, states, done, calls);
        done := done + put;
        if put > 0 {
          total := total + put;
          pos := pos + put;
        }
        left := rest;
        if put < 1 && total < 1 {
          err := ENOSPC;
          total := -1;
        }
      }
    }

    /** The seek call; `whence` is 0, 1 or 2 for set, current and end. */
    method Seek(offset: int, whence: int) returns (pos: int, err: Error)
      requires Valid() && -0x8000_0000_0000_0000 <= offset < 0x8000_0000_0000_0000
      modifies this`position
      ensures Valid()
      ensures var base := if whence == 0 then 0 else if whence == 1 then old(position) else |content|;
              if 0 <= whence <= 2 && offset <= max && 0 <= base + offset <= max
              then pos == position == base + offset && err == NoError
              else pos == -1 && err == EINVAL && position == old(position)
    {
      pos, err := -1, NoError;
      if offset > max { return -1, EINVAL; }
      if whence == 0 {
        if offset >= 0 { pos := AsInt(offset); }
      } else if whence == 1 {
        if position + offset >= 0 { pos := AsInt(position + offset); }
      } else if whence == 2 {
        if |content| + offset >= 0 { pos := AsInt(|content| + offset); }
      }
      if 0 <= pos <= max {
        position := pos;
      } else {
        err := EINVAL;
        pos := -1;
      }
    }
  }
}

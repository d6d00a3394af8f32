/** Notions shared by several parts of the model. */
module Basics {

  datatype Option<T> = None | Some(value: T)

  type Byte = x: int | 0 <= x < 256

  /** What a wider number becomes when it is stored in a C `int`. */
  function AsInt(v: int): int {
    (v + 0x8000_0000) % 0x1_0000_0000 - 0x8000_0000
  }

  function Min(a: int, b: int): int {
    if a < b then a else b
  }

  /** `data` written over `c` from `pos` on. */
  function Patch(c: seq<Byte>, pos: nat, data: seq<Byte>): seq<Byte> {
    if data == [] then c
    else
      var padded := if pos <= |c| then c[..pos] else c + seq(pos - |c|, _ => 0);
      padded + data + (if pos + |data| < |c| then c[pos + |data|..] else [])
  }

  /** The bytes inside the range are the data, old bytes outside it stay, and a gap past the old end reads as
      zeros. Writing nothing changes nothing. */
  lemma PatchedBytes(c: seq<Byte>, pos: nat, data: seq<Byte>)
    ensures |Patch(c, pos, data)| == if data != [] && |c| < pos + |data| then pos + |data| else |c|
    ensures forall i :: 0 <= i < |Patch(c, pos, data)| ==>
              Patch(c, pos, data)[i] ==
                if pos <= i < pos + |data| then data[i - pos] else if i < |c| then c[i] else 0
  {
  }

  ghost predicate Distinct<T>(s: seq<T>) {
    forall i, j :: 0 <= i < j < |s| ==> s[i] != s[j]
  }

  /** The first position of `x`. */
  function IndexOf<T(==)>(s: seq<T>, x: T): (i: nat)
    requires x in s
    ensures i < |s| && s[i] == x
  {
    if s[0] == x then 0 else 1 + IndexOf(s[1..], x)
  }

  lemma {:induction false} IndexUnique<T>(s: seq<T>, i: nat)
    requires Distinct(s) && i < |s|
    ensures IndexOf(s, s[i]) == i
  {
    var j := IndexOf(s, s[i]);
    assert s[j] == s[i];
  }

  /** The sequence with `x` put in at position `p`. */
  function Inserted<T>(s: seq<T>, p: nat, x: T): (r: seq<T>)
    requires p <= |s|
    ensures |r| == |s| + 1 && r[p] == x
    ensures forall i :: 0 <= i < p ==> r[i] == s[i]
    ensures forall i :: p < i < |r| ==> r[i] == s[i - 1]
  {
    s[..p] + [x] + s[p..]
  }

  /** The sequence without the element at position `p`. */
  function Removed<T>(s: seq<T>, p: nat): (r: seq<T>)
    requires p < |s|
    ensures |r| == |s| - 1
    ensures forall i :: 0 <= i < p ==> r[i] == s[i]
    ensures forall i :: p <= i < |r| ==> r[i] == s[i + 1]
  {
    s[..p] + s[p + 1..]
  }

  lemma OneMore<T>(s: seq<T>, n: nat)
    requires n < |s|
    ensures s[..n + 1] == s[..n] + [s[n]]
  {
  }

  lemma SubsetSize<T>(a: set<T>, b: set<T>)
    requires a <= b
    ensures |a| <= |b|
  {
    assert b == a + (b - a);
  }

  ghost function UpTo(n: nat): (r: set<int>)
    ensures |r| == n && forall m :: m in r <==> 0 <= m < n
  {
    if n == 0 then {} else UpTo(n - 1) + {n - 1}
  }
}

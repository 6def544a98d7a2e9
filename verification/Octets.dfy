/** Outcomes that the Go code reports with a second result (`ok`, `err`). */
module Wrappers {
  datatype Option<+T> = None | Some(value: T)

  datatype Result<+T, +E> = Ok(value: T) | Err(error: E)
}

/**
  Bytes, byte strings and the big-endian integers of package encoding/binary.
  Go strings are byte strings, so both are `Bytes` here.
 */
module Octets {
  type byte = x: int | 0 <= x < 256
  type Bytes = seq<byte>

  const TWO32: nat := 0x1_0000_0000

  predicate NulFree(s: Bytes) {
    forall k :: 0 <= k < |s| ==> s[k] != 0
  }

  /** binary.BigEndian.Uint16(s[off:off+2]) */
  function GetU16(s: Bytes, off: nat): (n: nat)
    requires off + 2 <= |s|
    ensures n < 0x1_0000
  {
    var hi: int, lo: int := s[off], s[off + 1];
    256 * hi + lo
  }

  /** binary.BigEndian.PutUint16 of uint16(n): the conversion drops the high bits. */
  function PutU16(n: nat): (b: Bytes)
    ensures |b| == 2 && GetU16(b, 0) == n % 0x1_0000
  {
    [n / 256 % 256, n % 256]
  }

  /** binary.BigEndian.Uint32(s[off:off+4]) */
  function GetU32(s: Bytes, off: nat): (n: nat)
    requires off + 4 <= |s|
    ensures n < TWO32
  {
    0x1_0000 * GetU16(s, off) + GetU16(s, off + 2)
  }

  /** binary.BigEndian.PutUint32 of uint32(n) */
  function PutU32(n: nat): (b: Bytes)
    ensures |b| == 4 && GetU32(b, 0) == n % 0x1_0000_0000
  {
    PutU16(n / 0x1_0000) + PutU16(n)
  }

  /** bytes.IndexByte(s, 0): the first NUL, or -1. */
  function IndexNul(s: Bytes): (i: int)
    ensures -1 <= i < |s|
    ensures i >= 0 ==> s[i] == 0 && NulFree(s[..i])
    ensures i < 0 ==> NulFree(s)
  {
    IndexNulFrom(s, 0)
  }

  function IndexNulFrom(s: Bytes, k: nat): (i: int)
    requires k <= |s|
    ensures i == -1 || k <= i < |s|
    ensures i >= 0 ==> s[i] == 0 && forall m :: k <= m < i ==> s[m] != 0
    ensures i < 0 ==> forall m :: k <= m < |s| ==> s[m] != 0
    decreases |s| - k
  {
    if k == |s| then -1 else if s[k] == 0 then k else IndexNulFrom(s, k + 1)
  }

  /** A NUL-free string followed by a NUL is cut exactly at that NUL. */
  lemma {:induction false} IndexNulAfter(a: Bytes, rest: Bytes)
    requires NulFree(a)
    ensures IndexNul(a + [0] + rest) == |a|
  {
    var s := a + [0] + rest;
    assert s[|a|] == 0;
    assert forall m :: 0 <= m < |a| ==> s[m] == a[m];
  }

  function Flatten(ss: seq<Bytes>): Bytes {
    if ss == [] then [] else ss[0] + Flatten(ss[1..])
  }

  lemma {:induction false} FlattenNone(ss: seq<Bytes>)
    ensures ss == [] ==> Flatten(ss) == []
  {
  }

  lemma {:induction false} ConcatAssoc(a: Bytes, b: Bytes, c: Bytes)
    ensures a + b + c == a + (b + c)
  {
  }

  lemma {:induction false} TakeConcat(a: Bytes, b: Bytes, n: nat)
    requires n <= |b|
    ensures (a + b)[..|a| + n] == a + b[..n]
  {
  }

  /** Strings that agree on a stretch agree on every part of it. */
  lemma {:induction false} SameSlice(a: Bytes, b: Bytes, i: nat, j: nat, k: nat, l: nat)
    requires i <= j <= k <= l <= |a| && l <= |b| && a[i..l] == b[i..l]
    ensures a[j..k] == b[j..k]
  {
    forall m | 0 <= m < k - j
      ensures a[j..k][m] == b[j..k][m]
    {
      assert a[j + m] == a[i..l][j - i + m] == b[i..l][j - i + m] == b[j + m];
    }
  }

  lemma {:induction false} SameU16(a: Bytes, b: Bytes, off: nat)
    requires off + 2 <= |a| && off + 2 <= |b| && a[off..off + 2] == b[off..off + 2]
    ensures GetU16(a, off) == GetU16(b, off)
  {
    SliceU16(a, off, a[off..off + 2]);
    SliceU16(b, off, a[off..off + 2]);
  }

  lemma {:induction false} SliceU16(b: Bytes, off: nat, w: Bytes)
    requires off + 2 <= |b| && |w| == 2 && b[off..off + 2] == w
    ensures GetU16(b, off) == GetU16(w, 0)
  {
    assert w[0] == b[off] && w[1] == b[off + 1];
  }

  lemma {:induction false} SliceU32(b: Bytes, off: nat, w: Bytes)
    requires off + 4 <= |b| && |w| == 4 && b[off..off + 4] == w
    ensures GetU32(b, off) == GetU32(w, 0)
  {
    assert w[0] == b[off] && w[1] == b[off + 1] && w[2] == b[off + 2] && w[3] == b[off + 3];
  }
}

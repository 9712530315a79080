/**
 Machine words and byte strings.

 The fabric computes on `ap_int`/`ap_uint` values, the host on C integers and the
 reference scripts on Python integers.  All of them are `int` here; the places where
 a value is cut to its declared width are written out with `Wrap32`, `U32` or `Clamp`.
 */
module Words {

  datatype Option<+T> = None | Some(value: T)

  type Byte = x: int | 0 <= x < 256

  const MIN_I32 := -0x8000_0000
  const MAX_I32 := 0x7FFF_FFFF
  const MAX_U32 := 0xFFFF_FFFF
  const MAX_U64 := 0xFFFF_FFFF_FFFF_FFFF

  predicate IsI32(x: int) { MIN_I32 <= x <= MAX_I32 }
  predicate IsU32(x: int) { 0 <= x <= MAX_U32 }
  predicate IsU64(x: int) { 0 <= x <= MAX_U64 }

  /** Assignment to a signed 32-bit word: the low 32 bits, read as two's complement. */
  function Wrap32(x: int): (r: int)
    ensures IsI32(r)
    ensures IsI32(x) ==> r == x
  {
    (x + 0x8000_0000) % 0x1_0000_0000 - 0x8000_0000
  }

  /** The low 32 bits of `x`, read as an unsigned word. */
  function U32(x: int): (r: int)
    ensures IsU32(r)
    ensures IsU32(x) ==> r == x
  {
    x % 0x1_0000_0000
  }

  /** Assignment to a signed 16-bit word. */
  function Wrap16(x: int): (r: int)
    ensures -0x8000 <= r <= 0x7FFF
    ensures -0x8000 <= x <= 0x7FFF ==> r == x
  {
    (x + 0x8000) % 0x1_0000 - 0x8000
  }

  /** The low 16 bits of `x`. */
  function U16(x: int): (r: int)
    ensures 0 <= r < 0x1_0000
    ensures 0 <= x < 0x1_0000 ==> r == x
  {
    x % 0x1_0000
  }

  /** The two readings of one 32-bit pattern determine each other. */
  lemma WrapOfU32(x: int)
    ensures Wrap32(U32(x)) == Wrap32(x)
  {
  }

  function Min(a: int, b: int): int { if a <= b then a else b }
  function Max(a: int, b: int): int { if a >= b then a else b }
  function Abs(x: int): nat { if x >= 0 then x else -x }

  function Clamp(x: int, lo: int, hi: int): (r: int)
    requires lo <= hi
    ensures lo <= r <= hi
    ensures lo <= x <= hi ==> r == x
  {
    if x < lo then lo else if x > hi then hi else x
  }

  /** Integer division as C and `ap_int` do it: toward zero. */
  function TruncDiv(a: int, b: int): int
    requires b != 0
  {
    if (a >= 0) == (b > 0) then Abs(a) / Abs(b) else -(Abs(a) / Abs(b))
  }

  // ---------- little-endian words: how a bus beat holds its bytes ----------

  /** The word whose byte 0 is in bits [7:0], byte 1 in bits [15:8], and so on. */
  function LeWord(bs: seq<Byte>): nat {
    if bs == [] then 0 else bs[0] + 256 * LeWord(bs[1..])
  }

  /** The low `k` bytes of a word, lowest first: byte `i` is `(w >> 8*i) & 0xFF`. */
  function LeEncode(w: nat, k: nat): (bs: seq<Byte>)
    ensures |bs| == k
  {
    if k == 0 then [] else [w % 256] + LeEncode(w / 256, k - 1)
  }

  lemma {:induction false} LeEncodeOfLeWord(bs: seq<Byte>)
    ensures LeEncode(LeWord(bs), |bs|) == bs
  {
    if bs == [] {
    } else {
      assert LeWord(bs) % 256 == bs[0] && LeWord(bs) / 256 == LeWord(bs[1..]);
      LeEncodeOfLeWord(bs[1..]);
    }
  }

  // ---------- big-endian fields: how the wire holds an integer ----------

  function Pow256(k: nat): (r: nat)
    ensures r > 0
  {
    if k == 0 then 1 else 256 * Pow256(k - 1)
  }

  function BeEncode(x: nat, k: nat): (bs: seq<Byte>)
    ensures |bs| == k
  {
    if k == 0 then [] else BeEncode(x / 256, k - 1) + [x % 256]
  }

  function BeDecode(bs: seq<Byte>): nat {
    if bs == [] then 0 else 256 * BeDecode(bs[..|bs| - 1]) + bs[|bs| - 1]
  }

  lemma {:induction false} BeRoundTrip(x: nat, k: nat)
    requires x < Pow256(k)
    ensures BeDecode(BeEncode(x, k)) == x
  {
    if k > 0 {
      BeRoundTrip(x / 256, k - 1);
      assert BeEncode(x, k)[..k - 1] == BeEncode(x / 256, k - 1);
    }
  }

  lemma {:induction false} BeEncodeOfDecode(bs: seq<Byte>)
    ensures BeEncode(BeDecode(bs), |bs|) == bs
  {
    if bs == [] {
    } else {
      BeEncodeOfDecode(bs[..|bs| - 1]);
      var x := BeDecode(bs);
      assert x % 256 == bs[|bs| - 1] && x / 256 == BeDecode(bs[..|bs| - 1]);
    }
  }

  lemma Pow256Values()
    ensures Pow256(2) == 0x1_0000
    ensures Pow256(4) == 0x1_0000_0000
    ensures Pow256(8) == 0x1_0000_0000_0000_0000
  {
  }

  /** A register file cleared to one value. */
  function Filled<T>(n: nat, x: T): (s: seq<T>)
    ensures |s| == n
    ensures forall i :: 0 <= i < n ==> s[i] == x
  {
    if n == 0 then [] else Filled(n - 1, x) + [x]
  }

  // ---------- slices ----------

  lemma SliceOfSlice<T>(s: seq<T>, a: nat, b: nat, c: nat, d: nat)
    requires a <= b <= |s| && c <= d <= b - a
    ensures s[a..b][c..d] == s[a + c..a + d]
  {
    var l, r := s[a..b][c..d], s[a + c..a + d];
    assert forall i :: 0 <= i < |l| ==> l[i] == s[a..b][c + i] == s[a + (c + i)] == r[i];
  }

  lemma ConcatAssoc<T>(a: seq<T>, b: seq<T>, c: seq<T>)
    ensures a + (b + c) == a + b + c
  {
  }

  lemma SliceOfPrefix<T>(h: seq<T>, t: seq<T>, i: nat, j: nat)
    requires i <= j <= |h|
    ensures (h + t)[i..j] == h[i..j]
  {
  }

  lemma SliceOfSuffix<T>(h: seq<T>, t: seq<T>, i: nat, j: nat)
    requires i <= j <= |t|
    ensures (h + t)[|h| + i..|h| + j] == t[i..j]
  {
  }

  // ---------- records of equal length ----------

  function Flatten(chunks: seq<seq<Byte>>): seq<Byte> {
    if chunks == [] then [] else chunks[0] + Flatten(chunks[1..])
  }

  lemma {:induction false} FlattenLength(chunks: seq<seq<Byte>>, w: nat)
    requires forall i :: 0 <= i < |chunks| ==> |chunks[i]| == w
    ensures |Flatten(chunks)| == w * |chunks|
  {
    if chunks == [] {
    } else {
      FlattenLength(chunks[1..], w);
    }
  }

  lemma {:induction false} FlattenAt(chunks: seq<seq<Byte>>, w: nat, i: nat)
    requires forall i :: 0 <= i < |chunks| ==> |chunks[i]| == w
    requires i < |chunks|
    ensures w * i + w <= |Flatten(chunks)|
    ensures Flatten(chunks)[w * i..w * i + w] == chunks[i]
  {
    FlattenLength(chunks, w);
    var tail := Flatten(chunks[1..]);
    FlattenLength(chunks[1..], w);
    assert w * |chunks| == w + w * (|chunks| - 1);
    if i == 0 {
      SliceOfPrefix(chunks[0], tail, 0, w);
    } else {
      FlattenAt(chunks[1..], w, i - 1);
      var at := w * (i - 1);
      assert w * i == w + at;
      SliceOfSuffix(chunks[0], tail, at, at + w);
    }
  }

  // ---------- byte reversal ----------

  function Reverse<T>(s: seq<T>): (r: seq<T>)
    ensures |r| == |s|
    ensures forall i :: 0 <= i < |s| ==> r[i] == s[|s| - 1 - i]
  {
    if s == [] then [] else Reverse(s[1..]) + [s[0]]
  }

  lemma {:induction false} LeIsReversedBe(x: nat, k: nat)
    ensures LeEncode(x, k) == Reverse(BeEncode(x, k))
  {
    if k > 0 {
      LeIsReversedBe(x / 256, k - 1);
    }
  }

  lemma {:induction false} LeWordOfLeEncode(x: nat, k: nat)
    requires x < Pow256(k)
    ensures LeWord(LeEncode(x, k)) == x
  {
    if k > 0 {
      LeWordOfLeEncode(x / 256, k - 1);
      assert LeEncode(x, k)[1..] == LeEncode(x / 256, k - 1);
    }
  }
}

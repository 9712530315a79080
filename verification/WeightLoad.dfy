/**
 Loading the MLP's weights: the loader packs bytes into 32-bit big-endian words, the
 inference core's reload path unpacks them into its on-chip arrays.
 */
module WeightLoad {
  import opened Words

  const D := 4
  const H := 32

  datatype AxisWord = AxisWord(data: nat, last: bool)

  // ---------- the loader ----------

  /** Byte `i` of a memory, or 0 past the end. */
  function ByteOrZero(bytes: seq<Byte>, i: nat): Byte {
    if i < |bytes| then bytes[i] else 0
  }

  /** The word that starts at byte `idx`: (b0 << 24) | (b1 << 16) | (b2 << 8) | b3. */
  function WordAt(bytes: seq<Byte>, idx: nat): nat {
    BeDecode([ByteOrZero(bytes, idx), ByteOrZero(bytes, idx + 1),
              ByteOrZero(bytes, idx + 2), ByteOrZero(bytes, idx + 3)])
  }

  function WordCount(bytes: nat): nat { (bytes + 3) / 4 }

  function ByteWords(bytes: seq<Byte>, n: nat): (ws: seq<AxisWord>)
    ensures |ws| == n
  {
    seq(n, k requires 0 <= k < n => AxisWord(WordAt(bytes, 4 * k), false))
  }

  /** `n` of the words of a memory of int32; `marked` puts TLAST on its final word. */
  function IntWords(words: seq<int>, n: nat, marked: bool): (ws: seq<AxisWord>)
    requires n <= |words|
    ensures |ws| == n
  {
    seq(n, i requires 0 <= i < n => AxisWord(U32(words[i]), marked && i == |words| - 1))
  }

  function LoaderStream(w0: seq<Byte>, b0: seq<int>, w1: seq<Byte>, b1: seq<int>): (ws: seq<AxisWord>)
    ensures |ws| == WordCount(|w0|) + |b0| + WordCount(|w1|) + |b1|
  {
    ByteWords(w0, WordCount(|w0|)) + IntWords(b0, |b0|, false)
    + ByteWords(w1, WordCount(|w1|)) + IntWords(b1, |b1|, true)
  }

  /** Streams a byte memory, four bytes to a word, the last word padded with zeros. */
  method StreamBytes(bytes: seq<Byte>, axis: seq<AxisWord>) returns (out: seq<AxisWord>)
    ensures out == axis + ByteWords(bytes, WordCount(|bytes|))
  {
    out := axis;
    var idx: nat := 0;
    ghost var k: nat := 0;
    while idx < |bytes|
      invariant idx == 4 * k && k <= WordCount(|bytes|)
      invariant out == axis + ByteWords(bytes, k)
    {
      var b0 := if idx + 0 < |bytes| then bytes[idx + 0] else 0;
      var b1 := if idx + 1 < |bytes| then bytes[idx + 1] else 0;
      var b2 := if idx + 2 < |bytes| then bytes[idx + 2] else 0;
      var b3 := if idx + 3 < |bytes| then bytes[idx + 3] else 0;
      out := out + [AxisWord(BeDecode([b0, b1, b2, b3]), false)];
      assert ByteWords(bytes, k + 1) == ByteWords(bytes, k) + [AxisWord(WordAt(bytes, 4 * k), false)];
      idx := idx + 4;
      k := k + 1;
    }
  }

  method StreamInts(words: seq<int>, marked: bool, axis: seq<AxisWord>) returns (out: seq<AxisWord>)
    ensures out == axis + IntWords(words, |words|, marked)
  {
    out := axis;
    for i := 0 to |words|
      invariant out == axis + IntWords(words, i, marked)
    {
      var last := marked && i == |words| - 1;
      out := out + [AxisWord(U32(words[i]), last)];
      assert IntWords(words, i + 1, marked) == IntWords(words, i, marked) + [AxisWord(U32(words[i]), last)];
    }
  }

  /** Nothing is streamed unless `start` is set. */
  method WeightLoader(w0: seq<Byte>, b0: seq<int>, w1: seq<Byte>, b1: seq<int>, start: bool)
    returns (axis: seq<AxisWord>)
    ensures axis == if start then LoaderStream(w0, b0, w1, b1) else []
  {
    hide ByteWords, IntWords;
    axis := [];
    if !start { return; }
    axis := StreamBytes(w0, axis);
    assert axis == ByteWords(w0, WordCount(|w0|));
    axis := StreamInts(b0, false, axis);
    axis := StreamBytes(w1, axis);
    axis := StreamInts(b1, true, axis);
  }

  /** The first byte of a word is its most significant. */
  lemma WordIsBigEndian(bytes: seq<Byte>, idx: nat)
    requires idx + 4 <= |bytes|
    ensures WordAt(bytes, idx)
         == 0x100_0000 * (bytes[idx] as int) + 0x1_0000 * (bytes[idx + 1] as int)
            + 0x100 * (bytes[idx + 2] as int) + bytes[idx + 3]
  {
    var a, b, c, d := bytes[idx], bytes[idx + 1], bytes[idx + 2], bytes[idx + 3];
    BeDecodeSnoc([], a);
    BeDecodeSnoc([a], b);
    BeDecodeSnoc([a, b], c);
    BeDecodeSnoc([a, b, c], d);
    assert [] + [a] == [a] && [a] + [b] == [a, b] && [a, b] + [c] == [a, b, c];
    assert [a, b, c] + [d] == [a, b, c, d];
  }

  lemma BeDecodeSnoc(bs: seq<Byte>, b: Byte)
    ensures BeDecode(bs + [b]) == 256 * BeDecode(bs) + b
    ensures BeDecode([]) == 0
  {
    assert (bs + [b])[..|bs|] == bs;
  }

  // ---------- the reload path ----------

  /** Byte `k` of a word, the most significant first. */
  function WordByte(data: nat, k: nat): Byte
    requires k < 4
  {
    BeEncode(data, 4)[k]
  }

  /** Byte `i` of the byte block that starts at word `at` of the stream. */
  function BlockByte(axis: seq<AxisWord>, at: nat, i: nat): Byte
    requires at + i / 4 < |axis|
  {
    WordByte(axis[at + i / 4].data, i % 4)
  }

  function BlockInt(axis: seq<AxisWord>, at: nat): int
    requires at < |axis|
  {
    Wrap32(axis[at].data)
  }

  /** The reload loops stop after 32 words of W0 and 8 words of W1, whatever the registers say. */
  function W0Words(w0Bytes: nat): nat { Min(32, WordCount(w0Bytes)) }
  function W1Words(w1Bytes: nat): nat { Min(8, WordCount(w1Bytes)) }

  function ReloadWords(w0Bytes: nat, b0Words: nat, w1Bytes: nat, b1Words: nat): nat {
    W0Words(w0Bytes) + b0Words + W1Words(w1Bytes) + b1Words
  }

  class WeightCache {
    const w0: array2<Byte>
    const b0: array<int>
    const w1: array<Byte>
    var b1: int
    var wload: seq<AxisWord>    // words not yet read

    ghost const Repr: set<object> := {this, w0, b0, w1}

    ghost predicate Valid()
      reads this
    {
      w0.Length0 == H && w0.Length1 == D && b0.Length == H && w1.Length == H
    }

    constructor (stream: seq<AxisWord>)
      ensures Valid() && fresh(Repr) && wload == stream && b1 == 0
      ensures forall h, d :: 0 <= h < H && 0 <= d < D ==> w0[h, d] == 0
      ensures forall h :: 0 <= h < H ==> b0[h] == 0 && w1[h] == 0
    {
      w0 := new Byte[H, D]((h, d) => 0);
      b0 := new int[H](i => 0);
      w1 := new Byte[H](i => 0);
      b1 := 0;
      wload := stream;
    }

    /** Reads block, so the words must arrive; the bias count must fit the bias array. */
    method Reload(w0Bytes: nat, b0Words: nat, w1Bytes: nat, b1Words: nat)
      requires Valid() && b0Words <= H
      requires ReloadWords(w0Bytes, b0Words, w1Bytes, b1Words) <= |wload|
      modifies Repr
      ensures wload == old(wload)[ReloadWords(w0Bytes, b0Words, w1Bytes, b1Words)..]
      ensures forall h, d :: 0 <= h < H && 0 <= d < D ==>
                w0[h, d] == if h * D + d < w0Bytes then BlockByte(old(wload), 0, h * D + d) else old(w0[h, d])
      ensures forall i :: 0 <= i < H ==>
                b0[i] == if i < b0Words then BlockInt(old(wload), W0Words(w0Bytes) + i) else old(b0[i])
      ensures forall i :: 0 <= i < H ==>
                w1[i] == if i < w1Bytes then BlockByte(old(wload), W0Words(w0Bytes) + b0Words, i) else old(w1[i])
      ensures b1 == if b1Words > 0 then BlockInt(old(wload), W0Words(w0Bytes) + b0Words + W1Words(w1Bytes)) else old(b1)
    {
      ReloadW0(w0Bytes);
      ReloadB0(b0Words);
      ReloadW1(w1Bytes);
      ReloadB1(b1Words);
    }

    method ReloadW0(w0Bytes: nat)
      requires Valid() && W0Words(w0Bytes) <= |wload|
      modifies this`wload, w0
      ensures wload == old(wload)[W0Words(w0Bytes)..]
      ensures forall h, d :: 0 <= h < H && 0 <= d < D ==>
                w0[h, d] == if h * D + d < w0Bytes then BlockByte(old(wload), 0, h * D + d) else old(w0[h, d])
    {
      ghost var axis := wload;
      var w := 0;
      while w < 32
        invariant w <= W0Words(w0Bytes)
        invariant wload == axis[w..]
        invariant forall h, d :: 0 <= h < H && 0 <= d < D ==>
                    w0[h, d] == if h < w && h * D + d < w0Bytes then BlockByte(axis, 0, h * D + d) else old(w0[h, d])
      {
        if w * 4 >= w0Bytes { break; }
        var data := wload[0].data;
        wload := wload[1..];
        StoreRow(w, data, w0Bytes);
        w := w + 1;
      }
    }

    /** The inner loop: one word holds the weights of one hidden unit. */
    method StoreRow(w: nat, data: nat, w0Bytes: nat)
      requires Valid() && w < H
      modifies w0
      ensures forall h, d :: 0 <= h < H && 0 <= d < D ==>
                w0[h, d] == if h == w && h * D + d < w0Bytes then WordByte(data, d) else old(w0[h, d])
    {
      hide WordByte;
      for k := 0 to 4
        invariant forall h, d :: 0 <= h < H && 0 <= d < D ==>
                    w0[h, d] == if h == w && d < k && h * D + d < w0Bytes then WordByte(data, d) else old(w0[h, d])
      {
        var idx := w * 4 + k;
        if idx < w0Bytes {
          var hidx, didx := idx / D, idx % D;
          if hidx < H {
            assert hidx == w && didx == k;
            w0[hidx, didx] := WordByte(data, k);
          }
        }
      }
    }

    method ReloadB0(b0Words: nat)
      requires Valid() && b0Words <= H && b0Words <= |wload|
      modifies this`wload, b0
      ensures wload == old(wload)[b0Words..]
      ensures forall i :: 0 <= i < H ==> b0[i] == if i < b0Words then BlockInt(old(wload), i) else old(b0[i])
    {
      ghost var axis := wload;
      for i := 0 to b0Words
        invariant wload == axis[i..]
        invariant forall j :: 0 <= j < H ==> b0[j] == if j < i then BlockInt(axis, j) else old(b0[j])
      {
        b0[i] := Wrap32(wload[0].data);
        wload := wload[1..];
      }
    }

    method ReloadW1(w1Bytes: nat)
      requires Valid() && W1Words(w1Bytes) <= |wload|
      modifies this`wload, w1
      ensures wload == old(wload)[W1Words(w1Bytes)..]
      ensures forall i :: 0 <= i < H ==> w1[i] == if i < w1Bytes then BlockByte(old(wload), 0, i) else old(w1[i])
    {
      ghost var axis := wload;
      var w := 0;
      while w < 8
        invariant w <= W1Words(w1Bytes)
        invariant wload == axis[w..]
        invariant forall i :: 0 <= i < H ==>
                    w1[i] == if i < 4 * w && i < w1Bytes then BlockByte(axis, 0, i) else old(w1[i])
      {
        if w * 4 >= w1Bytes { break; }
        var data := wload[0].data;
        wload := wload[1..];
        for k := 0 to 4
          invariant wload == axis[w + 1..]
          invariant forall i :: 0 <= i < H ==>
                      w1[i] == if i < 4 * w + k && i < w1Bytes then BlockByte(axis, 0, i) else old(w1[i])
        {
          var idx := w * 4 + k;
          if idx < w1Bytes && idx < H {
            assert idx / 4 == w && idx % 4 == k;
            w1[idx] := WordByte(data, k);
          }
        }
        w := w + 1;
      }
    }

    /** Only the first of the B1 words is kept. */
    method ReloadB1(b1Words: nat)
      requires Valid() && b1Words <= |wload|
      modifies this`wload, this`b1
      ensures wload == old(wload)[b1Words..]
      ensures b1 == if b1Words > 0 then BlockInt(old(wload), 0) else old(b1)
    {
      ghost var axis := wload;
      for i := 0 to b1Words
        invariant wload == axis[i..]
        invariant b1 == if i > 0 then BlockInt(axis, 0) else old(b1)
      {
        if i == 0 { b1 := Wrap32(wload[0].data); }
        wload := wload[1..];
      }
    }
  }

  // ---------- loader and reload agree ----------

  lemma PackedByte(bytes: seq<Byte>, idx: nat, k: nat)
    requires k < 4
    ensures WordByte(WordAt(bytes, idx), k) == ByteOrZero(bytes, idx + k)
  {
    var bs := [ByteOrZero(bytes, idx), ByteOrZero(bytes, idx + 1),
               ByteOrZero(bytes, idx + 2), ByteOrZero(bytes, idx + 3)];
    BeEncodeOfDecode(bs);
    assert bs[k] == ByteOrZero(bytes, idx + k);
  }

  /** Word `k` of each block of the loader's stream. */
  lemma StreamBlocks(w0: seq<Byte>, b0: seq<int>, w1: seq<Byte>, b1: seq<int>, rest: seq<AxisWord>)
    ensures var axis := LoaderStream(w0, b0, w1, b1) + rest;
            var n0 := WordCount(|w0|);
            var n1 := n0 + |b0|;
            var n2 := n1 + WordCount(|w1|);
            && (forall k :: 0 <= k < n0 ==> axis[k] == AxisWord(WordAt(w0, 4 * k), false))
            && (forall i :: 0 <= i < |b0| ==> axis[n0 + i] == AxisWord(U32(b0[i]), false))
            && (forall k :: 0 <= k < WordCount(|w1|) ==> axis[n1 + k] == AxisWord(WordAt(w1, 4 * k), false))
            && (forall i :: 0 <= i < |b1| ==> axis[n2 + i] == AxisWord(U32(b1[i]), i == |b1| - 1))
            && axis[n2 + |b1|..] == rest
  {
  }

  lemma BlockBytesBack(axis: seq<AxisWord>, at: nat, bytes: seq<Byte>)
    requires at + WordCount(|bytes|) <= |axis|
    requires forall k :: 0 <= k < WordCount(|bytes|) ==> axis[at + k].data == WordAt(bytes, 4 * k)
    ensures forall i :: 0 <= i < |bytes| ==> BlockByte(axis, at, i) == bytes[i]
  {
    forall i | 0 <= i < |bytes|
      ensures BlockByte(axis, at, i) == bytes[i]
    {
      var k := i / 4;
      assert axis[at + k].data == WordAt(bytes, 4 * k);
      PackedByte(bytes, 4 * k, i % 4);
    }
  }

  lemma BlockIntsBack(axis: seq<AxisWord>, at: nat, words: seq<int>)
    requires at + |words| <= |axis|
    requires forall i :: 0 <= i < |words| ==> IsI32(words[i]) && axis[at + i].data == U32(words[i])
    ensures forall i :: 0 <= i < |words| ==> BlockInt(axis, at + i) == words[i]
  {
  }

  /**
   Within the on-chip sizes the reload consumes exactly the words the loader wrote,
   padding included, and finds every source byte and word again in its slot.
   */
  lemma LoadRoundTrip(w0: seq<Byte>, b0: seq<int>, w1: seq<Byte>, b1: seq<int>, rest: seq<AxisWord>)
    requires |w0| <= H * D && |w1| <= H
    requires forall i :: 0 <= i < |b0| ==> IsI32(b0[i])
    requires forall i :: 0 <= i < |b1| ==> IsI32(b1[i])
    ensures var axis := LoaderStream(w0, b0, w1, b1) + rest;
            var n := ReloadWords(|w0|, |b0|, |w1|, |b1|);
            && n <= |axis| && axis[n..] == rest
            && (forall i :: 0 <= i < |w0| ==> BlockByte(axis, 0, i) == w0[i])
            && (forall i :: 0 <= i < |b0| ==> BlockInt(axis, W0Words(|w0|) + i) == b0[i])
            && (forall i :: 0 <= i < |w1| ==> BlockByte(axis, W0Words(|w0|) + |b0|, i) == w1[i])
            && (|b1| > 0 ==> BlockInt(axis, W0Words(|w0|) + |b0| + W1Words(|w1|)) == b1[0])
  {
    hide LoaderStream, WordAt, U32, Wrap32;
    var axis := LoaderStream(w0, b0, w1, b1) + rest;
    StreamBlocks(w0, b0, w1, b1, rest);
    BlockBytesBack(axis, 0, w0);
    BlockBytesBack(axis, WordCount(|w0|) + |b0|, w1);
    BlockIntsBack(axis, WordCount(|w0|), b0);
    if |b1| > 0 {
      BlockIntsBack(axis, WordCount(|w0|) + |b0| + WordCount(|w1|), b1[..1]);
    }
  }

  /**
   Loader and reload together: within the on-chip sizes every source byte and word is in
   its place in the cache, places beyond the source keep their power-on zero, and the
   stream stands at whatever follows.
   */
  method LoadThenReload(w0: seq<Byte>, b0: seq<int>, w1: seq<Byte>, b1: seq<int>, rest: seq<AxisWord>)
    returns (c: WeightCache)
    requires |w0| <= H * D && |b0| <= H && |w1| <= H
    requires forall i :: 0 <= i < |b0| ==> IsI32(b0[i])
    requires forall i :: 0 <= i < |b1| ==> IsI32(b1[i])
    ensures c.Valid() && fresh(c.Repr) && c.wload == rest
    ensures forall h, d :: 0 <= h < H && 0 <= d < D ==> c.w0[h, d] == ByteOrZero(w0, h * D + d)
    ensures forall i :: 0 <= i < H ==> c.b0[i] == if i < |b0| then b0[i] else 0
    ensures forall i :: 0 <= i < H ==> c.w1[i] == ByteOrZero(w1, i)
    ensures c.b1 == if b1 != [] then b1[0] else 0
  {
    hide LoaderStream, BlockByte, BlockInt;
    var axis := WeightLoader(w0, b0, w1, b1, true);
    LoadRoundTrip(w0, b0, w1, b1, rest);
    c := new WeightCache(axis + rest);
    c.Reload(|w0|, |b0|, |w1|, |b1|);
  }

  /** Larger memories leave words behind for the next reload to misread. */
  lemma ReloadInFrameIff(w0: seq<Byte>, b0: seq<int>, w1: seq<Byte>, b1: seq<int>)
    ensures ReloadWords(|w0|, |b0|, |w1|, |b1|) == |LoaderStream(w0, b0, w1, b1)|
       <==> |w0| <= H * D && |w1| <= H
  {
  }

  /** TLAST marks the last B1 word and nothing else; without B1 words it never appears. */
  lemma LastMarksTheEnd(w0: seq<Byte>, b0: seq<int>, w1: seq<Byte>, b1: seq<int>, i: nat)
    requires i < |LoaderStream(w0, b0, w1, b1)|
    ensures LoaderStream(w0, b0, w1, b1)[i].last <==> b1 != [] && i == |LoaderStream(w0, b0, w1, b1)| - 1
  {
  }
}

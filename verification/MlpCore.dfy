/**
 The integer part of the MLP core: how it decodes the feature word, and its two
 multiply-accumulate loops against the signed int8 reference.
 */
module MlpCore {
  import opened Words
  import opened Wire
  import opened Fabric
  import opened WeightLoad

  // ---------- decoding the feature word ----------

  /** The four fields of a feature record, each taken high byte first. */
  function BigEndianFields(bs: seq<Byte>): Features
    requires |bs| == 16
  {
    Features(Wrap32(BeDecode(bs[0..4])), Wrap16(BeDecode(bs[4..6])), BeDecode(bs[8..12]), BeDecode(bs[12..16]))
  }

  /** The core reads the bytes of the word lowest first. */
  function MlpDecode(word: nat): Features {
    BigEndianFields(LeEncode(word, 16))
  }

  /** The `k`-byte field with its bytes reversed. */
  function ByteSwap(x: nat, k: nat): nat {
    BeDecode(LeEncode(x, k))
  }

  lemma FeatureFields(a: seq<Byte>, b: seq<Byte>, c: seq<Byte>, d: seq<Byte>, e: seq<Byte>)
    requires |a| == |d| == |e| == 4 && |b| == |c| == 2
    ensures var bs := a + b + c + d + e;
            bs[0..4] == a && bs[4..6] == b && bs[8..12] == d && bs[12..16] == e
  {
  }

  /**
   The pipeline packs each field low byte first, so what the core works on is every
   field byte-swapped.
   */
  lemma MlpSeesSwappedFields(f: Features)
    ensures MlpDecode(Emit(f).word)
         == Features(Wrap32(ByteSwap(U32(f.ofi), 4)), Wrap16(ByteSwap(U16(f.imbalance), 2)),
                     ByteSwap(U32(f.burst), 4), ByteSwap(U32(f.vol), 4))
  {
    LeEncodeOfLeWord(FeatureBytes(f));
    FeatureFields(LeEncode(U32(f.ofi), 4), LeEncode(U16(f.imbalance), 2), LeEncode(0, 2),
                  LeEncode(U32(f.burst), 4), LeEncode(U32(f.vol), 4));
  }

  /** A byte swap leaves a value alone exactly when its bytes read the same both ways. */
  lemma ByteSwapIdentityIff(x: nat, k: nat)
    requires x < Pow256(k)
    ensures ByteSwap(x, k) == x <==> LeEncode(x, k) == Reverse(LeEncode(x, k))
  {
    var le, be := LeEncode(x, k), BeEncode(x, k);
    LeIsReversedBe(x, k);
    BeRoundTrip(x, k);
    ReverseTwice(be);
    if BeDecode(le) == x {
      BeEncodeOfDecode(le);
    }
  }

  lemma ReverseTwice<T>(s: seq<T>)
    ensures Reverse(Reverse(s)) == s
  {
  }

  /** So an OFI of one share reaches the network as 2^24. */
  lemma OneShareIsSwapped()
    ensures ByteSwap(1, 4) == 0x100_0000
  {
    assert LeEncode(1, 4) == [1, 0, 0, 0];
    assert [1, 0, 0, 0][..3] == [1, 0, 0] && [1, 0, 0][..2] == [1, 0] && [1, 0][..1] == [1];
    assert BeDecode([1]) == 1 by { assert [1][..0] == []; }
    assert BeDecode([1, 0]) == 256;
    assert BeDecode([1, 0, 0]) == 0x1_0000;
  }

  /** The host side of the same word: reading each field low byte first gives the features back. */
  function Unpack(word: nat): Features {
    var bs := LeEncode(word, 16);
    Features(Wrap32(LeWord(bs[0..4])), Wrap16(LeWord(bs[4..6])), LeWord(bs[8..12]), LeWord(bs[12..16]))
  }

  predicate FeaturesFit(f: Features) {
    IsI32(f.ofi) && -0x8000 <= f.imbalance <= 0x7FFF && IsU32(f.burst) && IsU32(f.vol)
  }

  lemma UnpackOfEmit(f: Features)
    requires FeaturesFit(f)
    ensures Unpack(Emit(f).word) == f
  {
    LeEncodeOfLeWord(FeatureBytes(f));
    FeatureFields(LeEncode(U32(f.ofi), 4), LeEncode(U16(f.imbalance), 2), LeEncode(0, 2),
                  LeEncode(U32(f.burst), 4), LeEncode(U32(f.vol), 4));
    Pow256Values();
    LeWordOfLeEncode(U32(f.ofi), 4);
    LeWordOfLeEncode(U16(f.imbalance), 2);
    LeWordOfLeEncode(U32(f.burst), 4);
    LeWordOfLeEncode(U32(f.vol), 4);
    WrapOfU32(f.ofi);
    WrapOfU16(f.imbalance);
  }

  lemma WrapOfU16(x: int)
    ensures Wrap16(U16(x)) == Wrap16(x)
  {
  }

  // ---------- accumulation ----------

  type Int8 = x: int | -128 <= x <= 127

  const MAX_BYTE_PRODUCT := 128 * 255

  function ClampToI8(v: int): Int8 {
    if v > 127 then 127 else if v < -128 then -128 else v
  }

  /** Clamping gives the int8 nearest to the value. */
  lemma ClampIsNearest(v: int, u: Int8)
    ensures Abs(ClampToI8(v) - v) <= Abs(u - v)
    ensures Abs(ClampToI8(v) - v) == Abs(u - v) ==> ClampToI8(v) == u
  {
  }

  /** The weight byte as the core multiplies it: `ap_uint<8>`, never negative. */
  function Dot(xs: seq<Int8>, ws: seq<Byte>): int
    requires |xs| == |ws|
  {
    if xs == [] then 0 else Dot(xs[..|xs| - 1], ws[..|ws| - 1]) + xs[|xs| - 1] * ws[|ws| - 1]
  }

  /** The same byte as the quantizer meant it: a signed int8. */
  function Signed8(w: Byte): Int8 { if w >= 128 then w - 256 else w }

  function SignedDot(xs: seq<Int8>, ws: seq<Byte>): int
    requires |xs| == |ws|
  {
    if xs == [] then 0 else SignedDot(xs[..|xs| - 1], ws[..|ws| - 1]) + xs[|xs| - 1] * Signed8(ws[|ws| - 1])
  }

  /** The activations whose weight byte has its top bit set. */
  function HighSum(xs: seq<Int8>, ws: seq<Byte>): int
    requires |xs| == |ws|
  {
    if xs == [] then 0
    else HighSum(xs[..|xs| - 1], ws[..|ws| - 1]) + if ws[|ws| - 1] >= 128 then xs[|xs| - 1] else 0
  }

  /** The weights of hidden unit `h`, as the cache holds them. */
  ghost function WeightRow(c: WeightCache, h: nat): (ws: seq<Byte>)
    requires c.Valid() && h < H
    reads c, c.w0
    ensures |ws| == D
  {
    [c.w0[h, 0], c.w0[h, 1], c.w0[h, 2], c.w0[h, 3]]
  }

  /** Layer 0, one hidden unit: a 32-bit accumulator that starts at the bias. */
  method HiddenAccumulator(c: WeightCache, h: nat, xi: seq<Int8>) returns (acc: int)
    requires c.Valid() && h < H && |xi| == D
    ensures acc == Wrap32(c.b0[h] + Dot(xi, WeightRow(c, h)))
  {
    acc := Wrap32(c.b0[h]);
    ghost var ws := WeightRow(c, h);
    for d := 0 to D
      invariant acc == Wrap32(c.b0[h] + Dot(xi[..d], ws[..d]))
    {
      assert xi[..d + 1][..d] == xi[..d] && ws[..d + 1][..d] == ws[..d];
      WrapAdd(c.b0[h] + Dot(xi[..d], ws[..d]), xi[d] * ws[d]);
      assert c.w0[h, d] == ws[d];
      acc := Wrap32(acc + xi[d] * c.w0[h, d]);
    }
    assert xi[..D] == xi && ws[..D] == ws;
  }

  /** Layer 1. */
  method OutputAccumulator(c: WeightCache, y0: seq<Int8>) returns (acc: int)
    requires c.Valid() && |y0| == H
    ensures acc == Wrap32(c.b1 + Dot(y0, c.w1[..]))
  {
    acc := Wrap32(c.b1);
    ghost var ws := c.w1[..];
    for h := 0 to H
      invariant acc == Wrap32(c.b1 + Dot(y0[..h], ws[..h]))
    {
      assert y0[..h + 1][..h] == y0[..h] && ws[..h + 1][..h] == ws[..h];
      WrapAdd(c.b1 + Dot(y0[..h], ws[..h]), y0[h] * ws[h]);
      acc := Wrap32(acc + y0[h] * c.w1[h]);
    }
    assert y0[..H] == y0 && ws[..H] == ws;
  }

  /** Wrapping early or late is the same. */
  lemma WrapAdd(a: int, b: int)
    ensures Wrap32(Wrap32(a) + b) == Wrap32(a + b)
  {
  }

  /** Reading a high weight byte as unsigned adds 256 times its activation. */
  lemma {:induction false} DotIsSignedPlusHigh(xs: seq<Int8>, ws: seq<Byte>)
    requires |xs| == |ws|
    ensures Dot(xs, ws) == SignedDot(xs, ws) + 256 * HighSum(xs, ws)
  {
    if xs == [] {
    } else {
      var n := |xs| - 1;
      DotIsSignedPlusHigh(xs[..n], ws[..n]);
      var x, w := xs[n], ws[n];
      assert x * w == x * Signed8(w) + (if w >= 128 then 256 * x else 0);
    }
  }

  lemma {:induction false} DotBound(xs: seq<Int8>, ws: seq<Byte>)
    requires |xs| == |ws|
    ensures -(|xs| * MAX_BYTE_PRODUCT) <= Dot(xs, ws) <= |xs| * MAX_BYTE_PRODUCT
    ensures (forall i :: 0 <= i < |xs| ==> xs[i] >= 0) ==> 0 <= Dot(xs, ws) <= |xs| * (127 * 255)
  {
    if xs == [] {
    } else {
      var n := |xs| - 1;
      DotBound(xs[..n], ws[..n]);
      ProductRange(xs[n], ws[n]);
    }
  }

  lemma ProductRange(x: Int8, w: Byte)
    ensures -MAX_BYTE_PRODUCT <= x * w <= MAX_BYTE_PRODUCT
    ensures x >= 0 ==> 0 <= x * w <= 127 * 255
  {
  }

  /** Given bias headroom no partial sum wraps: the accumulator is the exact sum at every step. */
  lemma AccumulatorNeverWraps(bias: int, xs: seq<Int8>, ws: seq<Byte>, n: nat)
    requires |xs| == |ws| && n <= |xs|
    requires MIN_I32 + |xs| * MAX_BYTE_PRODUCT <= bias <= MAX_I32 - |xs| * MAX_BYTE_PRODUCT
    ensures IsI32(bias + Dot(xs[..n], ws[..n]))
    ensures Wrap32(bias + Dot(xs[..n], ws[..n])) == bias + Dot(xs[..n], ws[..n])
  {
    DotBound(xs[..n], ws[..n]);
    assert n * MAX_BYTE_PRODUCT <= |xs| * MAX_BYTE_PRODUCT;
  }

  /** Layer 0 (4 inputs) stays within 130560 of its bias, layer 1 (32 inputs) within 1044480. */
  lemma LayerBounds(xs: seq<Int8>, ws: seq<Byte>, n: nat)
    requires |xs| == |ws| && n <= |xs|
    ensures |xs| == 4 ==> -130_560 <= Dot(xs[..n], ws[..n]) <= 130_560
    ensures |xs| == 32 ==> -1_044_480 <= Dot(xs[..n], ws[..n]) <= 1_044_480
  {
    DotBound(xs[..n], ws[..n]);
  }

  /** Layer 0's outputs after ReLU, as the activations of layer 1. */
  function Activations(vs: seq<nat>): (xs: seq<Int8>)
    ensures |xs| == |vs|
  {
    seq(|vs|, i requires 0 <= i < |vs| => ClampToI8(vs[i]))
  }

  /** After ReLU the layer-1 sum only grows, and by at most 1036320. */
  lemma ReluLayerBound(vs: seq<nat>, ws: seq<Byte>, n: nat)
    requires |vs| == |ws| == 32 && n <= 32
    ensures 0 <= Dot(Activations(vs)[..n], ws[..n]) <= 1_036_320
  {
    DotBound(Activations(vs)[..n], ws[..n]);
  }

  /**
   The fabric's accumulator against the signed reference, with the wrap: they differ by
   256 times the activations of high weight bytes, so they are equal iff that vanishes
   modulo 2^32.
   */
  lemma FabricMatchesSignedIff(bias: int, xs: seq<Int8>, ws: seq<Byte>)
    requires |xs| == |ws|
    ensures Wrap32(bias + Dot(xs, ws)) == Wrap32(bias + SignedDot(xs, ws) + 256 * HighSum(xs, ws))
    ensures Wrap32(bias + Dot(xs, ws)) == Wrap32(bias + SignedDot(xs, ws))
       <==> HighSum(xs, ws) % 0x100_0000 == 0
  {
    DotIsSignedPlusHigh(xs, ws);
    WrapEqualIff(bias + SignedDot(xs, ws), 256 * HighSum(xs, ws));
    MultipleOf256(HighSum(xs, ws));
  }

  lemma MultipleOf256(h: int)
    ensures (256 * h) % 0x1_0000_0000 == 0 <==> h % 0x100_0000 == 0
  {
  }

  lemma WrapEqualIff(a: int, d: int)
    ensures Wrap32(a + d) == Wrap32(a) <==> d % 0x1_0000_0000 == 0
  {
  }

  lemma {:induction false} HighSumBound(xs: seq<Int8>, ws: seq<Byte>)
    requires |xs| == |ws|
    ensures -128 * |xs| <= HighSum(xs, ws) <= 127 * |xs|
  {
    if xs == [] {
    } else {
      HighSumBound(xs[..|xs| - 1], ws[..|ws| - 1]);
    }
  }

  /** On layers of this size (4 or 32 inputs) that is: iff the high-weight activations sum to zero. */
  lemma LayerMatchesSignedIff(bias: int, xs: seq<Int8>, ws: seq<Byte>)
    requires |xs| == |ws| <= 32
    ensures Wrap32(bias + Dot(xs, ws)) == Wrap32(bias + SignedDot(xs, ws)) <==> HighSum(xs, ws) == 0
  {
    FabricMatchesSignedIff(bias, xs, ws);
    HighSumBound(xs, ws);
  }
}

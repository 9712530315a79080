/**
 From the feature beat to the validator's byte comparison.  The echo server reads the
 beat's bytes high byte first and writes them back the same way; the validator expects
 the reference's fields high byte first; the fabric wrote them low byte first.
 */
module ReplyBytes {
  import opened Words
  import opened Wire
  import opened Fabric
  import opened MlpCore

  /** The 16 feature bytes of a reply: network order. */
  function WriteReply(f: Features): (bs: seq<Byte>)
    ensures |bs| == 16
  {
    BeEncode(U32(f.ofi), 4) + BeEncode(U16(f.imbalance), 2) + BeEncode(0, 2)
    + BeEncode(U32(f.burst), 4) + BeEncode(U32(f.vol), 4)
  }

  lemma UnsignedOfSigned(x: nat)
    ensures IsU32(x) ==> U32(x) == U32(Wrap32(x)) == x
    ensures x < 0x1_0000 ==> U16(Wrap16(x)) == x
  {
  }

  /** A field read high byte first, signed or not, is written back as the same bytes. */
  lemma FieldBack(bs: seq<Byte>)
    ensures |bs| == 4 ==> BeEncode(U32(BeDecode(bs)), 4) == BeEncode(U32(Wrap32(BeDecode(bs))), 4) == bs
    ensures |bs| == 2 ==> BeEncode(U16(Wrap16(BeDecode(bs))), 2) == bs
  {
    hide BeEncode, BeDecode, U32, U16, Wrap32, Wrap16, Pow256;
    BeDecodeBound(bs);
    Pow256Values();
    BeEncodeOfDecode(bs);
    UnsignedOfSigned(BeDecode(bs));
    RangeIsU32(BeDecode(bs));
  }

  lemma RangeIsU32(x: int)
    ensures 0 <= x < 0x1_0000_0000 ==> IsU32(x)
  {
  }

  lemma ZeroField()
    ensures BeEncode(0, 2) == [0, 0] == LeEncode(0, 2)
  {
  }

  /** Reading and rewriting changes no byte: the reply carries the bytes of the feature beat. */
  lemma RepackIsIdentity(bs: seq<Byte>)
    requires |bs| == 16 && bs[6] == 0 && bs[7] == 0
    ensures WriteReply(BigEndianFields(bs)) == bs
  {
    hide Wrap32, Wrap16, U32, U16, BeEncode, BeDecode;
    FieldBack(bs[0..4]);
    FieldBack(bs[4..6]);
    FieldBack(bs[8..12]);
    FieldBack(bs[12..16]);
    ZeroField();
    assert bs[6..8] == [0, 0];
    assert bs == bs[0..4] + bs[4..6] + bs[6..8] + bs[8..12] + bs[12..16];
  }

  /** What the validator receives for a beat that carries `f`. */
  function Received(f: Features): seq<Byte> {
    WriteReply(BigEndianFields(FeatureBytes(f)))
  }

  lemma ReceivedIsLowFirst(f: Features)
    ensures Received(f) == FeatureBytes(f)
  {
    ZeroField();
    ReservedIsZero(LeEncode(U32(f.ofi), 4), LeEncode(U16(f.imbalance), 2), LeEncode(0, 2),
                   LeEncode(U32(f.burst), 4) + LeEncode(U32(f.vol), 4));
    assert FeatureBytes(f)
        == LeEncode(U32(f.ofi), 4) + LeEncode(U16(f.imbalance), 2) + LeEncode(0, 2)
           + (LeEncode(U32(f.burst), 4) + LeEncode(U32(f.vol), 4));
    RepackIsIdentity(FeatureBytes(f));
  }

  lemma ReservedIsZero(a: seq<Byte>, b: seq<Byte>, c: seq<Byte>, d: seq<Byte>)
    requires |a| == 4 && |b| == 2 && c == [0, 0]
    ensures (a + b + c + d)[6] == 0 && (a + b + c + d)[7] == 0
  {
  }

  /** A field written low byte first reads as another written high byte first iff they are swapped. */
  lemma FieldMatchesIff(x: nat, y: nat, k: nat)
    requires x < Pow256(k) && y < Pow256(k)
    ensures LeEncode(x, k) == BeEncode(y, k) <==> ByteSwap(x, k) == y
  {
    BeRoundTrip(y, k);
    BeEncodeOfDecode(LeEncode(x, k));
  }

  /** Each expected field is the byte swap of the fabric's. */
  predicate Swapped(f: Features, g: Features) {
    && ByteSwap(U32(f.ofi), 4) == U32(g.ofi)
    && ByteSwap(U16(f.imbalance), 2) == U16(g.imbalance)
    && ByteSwap(U32(f.burst), 4) == U32(g.burst)
    && ByteSwap(U32(f.vol), 4) == U32(g.vol)
  }

  lemma RecordsEqualIff(a: seq<Byte>, b: seq<Byte>, c: seq<Byte>, d: seq<Byte>, e: seq<Byte>,
                        a': seq<Byte>, b': seq<Byte>, d': seq<Byte>, e': seq<Byte>)
    requires |a| == |a'| == |d| == |d'| == |e| == |e'| == 4 && |b| == |b'| == |c| == 2
    ensures a + b + c + d + e == a' + b' + c + d' + e' <==> a == a' && b == b' && d == d' && e == e'
  {
    FeatureFields(a, b, c, d, e);
    FeatureFields(a', b', c, d', e');
  }

  /** The validator's test of a reply that carries `f` against expected features `g`. */
  lemma ValidatorAcceptsIff(f: Features, g: Features)
    ensures Received(f) == WriteReply(g) <==> Swapped(f, g)
  {
    hide U32, U16, Received, ByteSwap;
    ReceivedIsLowFirst(f);
    Pow256Values();
    ZeroField();
    FieldMatchesIff(U32(f.ofi), U32(g.ofi), 4);
    FieldMatchesIff(U16(f.imbalance), U16(g.imbalance), 2);
    FieldMatchesIff(U32(f.burst), U32(g.burst), 4);
    FieldMatchesIff(U32(f.vol), U32(g.vol), 4);
    RecordsEqualIff(LeEncode(U32(f.ofi), 4), LeEncode(U16(f.imbalance), 2), LeEncode(0, 2),
                    LeEncode(U32(f.burst), 4), LeEncode(U32(f.vol), 4),
                    BeEncode(U32(g.ofi), 4), BeEncode(U16(g.imbalance), 2),
                    BeEncode(U32(g.burst), 4), BeEncode(U32(g.vol), 4));
  }

  lemma OneTickIsSwapped()
    ensures ByteSwap(0x1_0000, 4) == 0x100
  {
    assert LeEncode(0x1_0000, 4) == [0, 0, 1, 0];
    assert [0, 0, 1, 0][..3] == [0, 0, 1] && [0, 0, 1][..2] == [0, 0] && [0, 0][..1] == [0];
    assert BeDecode([0]) == 0 by { assert [0][..0] == []; }
    assert BeDecode([0, 0]) == 0;
    assert BeDecode([0, 0, 1]) == 1;
  }

  /** The first packet after power-on is refused even when every value is right: its burst is 1.0. */
  lemma FirstPacketNeverAccepted(t: nat, ds: seq<Delta>)
    ensures var f := FeaturesOf(Packetized(Reset(), t, ds));
            f.burst == 0x1_0000 && Received(f) != WriteReply(f)
  {
    hide Received, WriteReply, DrainBook, Imbalance;
    var f := FeaturesOf(Packetized(Reset(), t, ds));
    assert f.burst == Burst(0, 0) == 0x1_0000;
    ValidatorAcceptsIff(f, f);
    OneTickIsSwapped();
  }
}

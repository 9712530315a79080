/**
 The LOB v1 wire format: the host's printer (a byte string) and the fabric's parser
 (a stream of 64-bit beats, the first byte of the packet in bits [7:0]).
 */
module Wire {
  import opened Words

  const BOOK_LEVELS := 16
  const MAX_DELTAS := 128

  /** side: 0 = bid, 1 = ask; action: 0 = set, 1 = add, 2 = update, 3 = remove. */
  datatype Delta = Delta(price: int, qty: int, level: nat, side: Byte, action: Byte)

  /** flags: bit 15 = reset, bits [14:0] = delta count. */
  datatype Packet = Packet(flags: nat, seqNo: nat, tSend: nat, deltas: seq<Delta>)

  /** The feature snapshot: OFI, Q1.15 imbalance, and the two Q16.16 filters. */
  datatype Features = Features(ofi: int, imbalance: int, burst: int, vol: int)

  /** One entry of the fabric's delta FIFO. */
  datatype FifoDelta = FifoDelta(delta: Delta, tSend: nat, last: bool)

  datatype Parsed = Parsed(count: nat, tSend: nat, fifo: seq<FifoDelta>)

  /** The deltas whose every field fits its place on the wire. */
  predicate FitsWire(d: Delta) {
    IsI32(d.price) && IsI32(d.qty) && d.level < 0x1_0000 && d.side < 2 && d.action < 4
  }

  predicate ResetBit(flags: nat) { flags % 0x1_0000 >= 0x8000 }

  function CountBits(flags: nat): nat { flags % 0x8000 }

  // ---------- the host's printer ----------

  function PrintHeader(p: Packet): (bs: seq<Byte>)
    ensures |bs| == 32
  {
    HeaderPrefix() + BeEncode(U16(p.flags), 2) + HeaderMiddle(p.seqNo) + BeEncode(p.tSend, 8) + HeaderSuffix()
  }

  /** Bytes 0..5: 'L','O','B','1', version, msg_type = deltas. */
  function HeaderPrefix(): (bs: seq<Byte>)
    ensures |bs| == 6
  {
    [76, 79, 66, 49, 1, 1]
  }

  /** Bytes 8..13: hdr_len, seq. */
  function HeaderMiddle(seqNo: nat): (bs: seq<Byte>)
    ensures |bs| == 6
  {
    BeEncode(32, 2) + BeEncode(U32(seqNo), 4)
  }

  /** Bytes 22..31: t_ingress_ns, rsv2. */
  function HeaderSuffix(): (bs: seq<Byte>)
    ensures |bs| == 10
  {
    BeEncode(0, 8) + BeEncode(0, 2)
  }

  function PrintDelta(d: Delta): (bs: seq<Byte>)
    ensures |bs| == 16
  {
    BeEncode(U32(d.price), 4) + BeEncode(U32(d.qty), 4) + BeEncode(U16(d.level), 2)
    + [d.side, d.action] + BeEncode(0, 4)
  }

  function PrintDeltas(ds: seq<Delta>): (bs: seq<Byte>)
    ensures |bs| == 16 * |ds|
  {
    var records := seq(|ds|, i requires 0 <= i < |ds| => PrintDelta(ds[i]));
    FlattenLength(records, 16);
    Flatten(records)
  }

  function Print(p: Packet): (bs: seq<Byte>)
    ensures |bs| == 32 + 16 * |p.deltas|
  {
    PrintHeader(p) + PrintDeltas(p.deltas)
  }

  /** The stream interface hands a byte string over in 64-bit beats. */
  function ToBeats(bs: seq<Byte>): (beats: seq<nat>)
    requires |bs| % 8 == 0
    ensures |beats| == |bs| / 8
  {
    seq(|bs| / 8, i requires 0 <= i < |bs| / 8 => LeWord(bs[8 * i..8 * i + 8]))
  }

  function PacketBeats(p: Packet): (beats: seq<nat>)
    ensures |beats| == 4 + 2 * |p.deltas|
  {
    ToBeats(Print(p))
  }

  function StreamBeats(ps: seq<Packet>): seq<nat> {
    if ps == [] then [] else PacketBeats(ps[0]) + StreamBeats(ps[1..])
  }

  // ---------- the fabric's parser ----------

  function BeatBytes(beat: nat): (bs: seq<Byte>)
    ensures |bs| == 8
  {
    LeEncode(beat, 8)
  }

  function DeltaCount(hdr0: nat): nat {
    Min(CountBits(BeDecode(BeatBytes(hdr0)[6..8])), MAX_DELTAS)
  }

  function SendTime(hdr1: nat, hdr2: nat): nat {
    BeDecode(BeatBytes(hdr1)[6..8] + BeatBytes(hdr2)[0..6])
  }

  function DeltaOfBeats(d0: nat, d1: nat): Delta {
    DeltaOfBytes(BeatBytes(d0), BeatBytes(d1))
  }

  function DeltaOfBytes(b0: seq<Byte>, b1: seq<Byte>): (d: Delta)
    requires |b0| == |b1| == 8
  {
    Delta(Wrap32(BeDecode(b0[0..4])), Wrap32(BeDecode(b0[4..8])), BeDecode(b1[0..2]), b1[2] % 2, b1[3] % 4)
  }

  /** Reads block: a packet is parsed only once all of its beats have arrived. */
  predicate HasPacket(beats: seq<nat>) {
    |beats| >= 4 && |beats| >= 4 + 2 * DeltaCount(beats[0])
  }

  function Consumed(beats: seq<nat>): nat
    requires HasPacket(beats)
  {
    4 + 2 * DeltaCount(beats[0])
  }

  function ParsedFifo(beats: seq<nat>, count: nat, tSend: nat, n: nat): (fifo: seq<FifoDelta>)
    requires n <= count && 4 + 2 * n <= |beats|
    ensures |fifo| == n
  {
    seq(n, i requires 0 <= i < n => FifoDelta(DeltaOfBeats(beats[4 + 2 * i], beats[5 + 2 * i]), tSend, i == count - 1))
  }

  function ParsePacket(beats: seq<nat>): (p: Parsed)
    requires HasPacket(beats)
  {
    var count := DeltaCount(beats[0]);
    var t := SendTime(beats[1], beats[2]);
    Parsed(count, t, ParsedFifo(beats, count, t, count))
  }

  // ---------- the printer and the parser agree ----------

  /** Beat `n` holds the bytes from offset `at` = 8n. */
  lemma BytesOfBeat(bs: seq<Byte>, n: nat, at: nat)
    requires |bs| % 8 == 0 && n < |bs| / 8 && at == 8 * n
    ensures at + 8 <= |bs|
    ensures BeatBytes(ToBeats(bs)[n]) == bs[at..at + 8]
  {
    LeEncodeOfLeWord(bs[at..at + 8]);
  }

  lemma PrintedDeltaAt(ds: seq<Delta>, i: nat)
    requires i < |ds|
    ensures PrintDeltas(ds)[16 * i..16 * i + 16] == PrintDelta(ds[i])
  {
    FlattenAt(seq(|ds|, i requires 0 <= i < |ds| => PrintDelta(ds[i])), 16, i);
  }

  /** What survives of a delta on the wire: the low bits of each field. */
  function OnTheWire(d: Delta): (r: Delta)
    ensures FitsWire(r)
  {
    Delta(Wrap32(d.price), Wrap32(d.qty), U16(d.level), d.side % 2, d.action % 4)
  }

  lemma OnTheWireIff(d: Delta)
    ensures OnTheWire(d) == d <==> FitsWire(d)
  {
  }

  lemma BeField16(x: int)
    ensures BeDecode(BeEncode(U16(x), 2)) == U16(x)
  {
    Pow256Values();
    BeRoundTrip(U16(x), 2);
  }

  lemma BeField32(x: int)
    ensures BeDecode(BeEncode(U32(x), 4)) == U32(x)
  {
    Pow256Values();
    BeRoundTrip(U32(x), 4);
  }

  lemma BeField64(x: int)
    requires IsU64(x)
    ensures BeDecode(BeEncode(x, 8)) == x
  {
    Pow256Values();
    BeRoundTrip(x, 8);
  }

  lemma DeltaFieldsOf(a: seq<Byte>, b: seq<Byte>, c: seq<Byte>, x: Byte, y: Byte, z: seq<Byte>)
    requires |a| == |b| == |z| == 4 && |c| == 2
    ensures var bs := a + b + c + [x, y] + z;
            DeltaOfBytes(bs[0..8], bs[8..16])
            == Delta(Wrap32(BeDecode(a)), Wrap32(BeDecode(b)), BeDecode(c), x % 2, y % 4)
  {
    var bs := a + b + c + [x, y] + z;
    assert bs[0..8][0..4] == a && bs[0..8][4..8] == b && bs[8..16][0..2] == c;
  }

  lemma SignedField32(x: int)
    ensures Wrap32(BeDecode(BeEncode(U32(x), 4))) == Wrap32(x)
  {
    BeField32(x);
    WrapOfU32(x);
  }

  /** The two halves of a printed delta parse to the delta's low bits. */
  lemma ParsePrintedDelta(d: Delta)
    ensures DeltaOfBytes(PrintDelta(d)[0..8], PrintDelta(d)[8..16]) == OnTheWire(d)
  {
    DeltaFieldsOf(BeEncode(U32(d.price), 4), BeEncode(U32(d.qty), 4), BeEncode(U16(d.level), 2),
                  d.side, d.action, BeEncode(0, 4));
    SignedField32(d.price);
    SignedField32(d.qty);
    BeField16(d.level);
  }

  lemma FieldsOf(a: seq<Byte>, f: seq<Byte>, b: seq<Byte>, t: seq<Byte>, c: seq<Byte>)
    requires |a| == 6 && |f| == 2 && |b| == 6 && |t| == 8 && |c| == 10
    ensures var h := a + f + b + t + c;
            h[0..8][6..8] == f && h[8..16][6..8] + h[16..24][0..6] == t
  {
    var h := a + f + b + t + c;
    assert h[6..8] == f;
    assert h[14..22] == t;
  }

  lemma HeaderFields(p: Packet)
    ensures PrintHeader(p)[0..8][6..8] == BeEncode(U16(p.flags), 2)
    ensures PrintHeader(p)[8..16][6..8] + PrintHeader(p)[16..24][0..6] == BeEncode(p.tSend, 8)
  {
    FieldsOf(HeaderPrefix(), BeEncode(U16(p.flags), 2), HeaderMiddle(p.seqNo), BeEncode(p.tSend, 8), HeaderSuffix());
  }

  lemma PrefixBeat(h: seq<Byte>, t: seq<Byte>, n: nat)
    requires |h| == 32 && |t| % 16 == 0 && n < 4
    ensures |h + t| % 8 == 0 && n < |h + t| / 8
    ensures BeatBytes(ToBeats(h + t)[n]) == h[8 * n..8 * n + 8]
  {
    BytesOfBeat(h + t, n, 8 * n);
    SliceOfPrefix(h, t, 8 * n, 8 * n + 8);
  }

  lemma HeaderBeat(p: Packet, rest: seq<nat>, n: nat)
    requires n < 4
    ensures BeatBytes((PacketBeats(p) + rest)[n]) == PrintHeader(p)[8 * n..8 * n + 8]
  {
    PrefixBeat(PrintHeader(p), PrintDeltas(p.deltas), n);
  }

  lemma CountOfFlags(flags: nat)
    ensures CountBits(U16(flags)) == CountBits(flags)
  {
  }

  /** The header fields the fabric looks at. */
  lemma ParsePrintedHeader(p: Packet, rest: seq<nat>)
    requires IsU64(p.tSend)
    ensures var beats := PacketBeats(p) + rest;
            && DeltaCount(beats[0]) == Min(CountBits(p.flags), MAX_DELTAS)
            && SendTime(beats[1], beats[2]) == p.tSend
  {
    HeaderBeat(p, rest, 0);
    HeaderBeat(p, rest, 1);
    HeaderBeat(p, rest, 2);
    HeaderFields(p);
    BeField16(p.flags);
    CountOfFlags(p.flags);
    BeField64(p.tSend);
  }

  lemma RecordBeat(h: seq<Byte>, t: seq<Byte>, n: nat, at: nat)
    requires |h| == 32 && |t| % 16 == 0 && at == 8 * n && at + 8 <= |t|
    ensures |h + t| % 8 == 0 && 4 + n < |h + t| / 8
    ensures BeatBytes(ToBeats(h + t)[4 + n]) == t[at..at + 8]
  {
    hide BeatBytes, ToBeats;
    BytesOfBeat(h + t, 4 + n, 32 + at);
    SliceOfSuffix(h, t, at, at + 8);
  }

  lemma RecordBeats(h: seq<Byte>, t: seq<Byte>, i: nat, one: seq<Byte>)
    requires |h| == 32 && |t| % 16 == 0 && 16 * i + 16 <= |t|
    requires t[16 * i..16 * i + 16] == one
    ensures |h + t| % 8 == 0 && 5 + 2 * i < |h + t| / 8
    ensures BeatBytes(ToBeats(h + t)[4 + 2 * i]) == one[0..8]
    ensures BeatBytes(ToBeats(h + t)[5 + 2 * i]) == one[8..16]
  {
    hide BeatBytes, ToBeats;
    var at := 16 * i;
    RecordBeat(h, t, 2 * i, at);
    RecordBeat(h, t, 2 * i + 1, at + 8);
    SliceOfSlice(t, at, at + 16, 0, 8);
    SliceOfSlice(t, at, at + 16, 8, 16);
  }

  lemma PrintedDeltaBeats(p: Packet, i: nat)
    requires i < |p.deltas|
    ensures BeatBytes(PacketBeats(p)[4 + 2 * i]) == PrintDelta(p.deltas[i])[0..8]
    ensures BeatBytes(PacketBeats(p)[5 + 2 * i]) == PrintDelta(p.deltas[i])[8..16]
  {
    PrintedDeltaAt(p.deltas, i);
    RecordBeats(PrintHeader(p), PrintDeltas(p.deltas), i, PrintDelta(p.deltas[i]));
  }

  /** Delta `i` of a printed packet sits in beats 4+2i and 5+2i. */
  lemma ParsePrintedDeltaAt(p: Packet, rest: seq<nat>, i: nat)
    requires i < |p.deltas|
    ensures var beats := PacketBeats(p) + rest;
            DeltaOfBeats(beats[4 + 2 * i], beats[5 + 2 * i]) == OnTheWire(p.deltas[i])
  {
    PrintedDeltaBeats(p, i);
    ParsePrintedDelta(p.deltas[i]);
  }

  /**
   The parser leaves the stream at the start of the next packet exactly when the
   (capped) count it decodes is the number of deltas the host attached.
   */
  lemma InFrameIff(p: Packet, rest: seq<nat>)
    requires IsU64(p.tSend)
    ensures var beats := PacketBeats(p) + rest;
            (HasPacket(beats) && beats[Consumed(beats)..] == rest)
            <==> |p.deltas| == Min(CountBits(p.flags), MAX_DELTAS)
  {
    ParsePrintedHeader(p, rest);
    var beats := PacketBeats(p) + rest;
    if HasPacket(beats) && beats[Consumed(beats)..] == rest {
      assert |beats| - Consumed(beats) == |rest|;
    }
  }

  /** A packet the fabric can take whole. */
  predicate Parsable(p: Packet) {
    && IsU64(p.tSend)
    && |p.deltas| == CountBits(p.flags) <= MAX_DELTAS
    && forall i :: 0 <= i < |p.deltas| ==> FitsWire(p.deltas[i])
  }

  function FifoOf(p: Packet): (fifo: seq<FifoDelta>)
    ensures |fifo| == |p.deltas|
  {
    seq(|p.deltas|, i requires 0 <= i < |p.deltas| => FifoDelta(p.deltas[i], p.tSend, i == |p.deltas| - 1))
  }

  lemma WireRoundTrip(p: Packet, rest: seq<nat>)
    requires Parsable(p)
    ensures var beats := PacketBeats(p) + rest;
            && HasPacket(beats)
            && ParsePacket(beats) == Parsed(|p.deltas|, p.tSend, FifoOf(p))
            && beats[Consumed(beats)..] == rest
  {
    ParsePrintedHeader(p, rest);
    InFrameIff(p, rest);
    var beats := PacketBeats(p) + rest;
    var parsed := ParsePacket(beats);
    forall i | 0 <= i < |p.deltas|
      ensures parsed.fifo[i] == FifoOf(p)[i]
    {
      ParsePrintedDeltaAt(p, rest, i);
      OnTheWireIff(p.deltas[i]);
    }
  }

  /** One delta comes back unchanged exactly when all its fields fit the wire. */
  lemma DeltaRoundTripIff(p: Packet, rest: seq<nat>, i: nat)
    requires i < |p.deltas|
    ensures var beats := PacketBeats(p) + rest;
            DeltaOfBeats(beats[4 + 2 * i], beats[5 + 2 * i]) == p.deltas[i] <==> FitsWire(p.deltas[i])
  {
    ParsePrintedDeltaAt(p, rest, i);
    OnTheWireIff(p.deltas[i]);
  }

  /** Beyond the cap the fabric reads a delta beat as the next packet's header. */
  lemma OversizePacketLosesFrame(p: Packet, rest: seq<nat>)
    requires IsU64(p.tSend) && |p.deltas| == CountBits(p.flags) > MAX_DELTAS
    ensures var beats := PacketBeats(p) + rest;
            && HasPacket(beats)
            && beats[Consumed(beats)..] == PacketBeats(p)[4 + 2 * MAX_DELTAS..] + rest
            && beats[Consumed(beats)..] != rest
  {
    ParsePrintedHeader(p, rest);
    var beats := PacketBeats(p) + rest;
    assert |beats[Consumed(beats)..]| > |rest|;
  }

  // ---------- the layout, byte by byte ----------

  /**
   What stands where in a printed header: 'LOB1', version 1, type 1 (deltas), then high byte
   first the flags, the header length, the sequence number, the send time; the rest is 0.
   */
  lemma HeaderLayout(p: Packet)
    requires IsU64(p.tSend)
    ensures var bs := Print(p);
            && |bs| == 32 + 16 * |p.deltas|
            && bs[0..6] == [76, 79, 66, 49, 1, 1]
            && BeDecode(bs[6..8]) == p.flags % 0x1_0000
            && BeDecode(bs[8..10]) == 32
            && BeDecode(bs[10..14]) == p.seqNo % 0x1_0000_0000
            && BeDecode(bs[14..22]) == p.tSend
            && BeDecode(bs[22..30]) == 0 && BeDecode(bs[30..32]) == 0
  {
    hide BeEncode, BeDecode, PrintDeltas;
    var bs, tail := Print(p), PrintDeltas(p.deltas);
    var a, f := HeaderPrefix(), BeEncode(U16(p.flags), 2);
    var l, q, t := BeEncode(32, 2), BeEncode(U32(p.seqNo), 4), BeEncode(p.tSend, 8);
    var z, r := BeEncode(0, 8), BeEncode(0, 2);
    assert bs == a + f + l + q + t + z + r + tail;
    HeaderSlices(a, f, l, q, t, z, r, tail);
    BeField16(p.flags);
    BeField16(32);
    BeField32(p.seqNo);
    BeField64(p.tSend);
    BeField64(0);
    BeField16(0);
  }

  lemma HeaderSlices(a: seq<Byte>, f: seq<Byte>, l: seq<Byte>, q: seq<Byte>, t: seq<Byte>, z: seq<Byte>, r: seq<Byte>,
                     tail: seq<Byte>)
    requires |a| == 6 && |f| == 2 && |l| == 2 && |q| == 4 && |t| == 8 && |z| == 8 && |r| == 2
    ensures var bs := a + f + l + q + t + z + r + tail;
            && bs[0..6] == a && bs[6..8] == f && bs[8..10] == l && bs[10..14] == q && bs[14..22] == t
            && bs[22..30] == z && bs[30..32] == r
  {
  }

  /** What stands where in delta i, 16 bytes each: price, quantity, level, side, action, and 0. */
  lemma DeltaLayout(p: Packet, i: nat)
    requires i < |p.deltas| && FitsWire(p.deltas[i])
    ensures var bs, d, at := Print(p), p.deltas[i], 32 + 16 * i;
            && at + 16 <= |bs|
            && Wrap32(BeDecode(bs[at..at + 4])) == d.price
            && Wrap32(BeDecode(bs[at + 4..at + 8])) == d.qty
            && BeDecode(bs[at + 8..at + 10]) == d.level
            && bs[at + 10] == d.side && bs[at + 11] == d.action
            && BeDecode(bs[at + 12..at + 16]) == 0
  {
    hide BeEncode, BeDecode, PrintHeader, PrintDeltas, PrintDelta, Wrap32;
    var bs, d, at := Print(p), p.deltas[i], 16 * i;
    var one := PrintDelta(d);
    PrintedDeltaAt(p.deltas, i);
    SliceOfSuffix(PrintHeader(p), PrintDeltas(p.deltas), at, at + 16);
    assert bs[32 + at..32 + at + 16] == one;
    assert forall j, k :: 0 <= j <= k <= 16 ==> bs[32 + at + j..32 + at + k] == one[j..k];
    assert forall k :: 0 <= k < 16 ==> bs[32 + at + k] == one[k];
    DeltaFields(d);
  }

  lemma DeltaFields(d: Delta)
    requires FitsWire(d)
    ensures var one := PrintDelta(d);
            && Wrap32(BeDecode(one[0..4])) == d.price && Wrap32(BeDecode(one[4..8])) == d.qty
            && BeDecode(one[8..10]) == d.level && one[10] == d.side && one[11] == d.action
            && BeDecode(one[12..16]) == 0
  {
    hide BeEncode, BeDecode;
    var a, b, c, z := BeEncode(U32(d.price), 4), BeEncode(U32(d.qty), 4), BeEncode(U16(d.level), 2), BeEncode(0, 4);
    var one := a + b + c + [d.side, d.action] + z;
    assert one[0..4] == a && one[4..8] == b && one[8..10] == c && one[12..16] == z;
    SignedField32(d.price);
    SignedField32(d.qty);
    BeField16(d.level);
    BeField32(0);
  }

  /** The cap in numbers: up to 128 announced deltas are read, and 128 of any more. */
  lemma CapIs128(p: Packet, rest: seq<nat>)
    requires IsU64(p.tSend)
    ensures DeltaCount((PacketBeats(p) + rest)[0]) == if p.flags % 0x8000 <= 128 then p.flags % 0x8000 else 128
  {
    ParsePrintedHeader(p, rest);
  }
}

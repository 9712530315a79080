/**
 The feature pipeline as the hardware holds it: two 16-level register files, the
 cached best levels, the OFI accumulator, the filter registers, and three streams.
 Every method is proved to compute the functions of `Fabric`.
 */
module FeaturePipeline {
  import opened Words
  import opened Wire
  import opened Fabric
  import opened ImbalanceFacts

  class Pipeline {
    const bidPrice: array<int>
    const bidQty: array<int>
    const askPrice: array<int>
    const askQty: array<int>
    var bestBidPx: int
    var bestAskPx: int
    var bestBidQty: int
    var bestAskQty: int
    var ofiAccum: int
    var lastT: nat
    var burst: nat
    var vol: nat
    var midPrev: int
    var inAxis: seq<nat>              // beats not yet read
    var ds: seq<FifoDelta>            // the parsed-delta FIFO
    var featAxis: seq<FeatureBeat>    // beats written

    ghost const Repr: set<object> := {this, bidPrice, bidQty, askPrice, askQty}

    ghost predicate Valid()
      reads this
    {
      && bidPrice.Length == bidQty.Length == askPrice.Length == askQty.Length == BOOK_LEVELS
      && bidPrice != bidQty && bidPrice != askPrice && bidPrice != askQty
      && bidQty != askPrice && bidQty != askQty && askPrice != askQty
    }

    ghost function BookValue(): Book
      reads Repr
      requires Valid()
    {
      Book(Levels(bidPrice[..], bidQty[..]), Levels(askPrice[..], askQty[..]),
           bestBidPx, bestAskPx, bestBidQty, bestAskQty, ofiAccum)
    }

    ghost function FilterValue(): Filters
      reads this
    {
      Filters(lastT, burst, vol, midPrev)
    }

    ghost function Value(): State
      reads Repr
      requires Valid()
    {
      State(BookValue(), FilterValue())
    }

    constructor (input: seq<nat>)
      ensures Valid() && fresh(Repr)
      ensures Value() == Reset()
      ensures inAxis == input && ds == [] && featAxis == []
    {
      bidPrice := new int[BOOK_LEVELS](i => 0);
      bidQty := new int[BOOK_LEVELS](i => 0);
      askPrice := new int[BOOK_LEVELS](i => 0);
      askQty := new int[BOOK_LEVELS](i => 0);
      bestBidPx, bestAskPx, bestBidQty, bestAskQty, ofiAccum := 0, 0, 0, 0, 0;
      lastT, burst, vol, midPrev := 0, 0, 0, 0;
      inAxis, ds, featAxis := input, [], [];
      new;
      assert BookValue() == EmptyBook() by {
        assert bidPrice[..] == EmptyLevels().price && bidQty[..] == EmptyLevels().qty;
        assert askPrice[..] == EmptyLevels().price && askQty[..] == EmptyLevels().qty;
      }
    }

    /** Reads one packet off the stream; blocks (is not called) until it is all there. */
    method ParseOnePacket() returns (count: nat, tSend: nat)
      requires HasPacket(inAxis)
      modifies this`inAxis, this`ds
      ensures var p := ParsePacket(old(inAxis));
              && count == p.count && tSend == p.tSend
              && ds == old(ds) + p.fifo
              && inAxis == old(inAxis)[Consumed(old(inAxis))..]
    {
      ghost var beats := inAxis;
      var hdr0, hdr1, hdr2 := inAxis[0], inAxis[1], inAxis[2];
      inAxis := inAxis[4..];
      count := DeltaCount(hdr0);
      tSend := SendTime(hdr1, hdr2);
      var i := 0;
      while i < count
        invariant i <= count
        invariant inAxis == beats[4 + 2 * i..]
        invariant ds == old(ds) + ParsedFifo(beats, count, tSend, i)
      {
        var d0, d1 := inAxis[0], inAxis[1];
        inAxis := inAxis[2..];
        ds := ds + [FifoDelta(DeltaOfBeats(d0, d1), tSend, i == count - 1)];
        assert d0 == beats[4 + 2 * i] && d1 == beats[5 + 2 * i];
        assert ParsedFifo(beats, count, tSend, i + 1)
            == ParsedFifo(beats, count, tSend, i) + [FifoDelta(DeltaOfBeats(d0, d1), tSend, i == count - 1)];
        i := i + 1;
      }
    }

    /** The switch on the action and the clamp, on one side's registers. */
    method UpdateLevels(price: array<int>, qty: array<int>, d: Delta)
      requires price.Length == qty.Length == BOOK_LEVELS && price != qty
      modifies price, qty
      ensures Levels(price[..], qty[..]) == UpdateSide(Levels(old(price[..]), old(qty[..])), d)
    {
      var lvl := d.level;
      if lvl < BOOK_LEVELS {
        if d.action == 0 {
          price[lvl] := d.price;
          qty[lvl] := d.qty;
        } else if d.action == 1 {
          qty[lvl] := Wrap32(qty[lvl] + d.qty);
        } else if d.action == 2 {
          qty[lvl] := Wrap32(qty[lvl] + d.qty);
        } else if d.action == 3 {
          qty[lvl] := 0;
        }
        if qty[lvl] < 0 {
          qty[lvl] := 0;
        }
      }
    }

    method UpdateRegisters(d: Delta)
      requires Valid()
      modifies bidPrice, bidQty, askPrice, askQty
      modifies this`bestBidPx, this`bestAskPx, this`bestBidQty, this`bestAskQty, this`ofiAccum
      ensures BookValue() == UpdateBook(old(BookValue()), d)
    {
      if d.side == 0 {
        UpdateLevels(bidPrice, bidQty, d);
      } else {
        UpdateLevels(askPrice, askQty, d);
      }
      if d.action == 1 || d.action == 2 {
        var amt := d.qty;
        if d.side == 0 {
          ofiAccum := Wrap32(ofiAccum + amt);
        } else {
          ofiAccum := Wrap32(ofiAccum - amt);
        }
      }
      bestBidPx := bidPrice[0];
      bestAskPx := askPrice[0];
      bestBidQty := bidQty[0];
      bestAskQty := askQty[0];
    }

    static method ImbalanceQ15(bidQty: int, askQty: int) returns (imb: int)
      ensures imb == Imbalance(bidQty, askQty)
      ensures bidQty >= 0 && askQty >= 0 ==>
        if askQty == 0 then imb == (if bidQty == 0 then 0 else 0x7FFF) else IsRatio(imb, bidQty, askQty)
    {
      var num := bidQty - askQty;
      var den := bidQty + askQty;
      imb := 0;
      if den != 0 {
        var q := TruncDiv(num * 0x8000, den);
        if q > 0x7FFF {
          imb := 0x7FFF;
        } else if q < -0x8000 {
          imb := -0x8000;
        } else {
          imb := q;
        }
      }
      if bidQty >= 0 && askQty >= 0 && den > 0 {
        ImbalanceAccuracy(bidQty, askQty);
      }
    }

    static method LeakyBucket(level: nat, dt: nat) returns (v: int)
      ensures v == Burst(level, dt)
      ensures SaturatedCeil(v, 200_000 * (level + 0x1_0000) - level * dt, 200_000)
    {
      BurstMeaning(level, dt);
      var decay := level * dt / TAU_BURST_NS;
      v := level - decay + ONE_Q16;
      if v < 0 { v := 0; }
      if v > MAX_U32 { v := MAX_U32; }
    }

    static method MicroVol(level: nat, move: nat, dt: nat) returns (v: int)
      ensures v == Vol(level, move, dt)
      ensures level <= MAX_U32 ==> IsVolStep(v, level, move, dt)
    {
      if level <= MAX_U32 { VolMeaning(level, move, dt); }
      v := level + TruncDiv((move * ONE_Q16 - level) * dt, TAU_VOL_NS);
      if v < 0 { v := 0; }
      if v > MAX_U32 { v := MAX_U32; }
    }

    method ComputeFeatures(t: nat) returns (f: Features)
      requires Valid()
      modifies this`lastT, this`burst, this`vol, this`midPrev
      ensures FilterValue() == NextFilters(old(BookValue()), old(FilterValue()), t)
      ensures f == FeaturesOf(Value())
    {
      var dt64 := if lastT == 0 then 0 else (t - lastT) % 0x1_0000_0000_0000_0000;
      var dt := if dt64 > MAX_U32 then MAX_U32 else dt64;
      assert dt == Dt(lastT, t);
      lastT := t;

      var imb := ImbalanceQ15(bestBidQty, bestAskQty);

      burst := LeakyBucket(burst, dt);

      var midNow := Mid(bestBidPx, bestAskPx);
      var diff := Wrap32(midNow - midPrev);
      var move := if diff >= 0 then diff else -diff;
      midPrev := midNow;
      vol := MicroVol(vol, move, dt);

      f := Features(ofiAccum, imb, burst, vol);
    }

    /** The inner loop: pops `count` deltas off the FIFO into the book. */
    method DrainFifo(count: nat)
      requires Valid() && |ds| == count
      modifies bidPrice, bidQty, askPrice, askQty
      modifies this`bestBidPx, this`bestAskPx, this`bestBidQty, this`bestAskQty, this`ofiAccum, this`ds
      ensures ds == []
      ensures BookValue() == DrainBook(old(BookValue()), DeltasOf(old(ds)))
    {
      ghost var fifo := ds;
      ghost var all := DeltasOf(fifo);
      var i := 0;
      while i < count
        invariant i <= count
        invariant ds == fifo[i..]
        invariant BookValue() == DrainBook(old(BookValue()), all[..i])
      {
        var d := ds[0];
        ds := ds[1..];
        UpdateRegisters(d.delta);
        assert all[..i + 1][..i] == all[..i] && all[i] == d.delta;
        i := i + 1;
      }
      assert all[..count] == all;
    }

    /** Computes the features and writes them as one beat. */
    method WriteFeatures(t: nat)
      requires Valid()
      modifies this`lastT, this`burst, this`vol, this`midPrev, this`featAxis
      ensures Value() == State(old(BookValue()), NextFilters(old(BookValue()), old(FilterValue()), t))
      ensures featAxis == old(featAxis) + [Emit(FeaturesOf(Value()))]
      ensures |featAxis| == |old(featAxis)| + 1 && featAxis[|old(featAxis)|].last
    {
      var f := ComputeFeatures(t);
      featAxis := featAxis + [Emit(f)];
    }

    /** One turn of the packet loop. */
    method PumpOne()
      requires Valid() && ds == [] && HasPacket(inAxis)
      modifies Repr
      ensures ds == []
      ensures var p := ParsePacket(old(inAxis));
              Value() == Packetized(old(Value()), p.tSend, DeltasOf(p.fifo))
      ensures inAxis == old(inAxis)[Consumed(old(inAxis))..]
      ensures featAxis == old(featAxis) + [Emit(FeaturesOf(Value()))]
      ensures |featAxis| == |old(featAxis)| + 1 && featAxis[|old(featAxis)|].last
    {
      hide ParsedFifo, DeltaCount, SendTime, NextFilters, FeaturesOf, Emit;
      ghost var p := ParsePacket(inAxis);
      var count, t := ParseOnePacket();
      if count == 0 {
        assert DeltasOf(p.fifo) == [];
        WriteFeatures(t);
        return;
      }
      assert ds == p.fifo;
      DrainFifo(count);
      WriteFeatures(t);
    }

    /** The endless loop, up to the read on which it blocks. */
    method Run()
      requires Valid() && ds == []
      modifies Repr
      ensures ds == []
      ensures PumpResult(Value(), inAxis, featAxis) == Pump(old(Value()), old(inAxis), old(featAxis))
      ensures !HasPacket(inAxis)
      ensures old(featAxis) <= featAxis && AllLast(featAxis[|old(featAxis)|..])
    {
      PumpMarksEveryBeat(Value(), inAxis, featAxis);
      while HasPacket(inAxis)
        invariant ds == []
        invariant Pump(Value(), inAxis, featAxis) == Pump(old(Value()), old(inAxis), old(featAxis))
        decreases |inAxis|
      {
        PumpOne();
      }
    }
  }
}

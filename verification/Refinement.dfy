/**
 The fabric refines the packet-level reference: the two books, OFI accumulators,
 imbalances and burst filters stay equal over whole runs, and the conditions under
 which a single step agrees are exact.
 */
module Refinement {
  import opened Words
  import opened Wire
  import opened Fabric
  import opened PacketReference

  // ---------- the relation ----------

  predicate SideMatches(s: Side, l: Ladder) {
    forall i :: 0 <= i < BOOK_LEVELS ==> s.price[i] == l[i].p && s.qty[i] == l[i].q
  }

  predicate BookMatches(b: Book, rb: RefBook) {
    SideMatches(b.bid, rb.bid) && SideMatches(b.ask, rb.ask) && b.ofi == rb.ofi
  }

  /** "No packet yet" is 0 in the fabric's register and None in the reference. */
  predicate TimeMatches(lastT: nat, lastTs: Option<int>) {
    lastTs == if lastT == 0 then None else Some(lastT)
  }

  /** The volatility filters are related separately: they round differently. */
  predicate FiltersMatch(f: Filters, rf: RefFilters) {
    TimeMatches(f.lastT, rf.lastTs) && f.burst == rf.burst && f.midPrev == rf.midPrev
  }

  predicate Matches(s: State, rs: RefState) {
    BookMatches(s.book, rs.book) && FiltersMatch(s.filters, rs.filters)
  }

  // ---------- one delta, exactly ----------

  /** The reference's cell that a delta addresses. */
  function CellOf(rb: RefBook, d: Delta): Cell {
    if d.side == 0 then rb.bid[LevelOf(d)] else rb.ask[LevelOf(d)]
  }

  predicate IsFlow(d: Delta) { d.action == 1 || d.action == 2 }

  /** Neither the level quantity nor the accumulator leaves its 32-bit register. */
  predicate NoOverflow(rb: RefBook, d: Delta) {
    IsFlow(d) ==> CellOf(rb, d).q + d.qty <= MAX_I32 && IsI32(rb.ofi + Signed(d))
  }

  lemma NextQtyMatchesIff(q: int, p: int, d: Delta)
    requires 0 <= q <= MAX_I32 && FitsWire(d)
    ensures NextQty(q, d) == NextCell(Cell(p, q), d).q <==> (IsFlow(d) ==> q + d.qty <= MAX_I32)
  {
  }

  lemma NextOfiMatchesIff(ofi: int, d: Delta)
    requires IsI32(ofi) && FitsWire(d)
    ensures NextOfi(ofi, d) == NextRefOfi(ofi, d) <==> (IsFlow(d) ==> IsI32(ofi + Signed(d)))
  {
  }

  lemma SideStepMatchesIff(s: Side, l: Ladder, d: Delta)
    requires SideSound(s) && SideMatches(s, l) && FitsWire(d) && d.level < BOOK_LEVELS
    ensures SideMatches(UpdateSide(s, d), NextLadder(l, d))
       <==> (IsFlow(d) ==> l[d.level].q + d.qty <= MAX_I32)
  {
  }

  /** Within the book: one delta keeps the two books equal iff nothing overflows. */
  lemma DeltaMatchesIff(b: Book, rb: RefBook, d: Delta)
    requires BookSound(b) && BookMatches(b, rb) && FitsWire(d) && d.level < BOOK_LEVELS
    ensures BookMatches(UpdateBook(b, d), RefDelta(rb, d)) <==> NoOverflow(rb, d)
  {
    NextOfiMatchesIff(b.ofi, d);
    if d.side == 0 {
      SideStepMatchesIff(b.bid, rb.bid, d);
    } else {
      SideStepMatchesIff(b.ask, rb.ask, d);
    }
  }

  /** A delta beyond the book happens to leave level 0, to which the reference charges it, as it is. */
  predicate DeepHarmless(rb: RefBook, d: Delta) {
    && (IsFlow(d) ==> IsI32(rb.ofi + Signed(d)))
    && (d.action == 0 ==> d.price == CellOf(rb, d).p && Max(d.qty, 0) == CellOf(rb, d).q)
    && (IsFlow(d) ==> d.qty == 0 || (CellOf(rb, d).q == 0 && d.qty < 0))
    && (d.action == 3 ==> CellOf(rb, d).q == 0)
  }

  /** Beyond the book the fabric drops the delta, so the two books agree iff the reference changes nothing. */
  lemma DeepDeltaMatchesIff(b: Book, rb: RefBook, d: Delta)
    requires BookSound(b) && BookMatches(b, rb) && FitsWire(d) && d.level >= BOOK_LEVELS
    ensures BookMatches(UpdateBook(b, d), RefDelta(rb, d)) <==> DeepHarmless(rb, d)
  {
    NextOfiMatchesIff(b.ofi, d);
    var c := CellOf(rb, d);
    var side, ladder := if d.side == 0 then b.bid else b.ask, if d.side == 0 then rb.bid else rb.ask;
    DeepSideMatchesIff(side, ladder, d);
    assert 0 <= c.q by { assert side.qty[0] == c.q; }
  }

  /** What keeps the two books equal, at any level. */
  predicate DeltaAgrees(rb: RefBook, d: Delta) {
    if d.level < BOOK_LEVELS then NoOverflow(rb, d) else DeepHarmless(rb, d)
  }

  lemma DeltaAgreesIff(b: Book, rb: RefBook, d: Delta)
    requires BookSound(b) && BookMatches(b, rb) && FitsWire(d)
    ensures BookMatches(UpdateBook(b, d), RefDelta(rb, d)) <==> DeltaAgrees(rb, d)
  {
    hide BookSound, BookMatches, FitsWire, NoOverflow, DeepHarmless;
    if d.level < BOOK_LEVELS {
      DeltaMatchesIff(b, rb, d);
    } else {
      DeepDeltaMatchesIff(b, rb, d);
    }
  }

  lemma DeepSideMatchesIff(s: Side, l: Ladder, d: Delta)
    requires SideMatches(s, l) && d.level >= BOOK_LEVELS
    ensures SideMatches(UpdateSide(s, d), NextLadder(l, d)) <==> NextCell(l[0], d) == l[0]
  {
  }

  /** An ask set at level 16 that the reference sees at the top of its book. */
  lemma DeepDeltaDiverges()
    ensures var d := Delta(100, 5, 16, 1, 0);
            && FitsWire(d)
            && UpdateBook(EmptyBook(), d).ask.qty[0] == 0
            && RefDelta(RefReset().book, d).ask[0].q == 5
  {
  }

  // ---------- the gap between packets, exactly ----------

  /** The two notions of time since the last packet agree iff time moves forward, by less than 2^32 ns. */
  lemma GapMatchesIff(last: nat, t: nat)
    requires IsU64(last) && IsU64(t)
    ensures Dt(last, t) == RefDt(Some(last), t)
       <==> if last == 0 then t == 0 else last <= t && t - last <= MAX_U32
  {
  }

  // ---------- the reset bit ----------

  /** The fabric ignores the reset bit: after one order an empty packet with reset tells them apart. */
  lemma ResetDiverges()
    ensures var p, q := Packet(1, 0, 1, [Delta(0, 5, 0, 0, 1)]), Packet(0x8000, 1, 2, []);
            && Parsable(p) && Parsable(q)
            && FeaturesOf(FabricStep(FabricStep(Reset(), p), q)).ofi == 5
            && RefFeaturesOf(RefStep(RefStep(RefReset(), p), q)).ofi == 0
  {
    var p, q := Packet(1, 0, 1, [Delta(0, 5, 0, 0, 1)]), Packet(0x8000, 1, 2, []);
    assert p.deltas[..0] == [];
    assert DrainBook(EmptyBook(), p.deltas).ofi == 5;
    assert RefStep(RefStep(RefReset(), p), q).book == RefReset().book;
  }

  // ---------- one packet ----------

  /** Every delta agrees where it comes: inside the book it overflows nothing, beyond it it is harmless. */
  ghost predicate DrainsCleanly(rb: RefBook, ds: seq<Delta>) {
    forall i {:trigger ds[i]} :: 0 <= i < |ds| ==> FitsWire(ds[i]) && DeltaAgrees(RefDrain(rb, ds[..i]), ds[i])
  }

  lemma {:induction false} DrainMatches(b: Book, rb: RefBook, ds: seq<Delta>)
    requires BookSound(b) && BookMatches(b, rb) && DrainsCleanly(rb, ds)
    ensures BookMatches(DrainBook(b, ds), RefDrain(rb, ds)) && BookSound(DrainBook(b, ds))
  {
    hide BookSound, BookMatches, DeltaAgrees, FitsWire, UpdateBook, RefDelta;
    FittingDrainSound(b, ds);
    if ds == [] {
    } else {
      var n := |ds| - 1;
      CleanPrefix(rb, ds, n);
      DrainMatches(b, rb, ds[..n]);
      DeltaAgreesIff(DrainBook(b, ds[..n]), RefDrain(rb, ds[..n]), ds[n]);
    }
  }

  /** Whatever the levels: the two books are equal after every delta exactly when the deltas drain cleanly. */
  lemma DrainMatchesIff(b: Book, rb: RefBook, ds: seq<Delta>)
    requires BookSound(b) && BookMatches(b, rb)
    requires forall i :: 0 <= i < |ds| ==> FitsWire(ds[i])
    ensures (forall i :: 0 <= i <= |ds| ==> BookMatches(DrainBook(b, ds[..i]), RefDrain(rb, ds[..i])))
       <==> DrainsCleanly(rb, ds)
  {
    hide BookSound, BookMatches, FitsWire, DeltaAgrees;
    if DrainsCleanly(rb, ds) {
      forall i | 0 <= i <= |ds|
        ensures BookMatches(DrainBook(b, ds[..i]), RefDrain(rb, ds[..i]))
      {
        CleanPrefix(rb, ds, i);
        DrainMatches(b, rb, ds[..i]);
      }
    } else {
      var i :| 0 <= i < |ds| && !DeltaAgrees(RefDrain(rb, ds[..i]), ds[i]);
      var before, after := ds[..i], ds[..i + 1];
      assert after[..i] == before && after[i] == ds[i];
      if BookMatches(DrainBook(b, before), RefDrain(rb, before)) {
        FittingDrainSound(b, before);
        DeltaAgreesIff(DrainBook(b, before), RefDrain(rb, before), ds[i]);
        assert !BookMatches(DrainBook(b, after), RefDrain(rb, after));
      }
    }
  }

  lemma FittingDrainSound(b: Book, ds: seq<Delta>)
    requires BookSound(b) && forall i :: 0 <= i < |ds| ==> FitsWire(ds[i])
    ensures BookSound(DrainBook(b, ds))
  {
    hide BookSound;
    DrainBookSound(b, ds);
  }

  lemma CleanPrefix(rb: RefBook, ds: seq<Delta>, n: nat)
    requires n <= |ds| && DrainsCleanly(rb, ds)
    ensures DrainsCleanly(rb, ds[..n])
  {
    assert ds[..n] + ds[n..] == ds;
    CleanlySplits(rb, ds[..n], ds[n..]);
  }

  lemma {:induction false} RefDrainAppend(b: RefBook, ds: seq<Delta>, es: seq<Delta>)
    ensures RefDrain(b, ds + es) == RefDrain(RefDrain(b, ds), es)
  {
    hide RefDelta;
    if es == [] {
      assert ds + es == ds;
    } else {
      var n := |es| - 1;
      RefDrainAppend(b, ds, es[..n]);
      assert (ds + es)[..|ds + es| - 1] == ds + es[..n];
    }
  }

  /** Where a sequence of deltas is cut does not matter to whether it drains cleanly. */
  lemma CleanlySplits(b: RefBook, ds: seq<Delta>, es: seq<Delta>)
    ensures DrainsCleanly(b, ds + es) <==> DrainsCleanly(b, ds) && DrainsCleanly(RefDrain(b, ds), es)
  {
    hide FitsWire, DeltaAgrees, RefDrain;
    var all := ds + es;
    forall i | 0 <= i < |ds|
      ensures all[..i] == ds[..i] && all[i] == ds[i]
    {
    }
    forall j | 0 <= j < |es|
      ensures all[|ds| + j] == es[j] && RefDrain(b, all[..|ds| + j]) == RefDrain(RefDrain(b, ds), es[..j])
    {
      assert all[..|ds| + j] == ds + es[..j];
      RefDrainAppend(b, ds, es[..j]);
    }
    if DrainsCleanly(b, all) {
      forall i | 0 <= i < |ds|
        ensures FitsWire(ds[i]) && DeltaAgrees(RefDrain(b, ds[..i]), ds[i])
      {
        assert all[i] == ds[i];
      }
      forall j | 0 <= j < |es|
        ensures FitsWire(es[j]) && DeltaAgrees(RefDrain(RefDrain(b, ds), es[..j]), es[j])
      {
        assert all[|ds| + j] == es[j];
      }
    }
    if DrainsCleanly(b, ds) && DrainsCleanly(RefDrain(b, ds), es) {
      forall i | 0 <= i < |all|
        ensures FitsWire(all[i]) && DeltaAgrees(RefDrain(b, all[..i]), all[i])
      {
        if i >= |ds| {
          assert all[|ds| + (i - |ds|)] == es[i - |ds|];
        }
      }
    }
  }

  /** Timestamps are positive and move forward by less than 2^32 ns. */
  predicate TimeAdvances(lastTs: Option<int>, t: nat) {
    0 < t <= MAX_U64 && (lastTs.Some? ==> lastTs.value <= t && t - lastTs.value <= MAX_U32)
  }

  /** A packet on which the fabric must agree with the reference. */
  ghost predicate PacketInScope(rs: RefState, p: Packet) {
    && Parsable(p)
    && (ResetBit(p.flags) ==> rs == RefReset())
    && TimeAdvances(rs.filters.lastTs, p.tSend)
    && DrainsCleanly(rs.book, p.deltas)
  }

  lemma BurstMatches(burst: nat, dt: nat)
    ensures Burst(burst, dt) == RefBurst(burst, dt)
  {
  }

  lemma ImbalanceMatches(bidQty: nat, askQty: nat)
    ensures Imbalance(bidQty, askQty) == RefImbalance(bidQty, askQty)
  {
  }

  /** What one packet contributes, apart from the volatility. */
  predicate SameButVol(f: Features, g: Features) {
    f.ofi == g.ofi && f.imbalance == g.imbalance && f.burst == g.burst
  }

  function RefStep(rs: RefState, p: Packet): RefState {
    RefPacket(rs, p.flags, p.tSend, Some(p.deltas))
  }

  function FabricStep(s: State, p: Packet): (s': State)
    ensures s'.filters.lastT == p.tSend
  {
    Packetized(s, p.tSend, p.deltas)
  }

  lemma RefStepInScope(rs: RefState, p: Packet)
    requires PacketInScope(rs, p)
    ensures RefStep(rs, p) == var b := RefDrain(rs.book, p.deltas); RefState(b, NextRefFilters(b, rs.filters, p.tSend))
  {
    assert p.deltas[..|p.deltas|] == p.deltas;
  }

  lemma PacketMatches(s: State, rs: RefState, p: Packet)
    requires Sound(s) && Matches(s, rs) && PacketInScope(rs, p)
    ensures Sound(FabricStep(s, p)) && Matches(FabricStep(s, p), RefStep(rs, p))
    ensures SameButVol(FeaturesOf(FabricStep(s, p)), RefFeaturesOf(RefStep(rs, p)))
  {
    RefStepInScope(rs, p);
    DrainMatches(s.book, rs.book, p.deltas);
    PacketizedSound(s, p.tSend, p.deltas);
    if s.filters.lastT != 0 {
      GapMatchesIff(s.filters.lastT, p.tSend);
    }
    BurstMatches(s.filters.burst, Dt(s.filters.lastT, p.tSend));
    var b := FabricStep(s, p).book;
    ImbalanceMatches(b.bestBidQty, b.bestAskQty);
  }

  // ---------- whole runs ----------

  /** Every packet of the run is parsable, time advances, and every delta agrees where it comes. */
  ghost predicate ScopeFrom(b: RefBook, lastTs: Option<int>, ps: seq<Packet>)
    decreases |ps|
  {
    ps != [] ==>
      && Parsable(ps[0]) && TimeAdvances(lastTs, ps[0].tSend) && DrainsCleanly(b, ps[0].deltas)
      && ScopeFrom(RefDrain(b, ps[0].deltas), Some(ps[0].tSend), ps[1..])
  }

  /** Only the first packet may carry a reset, and only where there is nothing to reset. */
  ghost predicate ResetsHarmlessly(rs: RefState, ps: seq<Packet>) {
    forall k :: 0 <= k < |ps| && ResetBit(ps[k].flags) ==> k == 0 && rs == RefReset()
  }

  ghost predicate RunInScope(rs: RefState, ps: seq<Packet>) {
    ResetsHarmlessly(rs, ps) && ScopeFrom(rs.book, rs.filters.lastTs, ps)
  }

  lemma ScopeStep(rs: RefState, ps: seq<Packet>)
    requires ps != [] && RunInScope(rs, ps)
    ensures PacketInScope(rs, ps[0]) && RunInScope(RefStep(rs, ps[0]), ps[1..])
  {
    hide Parsable, TimeAdvances, DrainsCleanly, ResetBit, RefDrain, RefStep, RefReset;
    assert ResetBit(ps[0].flags) ==> rs == RefReset();
    RefStepInScope(rs, ps[0]);
    forall k | 0 <= k < |ps[1..]|
      ensures !ResetBit(ps[1..][k].flags)
    {
      assert ps[1..][k] == ps[k + 1];
    }
  }

  predicate SameRunButVol(fs: seq<Features>, gs: seq<Features>) {
    |fs| == |gs| && forall k :: 0 <= k < |fs| ==> SameButVol(fs[k], gs[k])
  }

  /** Packet by packet, OFI, imbalance and burst equal the reference. */
  lemma {:induction false} RunRefines(s: State, rs: RefState, ps: seq<Packet>)
    requires Sound(s) && Matches(s, rs) && RunInScope(rs, ps)
    ensures Matches(Run(s, ps).state, RunReference(rs, ps).state)
    ensures SameRunButVol(Run(s, ps).features, RunReference(rs, ps).features)
    decreases |ps|
  {
    hide Packetized, RefPacket, PacketInScope, RunInScope, Sound, Matches, SameButVol;
    if ps == [] {
    } else {
      ScopeStep(rs, ps);
      PacketMatches(s, rs, ps[0]);
      RunRefines(FabricStep(s, ps[0]), RefStep(rs, ps[0]), ps[1..]);
    }
  }

  // ---------- from packets to beats ----------

  function Emitted(fs: seq<Features>): (bs: seq<FeatureBeat>)
    ensures |bs| == |fs|
  {
    seq(|fs|, i requires 0 <= i < |fs| => Emit(fs[i]))
  }

  lemma PumpOnePacket(s: State, p: Packet, rest: seq<nat>, out: seq<FeatureBeat>)
    requires Parsable(p)
    ensures var s' := FabricStep(s, p);
            Pump(s, PacketBeats(p) + rest, out) == Pump(s', rest, out + [Emit(FeaturesOf(s'))])
  {
    WireRoundTrip(p, rest);
    assert DeltasOf(FifoOf(p)) == p.deltas;
  }

  lemma EmittedCons(out: seq<FeatureBeat>, f: Features, fs: seq<Features>)
    ensures out + [Emit(f)] + Emitted(fs) == out + Emitted([f] + fs)
  {
  }

  /**
   Fed the concatenated packets, the pump stays in frame: it consumes everything and
   emits exactly one TLAST beat per packet.
   */
  lemma {:induction false} PumpRuns(s: State, ps: seq<Packet>, out: seq<FeatureBeat>)
    requires forall k :: 0 <= k < |ps| ==> Parsable(ps[k])
    ensures Pump(s, StreamBeats(ps), out)
         == PumpResult(Run(s, ps).state, [], out + Emitted(Run(s, ps).features))
    ensures |Pump(s, StreamBeats(ps), out).output| == |out| + |ps|
    ensures AllLast(Pump(s, StreamBeats(ps), out).output[|out|..])
    decreases |ps|
  {
    hide Emit, FeaturesOf, PacketBeats, AllLast, Parsable, Packetized;
    if ps == [] {
      assert out + Emitted([]) == out;
    } else {
      var s' := FabricStep(s, ps[0]);
      PumpOnePacket(s, ps[0], StreamBeats(ps[1..]), out);
      PumpRuns(s', ps[1..], out + [Emit(FeaturesOf(s'))]);
      EmittedCons(out, FeaturesOf(s'), Run(s', ps[1..]).features);
    }
    PumpMarksEveryBeat(s, StreamBeats(ps), out);
  }

  lemma {:induction false} ScopeParsable(b: RefBook, lastTs: Option<int>, ps: seq<Packet>)
    requires ScopeFrom(b, lastTs, ps)
    ensures forall k :: 0 <= k < |ps| ==> Parsable(ps[k])
    decreases |ps|
  {
    hide Parsable, TimeAdvances, DrainsCleanly, RefDrain;
    if ps == [] {
    } else {
      ScopeParsable(RefDrain(b, ps[0].deltas), Some(ps[0].tSend), ps[1..]);
    }
  }

  lemma ResetMatches()
    ensures Sound(Reset()) && Matches(Reset(), RefReset())
  {
  }

  /**
   On the beats of any run in scope: the input is consumed, there is one TLAST beat per
   packet, and each carries the reference's OFI, imbalance and burst.
   */
  lemma PipelineRefinesReference(s: State, rs: RefState, ps: seq<Packet>)
    requires Sound(s) && Matches(s, rs) && RunInScope(rs, ps)
    ensures Pump(s, StreamBeats(ps), []) == PumpResult(Run(s, ps).state, [], Emitted(Run(s, ps).features))
    ensures SameRunButVol(Run(s, ps).features, RunReference(rs, ps).features)
  {
    ScopeParsable(rs.book, rs.filters.lastTs, ps);
    PumpRuns(s, ps, []);
    EmptyPrefix(Emitted(Run(s, ps).features));
    RunRefines(s, rs, ps);
  }

  lemma EmptyPrefix<T>(s: seq<T>)
    ensures [] + s == s
  {
  }
}

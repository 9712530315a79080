/**
 Exactly which packets keep the fabric and the packet-level reference together.  A delta
 can part them, by overflow or beyond level 15; `Refinement.DrainMatchesIff` is exact about
 that.  When no delta does, two things are left: the reset bit, which the fabric ignores,
 and a gap between packets that its 32-bit clock difference cannot hold.
 */
module Agreement {
  import opened Words
  import opened Wire
  import opened Fabric
  import opened PacketReference
  import opened Refinement
  import opened Reflected

  // ---------- one level, drained from two starting points ----------

  function CellAt(b: RefBook, side: Byte, l: nat): Cell
    requires l < N
  {
    if side == 0 then b.bid[l] else b.ask[l]
  }

  /** Some delta sets the level. */
  predicate Priced(ds: seq<Delta>, side: Byte, l: nat) {
    exists i :: 0 <= i < |ds| && Addresses(ds[i], side, l) && ds[i].action == 0
  }

  predicate Overwrites(d: Delta, side: Byte, l: nat) {
    Addresses(d, side, l) && (d.action == 0 || d.action == 3)
  }

  /** Some delta sets or removes the level. */
  predicate Overwritten(ds: seq<Delta>, side: Byte, l: nat) {
    exists i :: 0 <= i < |ds| && Overwrites(ds[i], side, l)
  }

  /** Every delta is well formed and inside the book. */
  predicate InBook(ds: seq<Delta>) {
    forall i :: 0 <= i < |ds| ==> FitsWire(ds[i]) && ds[i].level < BOOK_LEVELS
  }

  lemma CellStep(b: RefBook, d: Delta, side: Byte, l: nat)
    requires l < N && d.level < N
    ensures CellAt(RefDelta(b, d), side, l)
         == if Addresses(d, side, l) then NextCell(CellAt(b, side, l), d) else CellAt(b, side, l)
  {
  }

  lemma {:induction false} PricesMeetIff(b: RefBook, c: RefBook, ds: seq<Delta>, side: Byte, l: nat)
    requires l < N && InBook(ds)
    ensures CellAt(RefDrain(b, ds), side, l).p == CellAt(RefDrain(c, ds), side, l).p
       <==> CellAt(b, side, l).p == CellAt(c, side, l).p || Priced(ds, side, l)
  {
    hide RefDelta, CellAt, Addresses;
    if ds == [] {
    } else {
      var n := |ds| - 1;
      PricesMeetIff(b, c, ds[..n], side, l);
      CellStep(RefDrain(b, ds[..n]), ds[n], side, l);
      CellStep(RefDrain(c, ds[..n]), ds[n], side, l);
      PricedSnoc(ds, side, l);
    }
  }

  lemma PricedSnoc(ds: seq<Delta>, side: Byte, l: nat)
    requires ds != []
    ensures var n := |ds| - 1;
            Priced(ds, side, l) <==> Priced(ds[..n], side, l) || (Addresses(ds[n], side, l) && ds[n].action == 0)
  {
    var n := |ds| - 1;
    if Priced(ds[..n], side, l) {
      var i :| 0 <= i < n && Addresses(ds[..n][i], side, l) && ds[..n][i].action == 0;
      assert ds[i] == ds[..n][i];
    }
    if Priced(ds, side, l) {
      var i :| 0 <= i < |ds| && Addresses(ds[i], side, l) && ds[i].action == 0;
      assert i < n ==> ds[..n][i] == ds[i];
    }
  }

  lemma OverwrittenSnoc(ds: seq<Delta>, side: Byte, l: nat)
    requires ds != []
    ensures var n := |ds| - 1;
            Overwritten(ds, side, l) <==> Overwritten(ds[..n], side, l) || Overwrites(ds[n], side, l)
  {
    var n := |ds| - 1;
    if Overwritten(ds[..n], side, l) {
      var i :| 0 <= i < n && Overwrites(ds[..n][i], side, l);
      assert ds[i] == ds[..n][i];
    }
    if Overwritten(ds, side, l) {
      var i :| 0 <= i < |ds| && Overwrites(ds[i], side, l);
      assert i < n ==> ds[..n][i] == ds[i];
    }
  }

  lemma {:induction false} OverwrittenMeet(b: RefBook, c: RefBook, ds: seq<Delta>, side: Byte, l: nat)
    requires l < N && InBook(ds) && Overwritten(ds, side, l)
    ensures CellAt(RefDrain(b, ds), side, l).q == CellAt(RefDrain(c, ds), side, l).q
  {
    hide RefDelta, CellAt, Overwritten, Addresses;
    NothingOverwritten(side, l);
    var n := |ds| - 1;
    OverwrittenSnoc(ds, side, l);
    if Overwritten(ds[..n], side, l) {
      OverwrittenMeet(b, c, ds[..n], side, l);
    }
    CellStep(RefDrain(b, ds[..n]), ds[n], side, l);
    CellStep(RefDrain(c, ds[..n]), ds[n], side, l);
  }

  lemma NothingOverwritten(side: Byte, l: nat)
    ensures !Overwritten([], side, l)
  {
  }

  /** A level that is neither set nor removed is a reflected walk from where it started. */
  lemma {:induction false} FlowsOnlyClosedForm(b: RefBook, ds: seq<Delta>, side: Byte, l: nat)
    requires l < N && InBook(ds) && !Overwritten(ds, side, l) && CellAt(b, side, l).q >= 0
    ensures CellAt(RefDrain(b, ds), side, l).q == ClosedForm(CellAt(b, side, l).q, ds, side, l)
  {
    hide RefDelta, CellAt, Overwritten, ClosedForm;
    var q0 := CellAt(b, side, l).q;
    if ds == [] {
      ClosedFormOfNothing(q0, side, l);
    } else {
      var n := |ds| - 1;
      OverwrittenSnoc(ds, side, l);
      FlowsOnlyClosedForm(b, ds[..n], side, l);
      CellStep(RefDrain(b, ds[..n]), ds[n], side, l);
      ClosedFormStep(q0, ds, side, l);
      ClosedFormFloor(q0, ds[..n], side, l);
    }
  }

  lemma ClosedFormOfNothing(q0: nat, side: Byte, l: nat)
    ensures ClosedForm(q0, [], side, l) == q0
  {
  }

  lemma {:induction false} ClosedFormFloor(q0: nat, ds: seq<Delta>, side: Byte, l: nat)
    ensures ClosedForm(q0, ds, side, l) >= 0 && Lowest(ds, side, l) <= 0
  {
    if ds == [] {
    } else {
      ClosedFormFloor(q0, ds[..|ds| - 1], side, l);
    }
  }

  /** From q and from zero, the walks meet exactly when the one from q touches the floor. */
  lemma QuantitiesMeetIff(b: RefBook, c: RefBook, ds: seq<Delta>, side: Byte, l: nat)
    requires l < N && InBook(ds) && CellAt(b, side, l).q >= 0 && CellAt(c, side, l).q == 0
    ensures CellAt(RefDrain(b, ds), side, l).q == CellAt(RefDrain(c, ds), side, l).q
       <==> Overwritten(ds, side, l) || CellAt(b, side, l).q + Lowest(ds, side, l) <= 0
  {
    hide CellAt, RefDrain, Overwritten;
    if Overwritten(ds, side, l) {
      OverwrittenMeet(b, c, ds, side, l);
    } else {
      FlowsOnlyClosedForm(b, ds, side, l);
      FlowsOnlyClosedForm(c, ds, side, l);
      ClosedFormFloor(0, ds, side, l);
    }
  }

  // ---------- the whole book ----------

  /** The delta at the level the reference charges it to. */
  function Charged(d: Delta): Delta { d.(level := LevelOf(d)) }

  function ChargedAll(ds: seq<Delta>): (cs: seq<Delta>)
    ensures |cs| == |ds|
  {
    seq(|ds|, i requires 0 <= i < |ds| => Charged(ds[i]))
  }

  lemma {:induction false} DrainCharged(b: RefBook, ds: seq<Delta>)
    ensures RefDrain(b, ds) == RefDrain(b, ChargedAll(ds))
  {
    hide RefDelta;
    if ds == [] {
      assert ChargedAll(ds) == [];
    } else {
      var n := |ds| - 1;
      DrainCharged(b, ds[..n]);
      assert ChargedAll(ds)[..n] == ChargedAll(ds[..n]);
      ChargedSame(RefDrain(b, ds[..n]), ds[n]);
    }
  }

  lemma ChargedSame(b: RefBook, d: Delta)
    ensures RefDelta(b, d) == RefDelta(b, Charged(d))
  {
  }

  /** The accumulator never leaves int32, so it neither wraps nor saturates. */
  ghost predicate OfiFits(b: RefBook, ds: seq<Delta>) {
    forall i {:trigger ds[i]} :: 0 <= i < |ds| && IsFlow(ds[i]) ==> IsI32(RefDrain(b, ds[..i]).ofi + Signed(ds[i]))
  }

  lemma CleanOfiFits(b: RefBook, ds: seq<Delta>)
    requires DrainsCleanly(b, ds)
    ensures OfiFits(b, ds)
  {
  }

  lemma {:induction false} OfiKeepsDistance(b: RefBook, c: RefBook, ds: seq<Delta>)
    requires OfiFits(b, ds) && OfiFits(c, ds)
    ensures RefDrain(b, ds).ofi - RefDrain(c, ds).ofi == b.ofi - c.ofi
  {
    if ds == [] {
    } else {
      var n := |ds| - 1;
      assert forall i :: 0 <= i < n ==> ds[..n][..i] == ds[..i] && ds[..n][i] == ds[i];
      OfiKeepsDistance(b, c, ds[..n]);
    }
  }

  lemma CleanIsInBook(b: RefBook, ds: seq<Delta>)
    requires DrainsCleanly(b, ds)
    ensures InBook(ChargedAll(ds))
  {
  }

  /** A level whose price and quantity before the deltas leave no trace after them. */
  predicate ForgetsLevel(price: int, qty: int, ds: seq<Delta>, side: Byte, l: nat) {
    && (price == 0 || Priced(ds, side, l))
    && (Overwritten(ds, side, l) || qty + Lowest(ds, side, l) <= 0)
  }

  predicate ForgetsLevels(b: Book, ds: seq<Delta>) {
    && (forall l :: 0 <= l < BOOK_LEVELS ==> ForgetsLevel(b.bid.price[l], b.bid.qty[l], ds, 0, l))
    && (forall l :: 0 <= l < BOOK_LEVELS ==> ForgetsLevel(b.ask.price[l], b.ask.qty[l], ds, 1, l))
  }

  /** The deltas erase the book: every level, and there is no order flow to remember. */
  predicate ForgetsBook(b: Book, ds: seq<Delta>) {
    b.ofi == 0 && ForgetsLevels(b, ChargedAll(ds))
  }

  lemma LevelsMeetIff(b: RefBook, ds: seq<Delta>, side: Byte, l: nat)
    requires l < N && InBook(ds) && CellAt(b, side, l).q >= 0
    ensures CellAt(RefDrain(b, ds), side, l) == CellAt(RefDrain(RefReset().book, ds), side, l)
       <==> ForgetsLevel(CellAt(b, side, l).p, CellAt(b, side, l).q, ds, side, l)
  {
    hide RefDrain, Priced, Overwritten, InBook;
    PricesMeetIff(b, RefReset().book, ds, side, l);
    QuantitiesMeetIff(b, RefReset().book, ds, side, l);
  }

  predicate SameCells(x: RefBook, y: RefBook) {
    forall l :: 0 <= l < N ==> CellAt(x, 0, l) == CellAt(y, 0, l) && CellAt(x, 1, l) == CellAt(y, 1, l)
  }

  lemma SameCellsIff(x: RefBook, y: RefBook)
    ensures x == y <==> x.ofi == y.ofi && SameCells(x, y)
  {
    if x.ofi == y.ofi && SameCells(x, y) {
      forall l | 0 <= l < N
        ensures x.bid[l] == y.bid[l] && x.ask[l] == y.ask[l]
      {
        assert CellAt(x, 0, l) == CellAt(y, 0, l) && CellAt(x, 1, l) == CellAt(y, 1, l);
      }
      assert x.bid == y.bid && x.ask == y.ask;
    }
  }

  lemma CellsOfBook(b: Book, rb: RefBook, l: nat)
    requires BookSound(b) && BookMatches(b, rb) && l < N
    ensures CellAt(rb, 0, l) == Cell(b.bid.price[l], b.bid.qty[l]) && b.bid.qty[l] >= 0
    ensures CellAt(rb, 1, l) == Cell(b.ask.price[l], b.ask.qty[l]) && b.ask.qty[l] >= 0
  {
  }

  /** Draining from a book and from the empty one ends the same exactly when the deltas forget it. */
  lemma BooksMeetIff(b: Book, rb: RefBook, ds: seq<Delta>)
    requires BookSound(b) && BookMatches(b, rb)
    requires DrainsCleanly(rb, ds) && OfiFits(RefReset().book, ds)
    ensures RefDrain(rb, ds) == RefDrain(RefReset().book, ds) <==> ForgetsBook(b, ds)
  {
    hide RefDrain, DrainsCleanly, OfiFits, CellAt, InBook, ForgetsLevel, BookSound, ChargedAll;
    var x, y, cs := RefDrain(rb, ds), RefDrain(RefReset().book, ds), ChargedAll(ds);
    CleanIsInBook(rb, ds);
    CleanOfiFits(rb, ds);
    OfiKeepsDistance(rb, RefReset().book, ds);
    DrainCharged(rb, ds);
    DrainCharged(RefReset().book, ds);
    SameCellsIff(x, y);
    forall l | 0 <= l < N
      ensures CellAt(x, 0, l) == CellAt(y, 0, l) <==> ForgetsLevel(b.bid.price[l], b.bid.qty[l], cs, 0, l)
      ensures CellAt(x, 1, l) == CellAt(y, 1, l) <==> ForgetsLevel(b.ask.price[l], b.ask.qty[l], cs, 1, l)
    {
      CellsOfBook(b, rb, l);
      LevelsMeetIff(rb, cs, 0, l);
      LevelsMeetIff(rb, cs, 1, l);
    }
  }

  // ---------- the burst ----------

  /** How much the fabric's bucket leaks over its own gap. */
  function Leak(burst: nat, lastT: nat, t: nat): nat {
    burst * Dt(lastT, t) / TAU_BURST_NS
  }

  /**
   Without a reset the gap matters only when the fabric cannot hold it.  Forward, beyond
   2^32 ns, a bucket of 4 or more is empty either way.  Backward, the reference does not
   leak, so the fabric must not either, or both must be full.
   */
  predicate GapForgiven(burst: nat, lastT: nat, t: nat) {
    if lastT == 0 then true
    else if t < lastT then Leak(burst, lastT, t) == 0 || burst + ONE_Q16 - Leak(burst, lastT, t) >= MAX_U32
    else t - lastT <= MAX_U32 || burst == 0 || burst >= 4
         || burst * (t - lastT) / TAU_BURST_NS == Leak(burst, lastT, t)
  }

  function LastOf(lastT: nat): Option<int> {
    if lastT == 0 then None else Some(lastT)
  }

  /** The two bursts after a packet, from the same burst and send time. */
  lemma BurstAgreesIff(burst: nat, lastT: nat, t: nat)
    requires IsU32(burst) && IsU64(lastT) && IsU64(t)
    ensures Burst(burst, Dt(lastT, t)) == RefBurst(burst, RefDt(LastOf(lastT), t)) <==> GapForgiven(burst, lastT, t)
  {
    BurstMatches(burst, Dt(lastT, t));
    if lastT != 0 && t < lastT {
      NoLeakWithoutTime(burst);
    } else if lastT != 0 && t - lastT > MAX_U32 {
      LongGap(burst, t - lastT);
    }
  }

  lemma NoLeakWithoutTime(burst: nat)
    ensures RefBurst(burst, 0) == Min(burst + ONE_Q16, MAX_U32)
  {
    assert burst * 0 == 0;
  }

  lemma LongGap(burst: nat, gap: nat)
    requires IsU32(burst) && gap > MAX_U32
    ensures Burst(burst, MAX_U32) == RefBurst(burst, gap)
       <==> burst == 0 || burst >= 4 || burst * gap / TAU_BURST_NS == burst * MAX_U32 / TAU_BURST_NS
  {
    var p, q := burst * MAX_U32, burst * gap;
    ProductBound(burst, MAX_U32, burst, gap);
    assert p / TAU_BURST_NS <= q / TAU_BURST_NS;
  }

  /** After a reset the reference's burst is one packet's; the fabric's is that iff it has leaked all. */
  lemma BurstLeakedIff(burst: nat, lastT: nat, t: nat)
    requires IsU32(burst)
    ensures Burst(burst, Dt(lastT, t)) == RefBurst(0, 0) <==> Leak(burst, lastT, t) == burst
  {
  }

  // ---------- one packet ----------

  /** With a reset everything before the packet must leave no trace; without one only the gap matters. */
  predicate PacketAgrees(s: State, p: Packet) {
    if ResetBit(p.flags) then
      ForgetsBook(s.book, p.deltas) && Leak(s.filters.burst, s.filters.lastT, p.tSend) == s.filters.burst
    else
      GapForgiven(s.filters.burst, s.filters.lastT, p.tSend)
  }

  /** The book the reference applies the deltas to. */
  function BookFor(b: RefBook, flags: nat): RefBook {
    if ResetBit(flags) then RefReset().book else b
  }

  /**
   Parsable, sent at a positive time, and no delta parts the books: the fabric's deltas agree
   one by one, and the reference, if it starts afresh, does not saturate its accumulator.
   */
  ghost predicate CleanPacket(b: RefBook, p: Packet) {
    Parsable(p) && p.tSend > 0 && DrainsCleanly(b, p.deltas) && OfiFits(BookFor(b, p.flags), p.deltas)
  }

  lemma RefStepClean(rs: RefState, p: Packet)
    requires CleanPacket(rs.book, p)
    ensures var f, b := AfterReset(rs, p.flags).filters, RefDrain(BookFor(rs.book, p.flags), p.deltas);
            RefStep(rs, p) == RefState(b, NextRefFilters(b, f, p.tSend))
  {
    assert p.deltas[..|p.deltas|] == p.deltas;
  }

  lemma SameBookIff(b: Book, x: RefBook, y: RefBook)
    requires BookMatches(b, x)
    ensures BookMatches(b, y) <==> x == y
  {
    if BookMatches(b, y) {
      assert forall l :: 0 <= l < N ==> x.bid[l] == y.bid[l] && x.ask[l] == y.ask[l];
      assert x.bid == y.bid && x.ask == y.ask;
    }
  }

  lemma SameMid(b: Book, rb: RefBook)
    requires BookSound(b) && BookMatches(b, rb)
    ensures Mid(b.bestBidPx, b.bestAskPx) == RefMid(rb)
  {
  }

  /** The books after one packet. */
  lemma BookAgreesIff(s: State, rs: RefState, p: Packet)
    requires Sound(s) && Matches(s, rs) && CleanPacket(rs.book, p)
    ensures BookSound(DrainBook(s.book, p.deltas))
    ensures BookMatches(DrainBook(s.book, p.deltas), RefDrain(BookFor(rs.book, p.flags), p.deltas))
       <==> (ResetBit(p.flags) ==> ForgetsBook(s.book, p.deltas))
  {
    hide DrainsCleanly, OfiFits, BookSound, BookMatches, ForgetsBook, RefDrain, DrainBook, ResetBit, Parsable, RefReset;
    DrainMatches(s.book, rs.book, p.deltas);
    if ResetBit(p.flags) {
      BooksMeetIff(s.book, rs.book, p.deltas);
      SameBookIff(DrainBook(s.book, p.deltas), RefDrain(rs.book, p.deltas), RefDrain(RefReset().book, p.deltas));
    }
  }

  /** The bursts after one packet. */
  lemma PacketBurstAgreesIff(f: Filters, rf: RefFilters, reset: bool, t: nat)
    requires FiltersSound(f) && FiltersMatch(f, rf) && IsU64(t)
    ensures var rf0 := if reset then RefReset().filters else rf;
            Burst(f.burst, Dt(f.lastT, t)) == RefBurst(rf0.burst, RefDt(rf0.lastTs, t))
            <==> if reset then Leak(f.burst, f.lastT, t) == f.burst else GapForgiven(f.burst, f.lastT, t)
  {
    hide Burst, RefBurst, Leak, GapForgiven, Dt;
    BurstAgreesIff(f.burst, f.lastT, t);
    BurstLeakedIff(f.burst, f.lastT, t);
  }

  /**
   For every clean packet, at any levels, with or without the reset bit and however long the gap: fabric
   and reference stay related exactly when the packet agrees.
   */
  lemma PacketAgreesIff(s: State, rs: RefState, p: Packet)
    requires Sound(s) && Matches(s, rs) && CleanPacket(rs.book, p)
    ensures Matches(FabricStep(s, p), RefStep(rs, p)) <==> PacketAgrees(s, p)
  {
    hide DrainsCleanly, OfiFits, BookSound, BookMatches, ForgetsBook, GapForgiven, Leak, RefDrain, DrainBook, RefStep,
         Burst, RefBurst, Vol, RefVol, Mid, RefMid, ResetBit, Dt, RefDt, Parsable, FiltersSound;
    RefStepClean(rs, p);
    BookAgreesIff(s, rs, p);
    PacketBurstAgreesIff(s.filters, rs.filters, ResetBit(p.flags), p.tSend) by {
      assert IsU64(p.tSend) by { SendTimeFits(p); }
    }
    var b, rb := DrainBook(s.book, p.deltas), RefDrain(BookFor(rs.book, p.flags), p.deltas);
    if BookMatches(b, rb) {
      SameMid(b, rb);
    }
  }

  lemma SendTimeFits(p: Packet)
    requires Parsable(p)
    ensures IsU64(p.tSend)
  {
  }

  /** An empty reset packet agrees iff the book is empty and the bucket has leaked all. */
  lemma EmptyResetAgreesIff(s: State, p: Packet)
    requires Sound(s) && ResetBit(p.flags) && p.deltas == []
    ensures PacketAgrees(s, p)
       <==> s.book == EmptyBook() && Leak(s.filters.burst, s.filters.lastT, p.tSend) == s.filters.burst
  {
    hide Leak;
    if PacketAgrees(s, p) {
      assert ChargedAll([]) == [];
      assert forall l :: 0 <= l < BOOK_LEVELS ==> ForgetsLevel(s.book.bid.price[l], s.book.bid.qty[l], [], 0, l);
      assert s.book.bid == EmptyLevels() && s.book.ask == EmptyLevels();
    }
  }

  // ---------- whole runs ----------

  ghost predicate CleanRun(b: RefBook, ps: seq<Packet>)
    decreases |ps|
  {
    ps != [] ==> CleanPacket(b, ps[0]) && CleanRun(RefDrain(BookFor(b, ps[0].flags), ps[0].deltas), ps[1..])
  }

  /** Fabric and reference are related at every packet boundary. */
  predicate StaysMatched(s: State, rs: RefState, ps: seq<Packet>)
    decreases |ps|
  {
    Matches(s, rs) && (ps != [] ==> StaysMatched(FabricStep(s, ps[0]), RefStep(rs, ps[0]), ps[1..]))
  }

  predicate EveryPacketAgrees(s: State, ps: seq<Packet>)
    decreases |ps|
  {
    ps != [] ==> PacketAgrees(s, ps[0]) && EveryPacketAgrees(FabricStep(s, ps[0]), ps[1..])
  }

  lemma MatchedFeatures(s: State, rs: RefState)
    requires Sound(s) && Matches(s, rs)
    ensures SameButVol(FeaturesOf(s), RefFeaturesOf(rs))
  {
    ImbalanceMatches(s.book.bestBidQty, s.book.bestAskQty);
  }

  lemma CleanStepSound(s: State, rs: RefState, p: Packet)
    requires Sound(s) && CleanPacket(rs.book, p)
    ensures Sound(FabricStep(s, p))
    ensures RefStep(rs, p).book == RefDrain(BookFor(rs.book, p.flags), p.deltas)
  {
    PacketizedSound(s, p.tSend, p.deltas);
    RefStepClean(rs, p);
  }

  /**
   Over every clean run: the two stay related at every packet boundary exactly when every
   packet agrees, and then OFI, imbalance and burst are equal throughout.
   */
  lemma {:induction false} RunAgreesIff(s: State, rs: RefState, ps: seq<Packet>)
    requires Sound(s) && Matches(s, rs) && CleanRun(rs.book, ps)
    ensures StaysMatched(s, rs, ps) <==> EveryPacketAgrees(s, ps)
    ensures EveryPacketAgrees(s, ps) ==> SameRunButVol(Run(s, ps).features, RunReference(rs, ps).features)
    decreases |ps|
  {
    hide Packetized, RefPacket, CleanPacket, Sound, Matches, PacketAgrees, SameButVol, RefDrain, BookFor;
    if ps == [] {
    } else {
      var s', rs' := FabricStep(s, ps[0]), RefStep(rs, ps[0]);
      PacketAgreesIff(s, rs, ps[0]);
      CleanStepSound(s, rs, ps[0]);
      if Matches(s', rs') {
        MatchedFeatures(s', rs');
        RunAgreesIff(s', rs', ps[1..]);
      } else {
        assert !StaysMatched(s', rs', ps[1..]);
      }
    }
  }

  // ---------- what the features show ----------

  /** A reset of what is already reset is harmless, whatever the packet carries. */
  lemma ResetOfNothing(s: State, rs: RefState, p: Packet)
    requires Sound(s) && Matches(s, rs) && rs == RefReset() && CleanPacket(rs.book, p)
    ensures ForgetsBook(s.book, p.deltas) && Leak(s.filters.burst, s.filters.lastT, p.tSend) == s.filters.burst
  {
    hide ForgetsBook, BookSound, DrainsCleanly, OfiFits, RefDrain, Parsable;
    CleanOfiFits(rs.book, p.deltas);
    BooksMeetIff(s.book, rs.book, p.deltas);
    assert s.filters.burst * Dt(s.filters.lastT, p.tSend) == 0;
  }

  /** Where no reset takes anything back, only the burst can part the two, and it shows. */
  lemma PacketShows(s: State, rs: RefState, p: Packet)
    requires Sound(s) && Matches(s, rs) && CleanPacket(rs.book, p) && (ResetBit(p.flags) ==> rs == RefReset())
    ensures SameButVol(FeaturesOf(FabricStep(s, p)), RefFeaturesOf(RefStep(rs, p))) ==>
              Matches(FabricStep(s, p), RefStep(rs, p))
  {
    hide CleanPacket, BookSound, BookMatches, ForgetsBook, Leak, RefDrain, DrainBook, RefStep, Imbalance, RefImbalance,
         Burst, RefBurst, Vol, RefVol, Mid, RefMid, ResetBit, Dt, RefDt, FiltersSound;
    RefStepClean(rs, p);
    BookAgreesIff(s, rs, p);
    if ResetBit(p.flags) {
      ResetOfNothing(s, rs, p);
    }
    SameMid(DrainBook(s.book, p.deltas), RefDrain(BookFor(rs.book, p.flags), p.deltas));
    assert p.tSend > 0 by { SentLater(rs.book, p); }
  }

  lemma SentLater(b: RefBook, p: Packet)
    requires CleanPacket(b, p)
    ensures p.tSend > 0
  {
  }

  /**
   Over every clean run that resets nothing: OFI, imbalance and burst of every packet equal
   the reference's exactly when every packet agrees.
   */
  lemma {:induction false} FeaturesAgreeIff(s: State, rs: RefState, ps: seq<Packet>)
    requires Sound(s) && Matches(s, rs) && CleanRun(rs.book, ps) && ResetsHarmlessly(rs, ps)
    ensures SameRunButVol(Run(s, ps).features, RunReference(rs, ps).features) <==> EveryPacketAgrees(s, ps)
    decreases |ps|
  {
    hide Packetized, RefPacket, CleanPacket, Sound, Matches, PacketAgrees, SameButVol, RefDrain, BookFor, FeaturesOf,
         RefFeaturesOf, ResetBit, RefReset;
    if ps == [] {
    } else {
      var s', rs' := FabricStep(s, ps[0]), RefStep(rs, ps[0]);
      var fs, gs := Run(s, ps).features, RunReference(rs, ps).features;
      PacketAgreesIff(s, rs, ps[0]);
      CleanStepSound(s, rs, ps[0]);
      LaterResets(rs, rs', ps);
      if Matches(s', rs') {
        MatchedFeatures(s', rs');
        FeaturesAgreeIff(s', rs', ps[1..]);
        SameRunCons(FeaturesOf(s'), Run(s', ps[1..]).features, RefFeaturesOf(rs'), RunReference(rs', ps[1..]).features);
      } else if SameRunButVol(fs, gs) {
        assert SameButVol(fs[0], gs[0]);
        PacketShows(s, rs, ps[0]);
        assert false;
      }
    }
  }

  lemma SameRunCons(f: Features, fs: seq<Features>, g: Features, gs: seq<Features>)
    requires SameButVol(f, g)
    ensures SameRunButVol([f] + fs, [g] + gs) <==> SameRunButVol(fs, gs)
  {
    if SameRunButVol([f] + fs, [g] + gs) {
      assert forall k :: 0 <= k < |fs| ==> ([f] + fs)[k + 1] == fs[k] && ([g] + gs)[k + 1] == gs[k];
    }
  }

  lemma LaterResets(rs: RefState, rs': RefState, ps: seq<Packet>)
    requires ps != [] && ResetsHarmlessly(rs, ps)
    ensures ResetsHarmlessly(rs', ps[1..]) && (ResetBit(ps[0].flags) ==> rs == RefReset())
  {
    hide RefReset, ResetBit;
    forall k | 0 <= k < |ps[1..]|
      ensures !ResetBit(ps[1..][k].flags)
    {
      assert ps[1..][k] == ps[k + 1];
    }
    assert ResetBit(ps[0].flags) ==> rs == RefReset();
  }
}

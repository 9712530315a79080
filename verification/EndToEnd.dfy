/**
 From CSV rows to feature beats: the packets the host sends are in the scope of the
 refinement, whatever the batching, when the rows overflow no register and the clock
 moves forward, and then the fabric's whole output equals the references'.
 */
module EndToEnd {
  import opened Words
  import opened Wire
  import opened Fabric
  import opened PacketReference
  import opened Refinement
  import opened Agreement
  import opened MlpCore
  import opened Batching
  import opened Replay
  import opened EventReference

  // ---------- a run with a bounded total flow overflows nothing ----------

  /** The sum of the absolute quantities: a bound on every level and on the accumulator. */
  function GrossFlow(ds: seq<Delta>): nat {
    if ds == [] then 0 else GrossFlow(ds[..|ds| - 1]) + Abs(ds[|ds| - 1].qty)
  }

  predicate BoundedBy(rb: RefBook, g: int) {
    && (forall i :: 0 <= i < N ==> 0 <= rb.bid[i].q <= g)
    && (forall i :: 0 <= i < N ==> 0 <= rb.ask[i].q <= g)
    && -g <= rb.ofi <= g
  }

  lemma DeltaBounded(rb: RefBook, d: Delta, g: nat)
    requires BoundedBy(rb, g) && g + Abs(d.qty) <= MAX_I32
    ensures BoundedBy(RefDelta(rb, d), g + Abs(d.qty))
    ensures NoOverflow(rb, d)
  {
  }

  lemma {:induction false} DrainBounded(rb: RefBook, ds: seq<Delta>, g: nat)
    requires BoundedBy(rb, g) && g + GrossFlow(ds) <= MAX_I32
    ensures BoundedBy(RefDrain(rb, ds), g + GrossFlow(ds))
    ensures forall i :: 0 <= i < |ds| ==> NoOverflow(RefDrain(rb, ds[..i]), ds[i])
  {
    hide BoundedBy, NoOverflow, RefDelta;
    if ds == [] {
    } else {
      var n := |ds| - 1;
      DrainBounded(rb, ds[..n], g);
      DeltaBounded(RefDrain(rb, ds[..n]), ds[n], g + GrossFlow(ds[..n]));
      forall i | 0 <= i < n
        ensures NoOverflow(RefDrain(rb, ds[..i]), ds[i])
      {
        assert ds[..n][..i] == ds[..i] && ds[..n][i] == ds[i];
      }
    }
  }

  /** A total flow that fits an int32 is more than enough. */
  lemma {:induction false} BoundedFlowIsClean(ds: seq<Delta>)
    requires GrossFlow(ds) <= MAX_I32
    requires forall i :: 0 <= i < |ds| ==> FitsWire(ds[i]) && ds[i].level < BOOK_LEVELS
    ensures DrainsCleanly(RefReset().book, ds)
  {
    DrainBounded(RefReset().book, ds, 0);
  }

  /** It is not necessary: this order is cancelled before the second one comes. */
  lemma CleanBeyondBoundedFlow()
    ensures var ds := [Delta(0, 1_200_000_000, 0, 0, 1), Delta(0, -1_200_000_000, 0, 0, 2)];
            DrainsCleanly(RefReset().book, ds) && GrossFlow(ds) > MAX_I32
  {
    var ds := [Delta(0, 1_200_000_000, 0, 0, 1), Delta(0, -1_200_000_000, 0, 0, 2)];
    assert ds[..0] == [] && ds[..1] == [ds[0]] && ds[..1][..0] == [];
    assert RefDrain(RefReset().book, ds[..1]) == RefDelta(RefReset().book, ds[0]);
    assert GrossFlow(ds[..1]) == GrossFlow([]) + 1_200_000_000;
  }

  // ---------- packet runs that are in scope ----------

  /** Send times are positive and move forward by less than 2^32 ns. */
  predicate ClockAdvances(lastTs: Option<int>, ps: seq<Packet>)
    decreases |ps|
  {
    ps != [] ==> TimeAdvances(lastTs, ps[0].tSend) && ClockAdvances(Some(ps[0].tSend), ps[1..])
  }

  /**
   The scope of a run does not depend on its batching: the packets can be parsed, the
   clock advances, and the concatenated deltas drain cleanly.
   */
  lemma {:induction false} ScopeIff(b: RefBook, lastTs: Option<int>, ps: seq<Packet>)
    ensures ScopeFrom(b, lastTs, ps)
       <==> && (forall k :: 0 <= k < |ps| ==> Parsable(ps[k]))
            && ClockAdvances(lastTs, ps) && DrainsCleanly(b, Payload(ps))
    decreases |ps|
  {
    hide Parsable, DrainsCleanly, RefDrain, TimeAdvances;
    if ps == [] {
      NothingDrainsCleanly(b);
    } else {
      CleanlySplits(b, ps[0].deltas, Payload(ps[1..]));
      ScopeIff(RefDrain(b, ps[0].deltas), Some(ps[0].tSend), ps[1..]);
      if Parsable(ps[0]) && forall k :: 0 <= k < |ps[1..]| ==> Parsable(ps[1..][k]) {
        forall k | 0 <= k < |ps|
          ensures Parsable(ps[k])
        {
          if k > 0 { assert ps[1..][k - 1] == ps[k]; }
        }
      }
    }
  }

  lemma NothingDrainsCleanly(b: RefBook)
    ensures DrainsCleanly(b, [])
  {
  }

  // ---------- the replayer's packets are in scope ----------

  /** The send clock, over the packets that are sent: positive, forward, gaps below 2^32 ns. */
  predicate GoodClock(timing: Timing, n: nat) {
    forall k :: 0 <= k < n ==>
      && 0 < timing.clock(k) <= MAX_U64
      && (k > 0 ==> timing.clock(k - 1) <= timing.clock(k) <= timing.clock(k - 1) + MAX_U32)
  }

  lemma {:induction false} ReplayClockAdvances(ps: seq<Packet>, k: nat, batch: int, timing: Timing)
    requires forall i :: 0 <= i < |ps| ==> WellSent(ps[i], k + i, batch, timing)
    requires GoodClock(timing, k + |ps|)
    ensures ClockAdvances(if k == 0 then None else Some(timing.clock(k - 1)), ps)
    decreases |ps|
  {
    if ps == [] {
    } else {
      forall i | 0 <= i < |ps[1..]|
        ensures WellSent(ps[1..][i], k + 1 + i, batch, timing)
      {
        assert ps[1..][i] == ps[i + 1];
      }
      ReplayClockAdvances(ps[1..], k + 1, batch, timing);
    }
  }

  lemma {:induction false} PayloadContains(ps: seq<Packet>, k: nat, i: nat)
    requires k < |ps| && i < |ps[k].deltas|
    ensures ps[k].deltas[i] in Payload(ps)
  {
    if k > 0 {
      PayloadContains(ps[1..], k - 1, i);
    }
  }

  lemma SentParsable(ps: seq<Packet>, rows: seq<Row>, k: nat, batch: int, timing: Timing)
    requires k < |ps| && Payload(ps) == Mapped(rows) && 1 <= batch <= MAX_DELTAS
    requires WellSent(ps[k], k, batch, timing) && IsU64(timing.clock(k))
    ensures Parsable(ps[k]) && (ResetBit(ps[k].flags) <==> k == 0)
  {
    FlagWordIff(k == 0, |ps[k].deltas|);
    MappedFitsWire(rows);
    forall i | 0 <= i < |ps[k].deltas|
      ensures FitsWire(ps[k].deltas[i])
    {
      PayloadContains(ps, k, i);
    }
  }

  /** For every timing, a replay with --batch 1..128 of rows that overflow nothing is in scope. */
  lemma ReplayInScope(rows: seq<Row>, batch: int, pacing: Pacing, timing: Timing)
    requires 1 <= batch <= MAX_DELTAS && DrainsCleanly(RefReset().book, Mapped(rows))
    requires GoodClock(timing, |Packets(rows, batch, pacing, timing)|)
    ensures RunInScope(RefReset(), Packets(rows, batch, pacing, timing))
  {
    hide Packets, DrainsCleanly, Parsable, WellSent, RefReset;
    var ps := Packets(rows, batch, pacing, timing);
    BatchingConserves(rows, batch, pacing, timing);
    ReplayClockAdvances(ps, 0, batch, timing);
    NoPacketYet();
    forall k | 0 <= k < |ps|
      ensures Parsable(ps[k]) && (ResetBit(ps[k].flags) ==> k == 0)
    {
      SentParsable(ps, rows, k, batch, timing);
    }
    ScopeIff(RefReset().book, None, ps);
  }

  lemma NoPacketYet()
    ensures RefReset().filters.lastTs == None
  {
  }

  // ---------- what a row does to the fabric's book ----------

  function TopQty(b: Book, dir: int): int {
    if dir == 1 then b.bid.qty[0] else b.ask.qty[0]
  }

  /** Positive flow on the bid side, negative on the ask side. */
  function SignedFlow(dir: int, flow: int): int { if dir == 1 then flow else -flow }

  /**
   A submission adds its size to the top of its side and to the flow; a cancellation or an
   execution takes it off, down to nothing; a deletion empties the top and a replacement leaves
   it, neither with any flow.  The other side never changes.
   */
  lemma RowEffect(b: Book, kind: int, size: nat, ticks: int, dir: int)
    requires BookSound(b) && 1 <= kind <= 5 && size <= MAX_I32
    requires kind == 1 ==> TopQty(b, dir) + size <= MAX_I32
    requires kind <= 3 ==> IsI32(b.ofi + size) && IsI32(b.ofi - size)
    ensures RowDelta(Event(kind, size, ticks, dir)).Some?
    ensures var b' := UpdateBook(b, RowDelta(Event(kind, size, ticks, dir)).value);
            && (kind == 1 ==> TopQty(b', dir) == TopQty(b, dir) + size)
            && (kind == 2 || kind == 3 ==> TopQty(b', dir) == Max(TopQty(b, dir) - size, 0))
            && (kind == 4 ==> TopQty(b', dir) == 0)
            && (kind == 5 ==> TopQty(b', dir) == TopQty(b, dir))
            && b'.ofi == b.ofi + SignedFlow(dir, if kind == 1 then size else if kind <= 3 then -(size as int) else 0)
            && (if dir == 1 then b'.ask == b.ask else b'.bid == b.bid)
  {
  }

  // ---------- replayed rows never move the mid ----------

  predicate NeverSets(ps: seq<Packet>) {
    forall k, i :: 0 <= k < |ps| && 0 <= i < |ps[k].deltas| ==> ps[k].deltas[i].action != 0
  }

  predicate PricesZero(b: Book) {
    b.bid.price[0] == b.ask.price[0] == b.bestBidPx == b.bestAskPx == 0
  }

  lemma {:induction false} DrainKeepsPrices(b: Book, ds: seq<Delta>)
    requires PricesZero(b) && forall i :: 0 <= i < |ds| ==> ds[i].action != 0
    ensures PricesZero(DrainBook(b, ds))
  {
    if ds == [] {
    } else {
      DrainKeepsPrices(b, ds[..|ds| - 1]);
    }
  }

  predicate Still(s: State) {
    PricesZero(s.book) && s.filters.midPrev == 0 && s.filters.vol == 0
  }

  lemma StillStep(s: State, p: Packet)
    requires Still(s) && forall i :: 0 <= i < |p.deltas| ==> p.deltas[i].action != 0
    ensures Still(FabricStep(s, p)) && FeaturesOf(FabricStep(s, p)).vol == 0
  {
    DrainKeepsPrices(s.book, p.deltas);
    assert Vol(0, 0, Dt(s.filters.lastT, p.tSend)) == 0;
  }

  lemma {:induction false} FabricVolIsZero(s: State, ps: seq<Packet>)
    requires Still(s) && NeverSets(ps)
    ensures forall k :: 0 <= k < |ps| ==> Run(s, ps).features[k].vol == 0
    decreases |ps|
  {
    hide Still, Packetized, FeaturesOf;
    if ps == [] {
    } else {
      StillStep(s, ps[0]);
      FabricVolIsZero(FabricStep(s, ps[0]), ps[1..]);
    }
  }

  predicate RefStill(rs: RefState) {
    rs.book.bid[0].p == rs.book.ask[0].p == rs.filters.midPrev == rs.filters.vol == 0
  }

  lemma {:induction false} RefDrainKeepsPrices(b: RefBook, ds: seq<Delta>)
    requires b.bid[0].p == b.ask[0].p == 0 && forall i :: 0 <= i < |ds| ==> ds[i].action != 0
    ensures RefDrain(b, ds).bid[0].p == RefDrain(b, ds).ask[0].p == 0
  {
    if ds == [] {
    } else {
      RefDrainKeepsPrices(b, ds[..|ds| - 1]);
    }
  }

  lemma RefStillStep(rs: RefState, p: Packet)
    requires RefStill(rs) && forall i :: 0 <= i < |p.deltas| ==> p.deltas[i].action != 0
    ensures RefStill(RefStep(rs, p)) && RefFeaturesOf(RefStep(rs, p)).vol == 0
  {
    var s0 := AfterReset(rs, p.flags);
    RefDrainKeepsPrices(s0.book, Replayed(p.flags, p.deltas));
    assert RefVol(0, 0, RefDt(s0.filters.lastTs, p.tSend)) == 0;
  }

  lemma {:induction false} RefVolIsZero(rs: RefState, ps: seq<Packet>)
    requires RefStill(rs) && NeverSets(ps)
    ensures forall k :: 0 <= k < |ps| ==> RunReference(rs, ps).features[k].vol == 0
    decreases |ps|
  {
    hide RefStill, RefPacket, RefFeaturesOf;
    if ps == [] {
    } else {
      RefStillStep(rs, ps[0]);
      RefVolIsZero(RefStep(rs, ps[0]), ps[1..]);
    }
  }

  // ---------- the whole path ----------

  lemma ReplayNeverSets(rows: seq<Row>, batch: int, pacing: Pacing, timing: Timing)
    requires batch >= 1
    ensures NeverSets(Packets(rows, batch, pacing, timing))
  {
    var ps := Packets(rows, batch, pacing, timing);
    BatchingConserves(rows, batch, pacing, timing);
    MappedFitsWire(rows);
    forall k, i | 0 <= k < |ps| && 0 <= i < |ps[k].deltas|
      ensures ps[k].deltas[i].action != 0
    {
      PayloadContains(ps, k, i);
    }
  }

  predicate ClockPositive(timing: Timing, n: nat) {
    forall k :: 0 <= k < n ==> 0 < timing.clock(k) <= MAX_U64
  }

  /** Only the first packet resets, and there is nothing to reset yet. */
  lemma {:induction false} PayloadCleanRun(b: RefBook, ps: seq<Packet>)
    requires forall k :: 0 <= k < |ps| ==> Parsable(ps[k]) && ps[k].tSend > 0
    requires forall k :: 0 <= k < |ps| && ResetBit(ps[k].flags) ==> k == 0 && b == RefReset().book
    requires DrainsCleanly(b, Payload(ps))
    ensures CleanRun(b, ps)
    decreases |ps|
  {
    hide Parsable, DrainsCleanly, OfiFits, RefDrain, RefReset, ResetBit;
    if ps == [] {
    } else {
      var p, rest := ps[0], ps[1..];
      CleanlySplits(b, p.deltas, Payload(rest));
      CleanOfiFits(b, p.deltas);
      assert BookFor(b, p.flags) == b;
      forall k | 0 <= k < |rest|
        ensures Parsable(rest[k]) && rest[k].tSend > 0 && !ResetBit(rest[k].flags)
      {
        assert rest[k] == ps[k + 1];
      }
      PayloadCleanRun(RefDrain(b, p.deltas), rest);
    }
  }

  lemma ReplayIsClean(rows: seq<Row>, batch: int, pacing: Pacing, timing: Timing)
    requires 1 <= batch <= MAX_DELTAS && DrainsCleanly(RefReset().book, Mapped(rows))
    requires ClockPositive(timing, |Packets(rows, batch, pacing, timing)|)
    ensures var ps := Packets(rows, batch, pacing, timing);
            && CleanRun(RefReset().book, ps) && ResetsHarmlessly(RefReset(), ps) && NeverSets(ps)
            && forall k :: 0 <= k < |ps| ==> Parsable(ps[k])
  {
    hide Packets, DrainsCleanly, Parsable, RefReset, ResetBit, NeverSets;
    var ps := Packets(rows, batch, pacing, timing);
    BatchingConserves(rows, batch, pacing, timing);
    forall k | 0 <= k < |ps|
      ensures Parsable(ps[k]) && ps[k].tSend > 0 && (ResetBit(ps[k].flags) <==> k == 0)
    {
      SentParsable(ps, rows, k, batch, timing);
    }
    PayloadCleanRun(RefReset().book, ps);
    ReplayNeverSets(rows, batch, pacing, timing);
  }

  /** Without a price ever set both volatilities are 0, so three features decide. */
  lemma EqualButVolIff(ps: seq<Packet>)
    requires NeverSets(ps)
    ensures var fs, gs := Run(Reset(), ps).features, RunReference(RefReset(), ps).features;
            fs == gs <==> SameRunButVol(fs, gs)
  {
    var fs, gs := Run(Reset(), ps).features, RunReference(RefReset(), ps).features;
    FabricVolIsZero(Reset(), ps);
    RefVolIsZero(RefReset(), ps);
    hide Run, RunReference, NeverSets;
    if SameRunButVol(fs, gs) {
      forall k | 0 <= k < |ps|
        ensures fs[k] == gs[k]
      {
        assert SameButVol(fs[k], gs[k]);
      }
    }
  }

  lemma {:induction false} FabricFeaturesFit(s: State, ps: seq<Packet>)
    requires Sound(s) && forall k :: 0 <= k < |ps| ==> Parsable(ps[k])
    ensures forall k :: 0 <= k < |ps| ==> FeaturesFit(Run(s, ps).features[k])
    decreases |ps|
  {
    hide Parsable, Packetized, Sound, FeaturesOf, FeaturesFit;
    if ps == [] {
    } else {
      SoundFeaturesFit(s, ps[0]);
      FabricFeaturesFit(FabricStep(s, ps[0]), ps[1..]);
    }
  }

  lemma SoundFeaturesFit(s: State, p: Packet)
    requires Sound(s) && Parsable(p)
    ensures Sound(FabricStep(s, p)) && FeaturesFit(FeaturesOf(FabricStep(s, p)))
  {
    PacketizedSound(s, p.tSend, p.deltas);
  }

  lemma {:induction false} RefOfiFits(b: RefBook, ds: seq<Delta>)
    requires IsI32(b.ofi)
    ensures IsI32(RefDrain(b, ds).ofi)
  {
    if ds == [] {
    } else {
      RefOfiFits(b, ds[..|ds| - 1]);
    }
  }

  lemma {:induction false} RefFeaturesFit(rs: RefState, ps: seq<Packet>)
    requires IsI32(rs.book.ofi)
    ensures forall k :: 0 <= k < |ps| ==> FeaturesFit(RunReference(rs, ps).features[k])
    decreases |ps|
  {
    hide RefPacket, RefFeaturesOf, FeaturesFit;
    if ps == [] {
    } else {
      RefStepFits(rs, ps[0]);
      RefFeaturesFit(RefStep(rs, ps[0]), ps[1..]);
    }
  }

  lemma RefStepFits(rs: RefState, p: Packet)
    requires IsI32(rs.book.ofi)
    ensures IsI32(RefStep(rs, p).book.ofi) && FeaturesFit(RefFeaturesOf(RefStep(rs, p)))
  {
    RefOfiFits(AfterReset(rs, p.flags).book, Replayed(p.flags, p.deltas));
  }

  /** The beats determine the features. */
  lemma EmittedEqualIff(fs: seq<Features>, gs: seq<Features>)
    requires |fs| == |gs| && forall k :: 0 <= k < |fs| ==> FeaturesFit(fs[k]) && FeaturesFit(gs[k])
    ensures Emitted(fs) == Emitted(gs) <==> fs == gs
  {
    hide Emit, FeaturesFit, Unpack;
    if Emitted(fs) == Emitted(gs) {
      forall k | 0 <= k < |fs|
        ensures fs[k] == gs[k]
      {
        assert Emitted(fs)[k] == Emitted(gs)[k];
        UnpackOfEmit(fs[k]);
        UnpackOfEmit(gs[k]);
      }
    }
  }

  /**
   The repository's packet-by-packet validation, for every CSV whose rows overflow nothing
   and every clock: the fabric consumes all its input, and its beats are those of the features
   the packet-level reference computes exactly when every packet agrees, which for a replay is
   a matter of the gaps alone.  How the two lay features out in bytes is the subject of
   `ReplyBytes`.
   */
  lemma FabricEqualsPacketReference(rows: seq<Row>, batch: int, pacing: Pacing, timing: Timing)
    requires 1 <= batch <= MAX_DELTAS && DrainsCleanly(RefReset().book, Mapped(rows))
    requires ClockPositive(timing, |Packets(rows, batch, pacing, timing)|)
    ensures var ps := Packets(rows, batch, pacing, timing);
            var pumped := Pump(Reset(), StreamBeats(ps), []);
            && pumped.input == [] && |pumped.output| == |ps|
            && (pumped.output == Emitted(RunReference(RefReset(), ps).features) <==> EveryPacketAgrees(Reset(), ps))
  {
    var ps := Packets(rows, batch, pacing, timing);
    ReplayIsClean(rows, batch, pacing, timing);
    ResetMatches();
    hide Packets, DrainsCleanly, ClockPositive, CleanRun, ResetsHarmlessly, NeverSets, Parsable, Emitted, SameRunButVol,
         Run, RunReference, EveryPacketAgrees, Sound, Matches, FeaturesFit, Pump;
    var fs, gs := Run(Reset(), ps).features, RunReference(RefReset(), ps).features;
    PumpRuns(Reset(), ps, []);
    EmptyPrefix(Emitted(fs));
    FabricFeaturesFit(Reset(), ps);
    RefFeaturesFit(RefReset(), ps);
    EmittedEqualIff(fs, gs);
    EqualButVolIff(ps);
    FeaturesAgreeIff(Reset(), RefReset(), ps);
  }

  /** A clock that moves forward by less than 2^32 ns makes every packet agree. */
  lemma SteadyClockAgrees(rows: seq<Row>, batch: int, pacing: Pacing, timing: Timing)
    requires 1 <= batch <= MAX_DELTAS && DrainsCleanly(RefReset().book, Mapped(rows))
    requires GoodClock(timing, |Packets(rows, batch, pacing, timing)|)
    ensures var ps := Packets(rows, batch, pacing, timing);
            && EveryPacketAgrees(Reset(), ps)
            && Pump(Reset(), StreamBeats(ps), []).output == Emitted(RunReference(RefReset(), ps).features)
  {
    var ps := Packets(rows, batch, pacing, timing);
    ReplayInScope(rows, batch, pacing, timing);
    ReplayIsClean(rows, batch, pacing, timing);
    ResetMatches();
    hide Packets, DrainsCleanly, CleanRun, ResetsHarmlessly, NeverSets, Parsable, Emitted, SameRunButVol, RunInScope,
         Run, RunReference, EveryPacketAgrees, Sound, Matches, Pump;
    RunRefines(Reset(), RefReset(), ps);
    FeaturesAgreeIff(Reset(), RefReset(), ps);
    FabricEqualsPacketReference(rows, batch, pacing, timing);
  }

  /** The prefix of the event stream that has been sent by the end of packet k. */
  lemma {:induction false} PrefixOfPayload(ps: seq<Packet>, k: nat)
    requires k < |ps|
    ensures Payload(ps[..k + 1]) <= Payload(ps)
  {
    PayloadAppend(ps[..k + 1], ps[k + 1..]);
    assert ps[..k + 1] + ps[k + 1..] == ps;
  }

  /**
   The offline check, for every batching and every clock: the OFI and imbalance of packet k
   equal the per-event reference's snapshot after as many events as the packets have carried.
   */
  lemma FabricMatchesEventReference(rows: seq<Row>, batch: int, pacing: Pacing, timing: Timing,
                                    ts: nat -> int, k: nat)
    requires batch >= 1 && DrainsCleanly(RefReset().book, Mapped(rows)) && SizesFit(rows)
    requires k < |Packets(rows, batch, pacing, timing)|
    ensures SameTopAfter(Packets(rows, batch, pacing, timing), RunEvents(rows, ts).out, k)
  {
    hide Packets, FeaturesOf, RefFeaturesOf, Packetized, RunEvents, DrainBook, RefDrain, DrainsCleanly;
    var ps := Packets(rows, batch, pacing, timing);
    BatchingConserves(rows, batch, pacing, timing);
    var ds := Mapped(rows);
    var sent := Payload(ps[..k + 1]);
    PrefixOfPayload(ps, k);
    SentSomething(ps, k);
    assert sent == ds[..|sent|];
    EventsMatchDeltas(rows, ts);
    assert ReadsTop(RunEvents(rows, ts).out[|sent| - 1], RefDrain(RefReset().book, ds[..|sent|]));
    FeatureReadsPayload(Reset(), ps, k);
    MappedDrainMatches(rows, sent);
  }

  /** OFI and imbalance of packet k are those of the last event that packets 0..k carried. */
  predicate SameTopAfter(ps: seq<Packet>, events: seq<Features>, k: nat)
    requires k < |ps|
  {
    var n := |Payload(ps[..k + 1])|;
    && 1 <= n <= |events|
    && Run(Reset(), ps).features[k].ofi == events[n - 1].ofi
    && Run(Reset(), ps).features[k].imbalance == events[n - 1].imbalance
  }

  /** The same about the beats: with packets the fabric can take, that is what leaves it. */
  lemma BeatsMatchEventReference(rows: seq<Row>, batch: int, pacing: Pacing, timing: Timing, ts: nat -> int)
    requires 1 <= batch <= MAX_DELTAS && DrainsCleanly(RefReset().book, Mapped(rows)) && SizesFit(rows)
    requires forall k :: 0 <= k < |Packets(rows, batch, pacing, timing)| ==> IsU64(timing.clock(k))
    ensures var ps := Packets(rows, batch, pacing, timing);
            && Pump(Reset(), StreamBeats(ps), [])
               == PumpResult(Run(Reset(), ps).state, [], Emitted(Run(Reset(), ps).features))
            && forall k :: 0 <= k < |ps| ==> SameTopAfter(ps, RunEvents(rows, ts).out, k)
  {
    hide Packets, WellSent, Parsable, DrainsCleanly, SameTopAfter, Pump, Run, Emitted, RunEvents;
    var ps := Packets(rows, batch, pacing, timing);
    BatchingConserves(rows, batch, pacing, timing);
    forall k | 0 <= k < |ps|
      ensures Parsable(ps[k]) && SameTopAfter(ps, RunEvents(rows, ts).out, k)
    {
      SentParsable(ps, rows, k, batch, timing);
      FabricMatchesEventReference(rows, batch, pacing, timing, ts, k);
    }
    PumpRuns(Reset(), ps, []);
    EmptyPrefix(Emitted(Run(Reset(), ps).features));
  }

  lemma SentSomething(ps: seq<Packet>, k: nat)
    requires k < |ps| && |ps[k].deltas| >= 1
    ensures |Payload(ps[..k + 1])| >= 1
  {
    assert ps[..k + 1] == ps[..k] + [ps[k]];
    PayloadAppend(ps[..k], [ps[k]]);
    assert Payload([ps[k]]) == ps[k].deltas + Payload([]);
  }

  /** Any prefix of the mapped rows leaves the same tops in the fabric and in the reference. */
  lemma MappedDrainMatches(rows: seq<Row>, ds: seq<Delta>)
    requires ds <= Mapped(rows) && DrainsCleanly(RefReset().book, Mapped(rows))
    ensures var b, rb := DrainBook(Reset().book, ds), RefDrain(RefReset().book, ds);
            && b.ofi == rb.ofi
            && Imbalance(b.bestBidQty, b.bestAskQty) == RefImbalance(rb.bid[0].q, rb.ask[0].q)
  {
    assert Mapped(rows)[..|ds|] == ds;
    CleanPrefix(RefReset().book, Mapped(rows), |ds|);
    ResetMatches();
    DrainMatches(Reset().book, RefReset().book, ds);
    var b := DrainBook(Reset().book, ds);
    ImbalanceMatches(b.bestBidQty, b.bestAskQty);
  }
}

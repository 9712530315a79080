/**
 What the feature pipeline computes, on values: the book update, the feature
 computation, one packet, and the endless packet pump.  `FeaturePipeline` is the
 register-level form that is proved to compute these functions.
 */
module Fabric {
  import opened Words
  import opened Wire

  const TAU_BURST_NS := 200_000
  const TAU_VOL_NS := 2_000_000
  const ONE_Q16 := 0x1_0000

  datatype Levels = Levels(price: seq<int>, qty: seq<int>)

  function EmptyLevels(): Levels { Levels(Filled(BOOK_LEVELS, 0), Filled(BOOK_LEVELS, 0)) }

  /** One side of the book: 16 levels. */
  type Side = s: Levels | |s.price| == |s.qty| == BOOK_LEVELS witness EmptyLevels()

  /** The book registers, with the cached best levels and the OFI accumulator. */
  datatype Book = Book(bid: Side, ask: Side,
                       bestBidPx: int, bestAskPx: int, bestBidQty: int, bestAskQty: int,
                       ofi: int)

  /** The registers of the time-dependent filters. */
  datatype Filters = Filters(lastT: nat, burst: nat, vol: nat, midPrev: int)

  datatype State = State(book: Book, filters: Filters)

  /** A beat on the feature stream: a 128-bit word and TLAST. */
  datatype FeatureBeat = FeatureBeat(word: nat, last: bool)

  function EmptyBook(): Book { Book(EmptyLevels(), EmptyLevels(), 0, 0, 0, 0, 0) }

  /** Power-on state. */
  function Reset(): State { State(EmptyBook(), Filters(0, 0, 0, 0)) }

  // ---------- book update ----------

  /** The quantity a delta leaves in its level, after the non-negative clamp. */
  function NextQty(qty: int, d: Delta): int {
    var q := if d.action == 0 then d.qty
             else if d.action == 1 || d.action == 2 then Wrap32(qty + d.qty)
             else if d.action == 3 then 0
             else qty;
    if q < 0 then 0 else q
  }

  function UpdateSide(s: Side, d: Delta): Side {
    if d.level < BOOK_LEVELS then
      Levels(if d.action == 0 then s.price[d.level := d.price] else s.price,
             s.qty[d.level := NextQty(s.qty[d.level], d)])
    else
      s
  }

  function NextOfi(ofi: int, d: Delta): int {
    if d.action == 1 || d.action == 2 then
      if d.side == 0 then Wrap32(ofi + d.qty) else Wrap32(ofi - d.qty)
    else
      ofi
  }

  function UpdateBook(b: Book, d: Delta): Book {
    var bid := if d.side == 0 then UpdateSide(b.bid, d) else b.bid;
    var ask := if d.side == 0 then b.ask else UpdateSide(b.ask, d);
    Book(bid, ask, bid.price[0], ask.price[0], bid.qty[0], ask.qty[0], NextOfi(b.ofi, d))
  }

  function DrainBook(b: Book, ds: seq<Delta>): Book {
    if ds == [] then b else UpdateBook(DrainBook(b, ds[..|ds| - 1]), ds[|ds| - 1])
  }

  // ---------- features ----------

  /** The gap since the last packet; 0 in `lastT` means "none yet". */
  function Dt(lastT: nat, t: nat): nat {
    if lastT == 0 then 0 else Min((t - lastT) % 0x1_0000_0000_0000_0000, MAX_U32)
  }

  function Imbalance(bidQty: int, askQty: int): int {
    var den := bidQty + askQty;
    if den == 0 then 0 else Clamp(TruncDiv((bidQty - askQty) * 0x8000, den), -0x8000, 0x7FFF)
  }

  function Burst(burst: nat, dt: nat): nat {
    Clamp(burst - burst * dt / TAU_BURST_NS + ONE_Q16, 0, MAX_U32)
  }

  /** `(bid + ask) >> 1`, an arithmetic shift. */
  function Mid(bidPx: int, askPx: int): int {
    (bidPx + askPx) / 2
  }

  function MidMove(mid: int, midPrev: int): nat {
    Abs(Wrap32(mid - midPrev))
  }

  function Vol(vol: nat, move: nat, dt: nat): nat {
    Clamp(vol + TruncDiv((move * ONE_Q16 - vol) * dt, TAU_VOL_NS), 0, MAX_U32)
  }

  function NextFilters(b: Book, f: Filters, t: nat): Filters {
    var dt := Dt(f.lastT, t);
    var mid := Mid(b.bestBidPx, b.bestAskPx);
    Filters(t, Burst(f.burst, dt), Vol(f.vol, MidMove(mid, f.midPrev), dt), mid)
  }

  function FeaturesOf(s: State): Features {
    Features(s.book.ofi, Imbalance(s.book.bestBidQty, s.book.bestAskQty), s.filters.burst, s.filters.vol)
  }

  // ---------- packets ----------

  function Packetized(s: State, t: nat, ds: seq<Delta>): State {
    var b := DrainBook(s.book, ds);
    State(b, NextFilters(b, s.filters, t))
  }

  datatype RunResult = RunResult(state: State, features: seq<Features>)

  /** One feature vector per packet. */
  function Run(s: State, ps: seq<Packet>): (r: RunResult)
    ensures |r.features| == |ps|
    decreases |ps|
  {
    if ps == [] then RunResult(s, [])
    else
      var s' := Packetized(s, ps[0].tSend, ps[0].deltas);
      var rest := Run(s', ps[1..]);
      RunResult(rest.state, [FeaturesOf(s')] + rest.features)
  }

  /** The feature word: each field in the low bytes first. */
  function FeatureBytes(f: Features): (bs: seq<Byte>)
    ensures |bs| == 16
  {
    LeEncode(U32(f.ofi), 4) + LeEncode(U16(f.imbalance), 2) + LeEncode(0, 2)
    + LeEncode(U32(f.burst), 4) + LeEncode(U32(f.vol), 4)
  }

  function Emit(f: Features): FeatureBeat {
    FeatureBeat(LeWord(FeatureBytes(f)), true)
  }

  function DeltasOf(fifo: seq<FifoDelta>): (ds: seq<Delta>)
    ensures |ds| == |fifo|
  {
    seq(|fifo|, i requires 0 <= i < |fifo| => fifo[i].delta)
  }

  datatype PumpResult = PumpResult(state: State, input: seq<nat>, output: seq<FeatureBeat>)

  /** Runs until the input blocks in the middle of a packet or is exhausted. */
  function Pump(s: State, input: seq<nat>, output: seq<FeatureBeat>): PumpResult
    decreases |input|
  {
    if !HasPacket(input) then PumpResult(s, input, output)
    else
      var p := ParsePacket(input);
      var s' := Packetized(s, p.tSend, DeltasOf(p.fifo));
      Pump(s', input[Consumed(input)..], output + [Emit(FeaturesOf(s'))])
  }

  // ---------- every beat ends a packet ----------

  predicate AllLast(beats: seq<FeatureBeat>) {
    forall k :: 0 <= k < |beats| ==> beats[k].last
  }

  lemma EmitIsLast(f: Features)
    ensures Emit(f).last
  {
  }

  /** Whatever the input: what was written stays, and every beat written after it carries TLAST. */
  lemma {:induction false} PumpMarksEveryBeat(s: State, input: seq<nat>, output: seq<FeatureBeat>)
    ensures output <= Pump(s, input, output).output
    ensures AllLast(Pump(s, input, output).output[|output|..])
    decreases |input|
  {
    hide Emit, Packetized, FeaturesOf;
    if !HasPacket(input) {
    } else {
      var p := ParsePacket(input);
      var s' := Packetized(s, p.tSend, DeltasOf(p.fifo));
      var beat := Emit(FeaturesOf(s'));
      EmitIsLast(FeaturesOf(s'));
      PumpMarksEveryBeat(s', input[Consumed(input)..], output + [beat]);
      var all := Pump(s, input, output).output;
      assert all[|output|] == (output + [beat])[|output|];
      assert forall k :: 0 < k < |all| - |output| ==>
        all[|output|..][k] == all[|output| + 1..][k - 1];
    }
  }

  // ---------- every reachable state is in range ----------

  predicate SideSound(s: Side) {
    && (forall i :: 0 <= i < BOOK_LEVELS ==> IsI32(s.price[i]))
    && (forall i :: 0 <= i < BOOK_LEVELS ==> 0 <= s.qty[i] <= MAX_I32)
  }

  /** The cached best registers hold level 0. */
  predicate CacheIsTop(b: Book) {
    && b.bestBidPx == b.bid.price[0] && b.bestBidQty == b.bid.qty[0]
    && b.bestAskPx == b.ask.price[0] && b.bestAskQty == b.ask.qty[0]
  }

  predicate BookSound(b: Book) {
    SideSound(b.bid) && SideSound(b.ask) && CacheIsTop(b) && IsI32(b.ofi)
  }

  predicate FiltersSound(f: Filters) {
    IsU64(f.lastT) && IsU32(f.burst) && IsU32(f.vol) && IsI32(f.midPrev)
  }

  predicate Sound(s: State) { BookSound(s.book) && FiltersSound(s.filters) }

  lemma UpdateBookSound(b: Book, d: Delta)
    requires BookSound(b) && IsI32(d.price) && IsI32(d.qty)
    ensures BookSound(UpdateBook(b, d))
  {
  }

  lemma {:induction false} DrainBookSound(b: Book, ds: seq<Delta>)
    requires BookSound(b)
    requires forall i :: 0 <= i < |ds| ==> IsI32(ds[i].price) && IsI32(ds[i].qty)
    ensures BookSound(DrainBook(b, ds))
  {
    if ds == [] {
    } else {
      DrainBookSound(b, ds[..|ds| - 1]);
      UpdateBookSound(DrainBook(b, ds[..|ds| - 1]), ds[|ds| - 1]);
    }
  }

  lemma PacketizedSound(s: State, t: nat, ds: seq<Delta>)
    requires Sound(s) && IsU64(t)
    requires forall i :: 0 <= i < |ds| ==> IsI32(ds[i].price) && IsI32(ds[i].qty)
    ensures Sound(Packetized(s, t, ds))
  {
    DrainBookSound(s.book, ds);
  }

  lemma {:induction false} BeDecodeBound(bs: seq<Byte>)
    ensures BeDecode(bs) < Pow256(|bs|)
  {
    if bs == [] {
    } else {
      BeDecodeBound(bs[..|bs| - 1]);
    }
  }

  /**
   Whatever beats arrive, well formed or not: the registers stay in their declared
   ranges, quantities stay non-negative and the best-level cache stays level 0.
   */
  lemma {:induction false} PumpSound(s: State, input: seq<nat>, output: seq<FeatureBeat>)
    requires Sound(s)
    ensures Sound(Pump(s, input, output).state)
    decreases |input|
  {
    if HasPacket(input) {
      var p := ParsePacket(input);
      var ds := DeltasOf(p.fifo);
      assert IsU64(p.tSend) by {
        BeDecodeBound(BeatBytes(input[1])[6..8] + BeatBytes(input[2])[0..6]);
        Pow256Values();
      }
      assert forall i :: 0 <= i < |ds| ==> ds[i] == DeltaOfBeats(input[4 + 2 * i], input[5 + 2 * i]);
      PacketizedSound(s, p.tSend, ds);
      var s' := Packetized(s, p.tSend, ds);
      PumpSound(s', input[Consumed(input)..], output + [Emit(FeaturesOf(s'))]);
    }
  }

  /*
   The declared widths suffice: in a sound state no intermediate of the feature
   computation leaves the `ap_int` it is assigned to (33, 48, 32 and 64 bits), so
   computing them in unbounded integers is exact.  Only the mid difference can wrap.
   */

  lemma ImbalanceFits(b: Book)
    requires BookSound(b)
    ensures var num, den := b.bestBidQty - b.bestAskQty, b.bestBidQty + b.bestAskQty;
            && -0x1_0000_0000 <= num < 0x1_0000_0000 && 0 <= den < 0x1_0000_0000
            && -0x8000_0000_0000 <= num * 0x8000 < 0x8000_0000_0000
            && (den != 0 ==> -0x8000 <= TruncDiv(num * 0x8000, den) <= 0x8000)
  {
    ImbalanceQuotient(b.bestBidQty, b.bestAskQty);
  }

  lemma BurstFits(f: Filters, t: nat)
    requires FiltersSound(f)
    ensures var dt := Dt(f.lastT, t);
            && IsU32(dt)
            && 0 <= f.burst * dt / TAU_BURST_NS
            && f.burst * dt / TAU_BURST_NS + MAX_U32 + ONE_Q16 < 0x8000_0000_0000_0000
  {
  }

  lemma VolFits(b: Book, f: Filters, dt: nat)
    requires BookSound(b) && FiltersSound(f) && IsU32(dt)
    ensures var mid := Mid(b.bestBidPx, b.bestAskPx);
            var num := MidMove(mid, f.midPrev) * ONE_Q16 - f.vol;
            && IsI32(mid)
            && -0x8000_0000_0000_0000 <= num < 0x8000_0000_0000_0000
            && -0x4000_0000_0000_0000 <= TruncDiv(num * dt, TAU_VOL_NS) < 0x4000_0000_0000_0000
  {
    var num := MidMove(Mid(b.bestBidPx, b.bestAskPx), f.midPrev) * ONE_Q16 - f.vol;
    TruncQuotientBound(num, dt);
  }

  /** x / d rounded up and saturated to 32 bits. */
  predicate SaturatedCeil(v: int, x: int, d: nat) {
    && IsU32(v)
    && (v == 0 ==> x <= 0)
    && (0 < v < MAX_U32 ==> d * (v - 1) < x <= d * v)
    && (v == MAX_U32 ==> d * (v - 1) < x)
  }

  /** x / d rounded down and saturated to 32 bits. */
  predicate SaturatedFloor(v: int, x: int, d: nat) {
    && IsU32(v)
    && (v == 0 ==> x < d)
    && (0 < v < MAX_U32 ==> d * v <= x < d * (v + 1))
    && (v == MAX_U32 ==> d * v <= x)
  }

  /** The bucket after a leak of dt/tau of its content and one arrival, rounded up. */
  lemma BurstMeaning(burst: nat, dt: nat)
    ensures SaturatedCeil(Burst(burst, dt), 200_000 * (burst + 0x1_0000) - burst * dt, 200_000)
  {
  }

  /** The old volatility moved by dt/tau of its distance to the scaled mid move, rounded toward the old one. */
  predicate IsVolStep(v: int, vol: nat, move: nat, dt: nat) {
    var exact := 2_000_000 * vol + (move * 0x1_0000 - vol) * dt;
    if move * 0x1_0000 >= vol then SaturatedFloor(v, exact, 2_000_000) else SaturatedCeil(v, exact, 2_000_000)
  }

  lemma VolMeaning(vol: nat, move: nat, dt: nat)
    requires vol <= MAX_U32
    ensures IsVolStep(Vol(vol, move, dt), vol, move, dt)
  {
    var num := move * ONE_Q16 - vol;
    if num >= 0 {
      assert num * dt >= 0;
    } else {
      assert num * dt <= 0;
    }
  }

  lemma TruncQuotientBound(num: int, dt: nat)
    requires Abs(num) <= 0x1_0000_0000_0000 && dt <= MAX_U32
    ensures -0x4000_0000_0000_0000 <= TruncDiv(num * dt, TAU_VOL_NS) < 0x4000_0000_0000_0000
  {
    ProductBound(Abs(num), dt, 0x1_0000_0000_0000, MAX_U32);
    assert (-num) * dt == -(num * dt);
    assert Abs(num * dt) == Abs(num) * dt;
  }

  lemma ProductBound(a: nat, b: nat, m: nat, n: nat)
    requires a <= m && b <= n
    ensures 0 <= a * b <= m * n
  {
  }

  lemma ImbalanceQuotient(bidQty: nat, askQty: nat)
    ensures var num, den := bidQty - askQty, bidQty + askQty;
            den != 0 ==> -0x8000 <= TruncDiv(num * 0x8000, den) <= 0x8000
  {
    var num, den := bidQty - askQty, bidQty + askQty;
    if den != 0 {
      QuotientAtMost(Abs(num) * 0x8000, den, 0x8000);
      assert Abs(num * 0x8000) == Abs(num) * 0x8000;
    }
  }

  lemma QuotientAtMost(a: nat, b: nat, k: nat)
    requires b > 0 && a <= b * k
    ensures a / b <= k
  {
  }
}

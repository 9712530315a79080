/**
 Run-level bounds on the two time filters: the leaky bucket's rate bound, the
 volatility's range, and how far the fabric's truncating volatility can drift from
 the reference's flooring one.
 */
module FilterBounds {
  import opened Words
  import opened Wire
  import opened Fabric
  import opened PacketReference
  import opened Refinement

  // ---------- leaky bucket ----------

  const BURST_BOUND := (ONE_Q16 + 1) * TAU_BURST_NS

  /** One step, for any gap of at least `d`, where `d` is at most the time constant. */
  lemma BurstStepBound(burst: nat, dt: nat, d: nat)
    requires 1 <= d <= TAU_BURST_NS && d <= dt
    requires burst * d <= BURST_BOUND
    ensures Burst(burst, dt) * d <= BURST_BOUND
  {
    var q := burst * dt / TAU_BURST_NS;
    var v := burst - q + ONE_Q16;
    assert TAU_BURST_NS * q > burst * dt - TAU_BURST_NS;
    if v > ONE_Q16 {
      // the bucket still holds something after the decay, so the gap is below the time constant
      LeftoverBound(burst, q, dt, d);
      MulLe(Burst(burst, dt), v, d);
    } else {
      MulLe(Burst(burst, dt), ONE_Q16, d);
    }
  }

  lemma MulLe(a: int, b: int, d: nat)
    requires a <= b
    ensures a * d <= b * d
  {
  }

  lemma LeftoverBound(burst: nat, q: nat, dt: nat, d: nat)
    requires 1 <= d <= TAU_BURST_NS && d <= dt
    requires burst * d <= BURST_BOUND
    requires TAU_BURST_NS * q > burst * dt - TAU_BURST_NS
    ensures (burst - q + ONE_Q16) * d <= BURST_BOUND
  {
    var v := burst - q + ONE_Q16;
    MulLe(d, dt, burst);
    assert burst * dt >= burst * d;
    // TAU * v <= TAU * (burst + ONE_Q16 + 1) - burst * d
    assert TAU_BURST_NS * v <= TAU_BURST_NS * burst - burst * d + BURST_BOUND;
    MulLe(TAU_BURST_NS * v, TAU_BURST_NS * burst - burst * d + BURST_BOUND, d);
    var x := burst * d;
    assert (TAU_BURST_NS * burst - x + BURST_BOUND) * d == TAU_BURST_NS * x - x * d + BURST_BOUND * d;
    MulLe(x, BURST_BOUND, TAU_BURST_NS - d);
    assert x * (TAU_BURST_NS - d) == TAU_BURST_NS * x - x * d;
    assert BURST_BOUND * (TAU_BURST_NS - d) == BURST_BOUND * TAU_BURST_NS - BURST_BOUND * d;
    assert (TAU_BURST_NS * v) * d == TAU_BURST_NS * (v * d);
  }

  /** Send times are positive and each is at least `d` after the one before. */
  predicate GapsAtLeast(lastT: nat, ps: seq<Packet>, d: nat)
    decreases |ps|
  {
    ps != [] ==>
      && 0 < ps[0].tSend <= MAX_U64
      && (lastT != 0 ==> lastT + d <= ps[0].tSend)
      && GapsAtLeast(ps[0].tSend, ps[1..], d)
  }

  lemma GapAtLeast(lastT: nat, t: nat, d: nat)
    requires 0 < lastT && lastT + d <= t <= MAX_U64 && d <= MAX_U32
    ensures Dt(lastT, t) >= d
  {
  }

  /** For every run of packets at least `d` apart: burst * min(d, tau) <= 65537 * tau. */
  lemma {:induction false} BurstRateBound(s: State, ps: seq<Packet>, d: nat)
    requires d >= 1 && GapsAtLeast(s.filters.lastT, ps, d)
    requires if s.filters.lastT == 0 then s.filters.burst == 0
             else s.filters.burst * Min(d, TAU_BURST_NS) <= BURST_BOUND
    ensures forall k :: 0 <= k < |ps| ==>
              Run(s, ps).features[k].burst * Min(d, TAU_BURST_NS) <= BURST_BOUND
    decreases |ps|
  {
    if ps == [] {
    } else {
      var s' := FabricStep(s, ps[0]);
      if s.filters.lastT == 0 {
        assert s'.filters.burst == ONE_Q16;
        MulLe(Min(d, TAU_BURST_NS), TAU_BURST_NS, ONE_Q16);
      } else {
        GapAtLeast(s.filters.lastT, ps[0].tSend, Min(d, TAU_BURST_NS));
        BurstStepBound(s.filters.burst, Dt(s.filters.lastT, ps[0].tSend), Min(d, TAU_BURST_NS));
      }
      BurstRateBound(s', ps[1..], d);
    }
  }

  // ---------- micro-volatility: range ----------

  predicate Between(x: int, a: int, b: int) { Min(a, b) <= x <= Max(a, b) }

  /** `num * dt / tau` moves toward the target and does not pass it. */
  lemma QuotientWithin(num: int, dt: nat)
    requires dt <= TAU_VOL_NS
    ensures var q := TruncDiv(num * dt, TAU_VOL_NS);
            if num >= 0 then 0 <= q <= num else num <= q <= 0
  {
  }

  lemma VolStaysBetween(vol: nat, move: nat, dt: nat)
    requires vol <= MAX_U32 && dt <= TAU_VOL_NS
    ensures Between(Vol(vol, move, dt), vol, move * ONE_Q16)
  {
    QuotientWithin(move * ONE_Q16 - vol, dt);
  }

  /** The filter never overshoots exactly when the gap is within the time constant. */
  lemma VolStaysBetweenIff(dt: nat)
    ensures (forall vol: nat, move: nat :: vol <= MAX_U32 ==> Between(Vol(vol, move, dt), vol, move * ONE_Q16))
       <==> dt <= TAU_VOL_NS
  {
    if dt <= TAU_VOL_NS {
      forall vol: nat, move: nat | vol <= MAX_U32
        ensures Between(Vol(vol, move, dt), vol, move * ONE_Q16)
      {
        VolStaysBetween(vol, move, dt);
      }
    } else {
      var vol: nat, move: nat := 31_616, 31;
      assert move * ONE_Q16 - vol == TAU_VOL_NS;
      assert TruncDiv(TAU_VOL_NS * dt, TAU_VOL_NS) == dt;
      assert !Between(Vol(vol, move, dt), vol, move * ONE_Q16);
    }
  }

  /** Every packet moves the mid by at most `m` and comes within the time constant. */
  predicate MovesAtMost(s: State, ps: seq<Packet>, m: nat)
    decreases |ps|
  {
    ps != [] ==>
      var s' := FabricStep(s, ps[0]);
      && Dt(s.filters.lastT, ps[0].tSend) <= TAU_VOL_NS
      && MidMove(s'.filters.midPrev, s.filters.midPrev) <= m
      && MovesAtMost(s', ps[1..], m)
  }

  /** The volatility never exceeds 65536 times the largest mid move of the run. */
  lemma {:induction false} VolRunBound(s: State, ps: seq<Packet>, m: nat)
    requires MovesAtMost(s, ps, m) && s.filters.vol <= Min(m * ONE_Q16, MAX_U32)
    ensures forall k :: 0 <= k < |ps| ==> Run(s, ps).features[k].vol <= m * ONE_Q16
    decreases |ps|
  {
    if ps == [] {
    } else {
      var s' := FabricStep(s, ps[0]);
      VolStaysBetween(s.filters.vol, MidMove(s'.filters.midPrev, s.filters.midPrev), Dt(s.filters.lastT, ps[0].tSend));
      VolRunBound(s', ps[1..], m);
    }
  }

  // ---------- micro-volatility: drift between the two roundings ----------

  /** The step the reference takes, before its clamp. */
  function FloorStep(v: int, target: int, dt: nat): int {
    v + FloorDiv((target - v) * dt, TAU_VOL)
  }

  lemma TruncIsFloorOrOneMore(a: int)
    ensures TruncDiv(a, TAU_VOL)
         == if a >= 0 || a % TAU_VOL == 0 then FloorDiv(a, TAU_VOL) else FloorDiv(a, TAU_VOL) + 1
  {
  }

  /** How much two floors differ when their arguments differ by between 0 and k whole steps. */
  lemma FloorDifference(a: int, b: int, k: nat)
    requires a <= b <= a + k * TAU_VOL
    ensures 0 <= FloorDiv(b, TAU_VOL) - FloorDiv(a, TAU_VOL) <= k
  {
  }

  /** For v >= w the floor step keeps the order up to tau, and is 1-Lipschitz up to 2 tau. */
  lemma FloorStepLipschitz(v: int, w: int, target: int, dt: nat)
    requires w <= v && dt <= 2 * TAU_VOL
    ensures Abs(FloorStep(v, target, dt) - FloorStep(w, target, dt)) <= v - w
    ensures dt <= TAU_VOL ==> FloorStep(w, target, dt) <= FloorStep(v, target, dt)
  {
    var x := v - w;
    var a, b := (target - v) * dt, (target - w) * dt;
    assert b - a == x * dt;
    MulLe(0, dt, x);
    if dt <= TAU_VOL {
      MulLe(dt, TAU_VOL, x);
      FloorDifference(a, b, x);
    } else {
      MulLe(dt, 2 * TAU_VOL, x);
      FloorDifference(a, b, 2 * x);
    }
  }

  lemma VolAsFloor(vol: nat, move: nat, dt: nat)
    ensures var f := FloorStep(vol, move * ONE_Q16, dt);
            Vol(vol, move, dt) == Clamp(f, 0, MAX_U32) || Vol(vol, move, dt) == Clamp(f + 1, 0, MAX_U32)
  {
  }

  /** On the same input and state the two roundings agree exactly in these cases. */
  lemma VolStepMatchesIff(vol: nat, move: nat, dt: nat)
    requires vol <= MAX_U32
    ensures var num := (move * ONE_Q16 - vol) * dt;
            Vol(vol, move, dt) == RefVol(vol, move, dt)
            <==> num >= 0 || num % TAU_VOL_NS == 0 || vol + TruncDiv(num, TAU_VOL_NS) <= 0
  {
  }

  /** One packet adds at most 1 to the drift, whatever the two levels, for gaps up to 2 tau. */
  lemma DriftStep(v: nat, w: nat, move: nat, dt: nat)
    requires dt <= 2 * TAU_VOL
    ensures Abs(Vol(v, move, dt) - RefVol(w, move, dt)) <= Abs(v - w) + 1
  {
    VolAsFloor(v, move, dt);
    if w <= v {
      FloorStepLipschitz(v, w, move * ONE_Q16, dt);
    } else {
      FloorStepLipschitz(w, v, move * ONE_Q16, dt);
    }
  }

  /** Up to tau the fabric is never below the reference. */
  lemma DriftStepOneSided(v: nat, w: nat, move: nat, dt: nat)
    requires w <= v && dt <= TAU_VOL
    ensures 0 <= Vol(v, move, dt) - RefVol(w, move, dt) <= v - w + 1
  {
    VolAsFloor(v, move, dt);
    FloorStepLipschitz(v, w, move * ONE_Q16, dt);
  }

  predicate DriftGrowsByAtMostOne(v: nat, w: nat, move: nat, dt: nat) {
    Abs(Vol(v, move, dt) - RefVol(w, move, dt)) <= Abs(v - w) + 1
  }

  /** Beyond 2 tau some pair of levels drifts apart by more. */
  lemma DriftStepIff(dt: nat)
    ensures (forall v: nat, w: nat, move: nat | v <= MAX_U32 && w <= MAX_U32 :: DriftGrowsByAtMostOne(v, w, move, dt))
       <==> dt <= 2 * TAU_VOL
  {
    if dt <= 2 * TAU_VOL {
      forall v: nat, w: nat, move: nat | v <= MAX_U32 && w <= MAX_U32
        ensures DriftGrowsByAtMostOne(v, w, move, dt)
      {
        DriftStep(v, w, move, dt);
      }
    } else {
      var v, w, move := DriftWitness(dt);
    }
  }

  lemma DriftWitness(dt: nat) returns (v: nat, w: nat, move: nat)
    requires dt > 2 * TAU_VOL
    ensures v <= MAX_U32 && w <= MAX_U32 && !DriftGrowsByAtMostOne(v, w, move, dt)
  {
    if dt < 4 * TAU_VOL {
      v, w, move := 0, 3 * TAU_VOL, 100;
      var whole, part := 6_553_600 * dt, 553_600 * dt;
      assert whole == part + TAU_VOL * (3 * dt);
      assert whole / TAU_VOL == part / TAU_VOL + 3 * dt;
    } else {
      v, w, move := 0xFFFF, 0x1_0000, 1;
      assert RefVol(w, move, dt) == 0x1_0000;
      assert dt / TAU_VOL >= 4;
    }
  }

  /** The mid difference is a 32-bit word in the fabric. */
  lemma MidMoveExactIff(mid: int, midPrev: int)
    requires IsI32(mid) && IsI32(midPrev)
    ensures MidMove(mid, midPrev) == Abs(mid - midPrev) <==> Abs(mid - midPrev) <= 0x8000_0000
  {
  }

  /** How far a packet moves the reference's mid. */
  function RefMove(rs: RefState, p: Packet): nat {
    Abs(RefMid(RefDrain(rs.book, p.deltas)) - rs.filters.midPrev)
  }

  /** From a book, a mid and a send time on: no mid difference wraps and no gap exceeds `maxGap`. */
  ghost predicate VolScopeFrom(b: RefBook, mid: int, lastTs: Option<int>, ps: seq<Packet>, maxGap: nat)
    decreases |ps|
  {
    ps != [] ==>
      var b' := RefDrain(b, ps[0].deltas);
      && RefDt(lastTs, ps[0].tSend) <= maxGap
      && Abs(RefMid(b') - mid) <= 0x8000_0000
      && VolScopeFrom(b', RefMid(b'), Some(ps[0].tSend), ps[1..], maxGap)
  }

  ghost predicate VolInScope(rs: RefState, ps: seq<Packet>, maxGap: nat) {
    VolScopeFrom(rs.book, rs.filters.midPrev, rs.filters.lastTs, ps, maxGap)
  }

  lemma VolScopeStep(rs: RefState, ps: seq<Packet>, maxGap: nat)
    requires ps != [] && PacketInScope(rs, ps[0]) && VolInScope(rs, ps, maxGap)
    ensures RefDt(rs.filters.lastTs, ps[0].tSend) <= maxGap
    ensures RefMove(rs, ps[0]) <= 0x8000_0000
    ensures VolInScope(RefStep(rs, ps[0]), ps[1..], maxGap)
  {
    hide PacketInScope, RefStep, RefDrain, RefMid, RefDt;
    RefStepInScope(rs, ps[0]);
  }

  lemma SameFilterInputs(b: Book, rb: RefBook, f: Filters, rf: RefFilters, t: nat)
    requires BookSound(b) && BookMatches(b, rb)
    requires FiltersSound(f) && FiltersMatch(f, rf) && TimeAdvances(rf.lastTs, t)
    requires Abs(RefMid(rb) - rf.midPrev) <= 0x8000_0000
    ensures NextFilters(b, f, t).vol == Vol(f.vol, Abs(RefMid(rb) - rf.midPrev), RefDt(rf.lastTs, t))
    ensures NextRefFilters(rb, rf, t).vol == RefVol(rf.vol, Abs(RefMid(rb) - rf.midPrev), RefDt(rf.lastTs, t))
    ensures RefDt(rf.lastTs, t) >= 0
  {
    if f.lastT != 0 {
      GapMatchesIff(f.lastT, t);
    }
    MidMoveExactIff(Mid(b.bestBidPx, b.bestAskPx), f.midPrev);
  }

  lemma StepUnfolds(s: State, rs: RefState, p: Packet)
    requires PacketInScope(rs, p)
    ensures FabricStep(s, p).filters == NextFilters(DrainBook(s.book, p.deltas), s.filters, p.tSend)
    ensures RefStep(rs, p).filters == NextRefFilters(RefDrain(rs.book, p.deltas), rs.filters, p.tSend)
  {
    RefStepInScope(rs, p);
  }

  lemma BooksInScope(s: State, rs: RefState, p: Packet)
    requires Sound(s) && Matches(s, rs) && PacketInScope(rs, p)
    ensures BookSound(DrainBook(s.book, p.deltas))
    ensures BookMatches(DrainBook(s.book, p.deltas), RefDrain(rs.book, p.deltas))
    ensures FiltersSound(s.filters) && FiltersMatch(s.filters, rs.filters) && TimeAdvances(rs.filters.lastTs, p.tSend)
  {
    DrainMatches(s.book, rs.book, p.deltas);
  }

  /** In scope both filters see the same target and the same gap. */
  lemma SameVolInputs(s: State, rs: RefState, p: Packet)
    requires Sound(s) && Matches(s, rs) && PacketInScope(rs, p) && RefMove(rs, p) <= 0x8000_0000
    ensures RefDt(rs.filters.lastTs, p.tSend) >= 0
    ensures FabricStep(s, p).filters.vol == Vol(s.filters.vol, RefMove(rs, p), RefDt(rs.filters.lastTs, p.tSend))
    ensures RefStep(rs, p).filters.vol == RefVol(rs.filters.vol, RefMove(rs, p), RefDt(rs.filters.lastTs, p.tSend))
  {
    hide FabricStep, RefStep, PacketInScope, Sound, Matches, RefDrain, DrainBook, NextFilters, NextRefFilters,
         RefMid, RefDt, Vol, RefVol, BookSound, BookMatches, FiltersSound, FiltersMatch, TimeAdvances;
    StepUnfolds(s, rs, p);
    BooksInScope(s, rs, p);
    SameFilterInputs(DrainBook(s.book, p.deltas), RefDrain(rs.book, p.deltas), s.filters, rs.filters, p.tSend);
  }

  /** One packet of a run adds at most 1 to the drift. */
  lemma PacketDrift(s: State, rs: RefState, p: Packet)
    requires Sound(s) && Matches(s, rs) && PacketInScope(rs, p) && RefMove(rs, p) <= 0x8000_0000
    requires RefDt(rs.filters.lastTs, p.tSend) <= 2 * TAU_VOL && rs.filters.vol >= 0
    ensures Abs(FabricStep(s, p).filters.vol - RefStep(rs, p).filters.vol) <= Abs(s.filters.vol - rs.filters.vol) + 1
    ensures RefStep(rs, p).filters.vol >= 0
  {
    hide FabricStep, RefStep, RefMove, Vol;
    SameVolInputs(s, rs, p);
    DriftStep(s.filters.vol, rs.filters.vol, RefMove(rs, p), RefDt(rs.filters.lastTs, p.tSend));
  }

  ghost predicate DriftsWithin(fs: seq<Features>, gs: seq<Features>, x: nat) {
    |fs| == |gs| && forall k :: 0 <= k < |fs| ==> Abs(fs[k].vol - gs[k].vol) <= x + k + 1
  }

  lemma DriftsWithinCons(f: Features, fs: seq<Features>, g: Features, gs: seq<Features>, x: nat)
    requires Abs(f.vol - g.vol) <= x + 1 && DriftsWithin(fs, gs, x + 1)
    ensures DriftsWithin([f] + fs, [g] + gs, x)
  {
  }

  /** After n packets the drift has grown by at most n. */
  lemma {:induction false} VolDriftBound(s: State, rs: RefState, ps: seq<Packet>, x: nat)
    requires Sound(s) && Matches(s, rs) && RunInScope(rs, ps) && VolInScope(rs, ps, 2 * TAU_VOL)
    requires rs.filters.vol >= 0 && Abs(s.filters.vol - rs.filters.vol) <= x
    ensures DriftsWithin(Run(s, ps).features, RunReference(rs, ps).features, x)
    decreases |ps|
  {
    hide Packetized, RefPacket, PacketInScope, RunInScope, VolInScope, Sound, Matches, RefMove, RefDt;
    if ps == [] {
    } else {
      var s', rs' := FabricStep(s, ps[0]), RefStep(rs, ps[0]);
      ScopeStep(rs, ps);
      VolScopeStep(rs, ps, 2 * TAU_VOL);
      PacketMatches(s, rs, ps[0]);
      PacketDrift(s, rs, ps[0]);
      VolDriftBound(s', rs', ps[1..], x + 1);
      DriftsWithinCons(FeaturesOf(s'), Run(s', ps[1..]).features,
                       RefFeaturesOf(rs'), RunReference(rs', ps[1..]).features, x);
    }
  }

  // ---------- drift that does not grow with the run ----------

  /** Rounding either way costs less than one step. */
  lemma RoundingLoss(a: int, b: int)
    ensures TAU_VOL * (TruncDiv(a, TAU_VOL) - FloorDiv(b, TAU_VOL)) <= a - b + 2 * TAU_VOL - 2
  {
    TruncIsFloorOrOneMore(a);
  }

  /** Clamping does not enlarge a difference that is not negative. */
  lemma ClampedDifference(p: int, q: int)
    ensures Clamp(p, 0, MAX_U32) - Clamp(q, 0, MAX_U32) <= Max(p - q, 0)
  {
  }

  /** `d * drift <= 2 * tau` survives every step whose gap lies in [d, tau]. */
  lemma DriftStepUniform(v: nat, w: nat, move: nat, dt: nat, d: nat)
    requires w <= v && 1 <= d <= dt <= TAU_VOL && (v - w) * d <= 2 * TAU_VOL
    ensures RefVol(w, move, dt) <= Vol(v, move, dt)
    ensures (Vol(v, move, dt) - RefVol(w, move, dt)) * d <= 2 * TAU_VOL
  {
    DriftStepOneSided(v, w, move, dt);
    var a, b := (move * ONE_Q16 - v) * dt, (move * ONE_Q16 - w) * dt;
    var p, q := v + TruncDiv(a, TAU_VOL), w + FloorDiv(b, TAU_VOL);
    assert Vol(v, move, dt) == Clamp(p, 0, MAX_U32) && RefVol(w, move, dt) == Clamp(q, 0, MAX_U32);
    hide Vol, RefVol, TruncDiv, FloorDiv, Clamp;
    assert b - a == (v - w) * dt;
    RoundingLoss(a, b);
    UniformArithmetic(v - w, p - q, dt, d);
    ClampedDifference(p, q);
    MulLe(Vol(v, move, dt) - RefVol(w, move, dt), Max(p - q, 0), d);
  }

  lemma UniformArithmetic(x: nat, x': int, dt: nat, d: nat)
    requires 1 <= d <= dt <= TAU_VOL && x * d <= 2 * TAU_VOL
    requires TAU_VOL * x' <= TAU_VOL * x - x * dt + 2 * TAU_VOL - 2
    ensures x' * d <= 2 * TAU_VOL
  {
    MulLe(d, dt, x);
    assert TAU_VOL * x' <= TAU_VOL * x - x * d + 2 * TAU_VOL;
    var y := x * d;
    MulLe(TAU_VOL * x', TAU_VOL * x - y + 2 * TAU_VOL, d);
    assert (TAU_VOL * x - y + 2 * TAU_VOL) * d == TAU_VOL * y - y * d + 2 * TAU_VOL * d;
    MulLe(y, 2 * TAU_VOL, TAU_VOL - d);
    assert y * (TAU_VOL - d) == TAU_VOL * y - y * d;
    assert (TAU_VOL * x') * d == TAU_VOL * (x' * d);
  }

  /** The fabric is never below the reference, and never above it by more than 2 tau / d. */
  predicate NearAbove(v: int, w: int, d: nat) {
    w <= v && (v - w) * d <= 2 * TAU_VOL
  }

  lemma PacketDriftUniform(s: State, rs: RefState, p: Packet, d: nat)
    requires Sound(s) && Matches(s, rs) && PacketInScope(rs, p) && RefMove(rs, p) <= 0x8000_0000
    requires RefDt(rs.filters.lastTs, p.tSend) <= TAU_VOL && rs.filters.vol >= 0
    requires d >= 1 && (s.filters.lastT != 0 ==> s.filters.lastT + d <= p.tSend)
    ensures NearAbove(s.filters.vol, rs.filters.vol, d) ==>
              NearAbove(FabricStep(s, p).filters.vol, RefStep(rs, p).filters.vol, d)
    ensures RefStep(rs, p).filters.vol >= 0
  {
    hide FabricStep, RefStep, RefMove, Vol, RefVol;
    SameVolInputs(s, rs, p);
    var dt := RefDt(rs.filters.lastTs, p.tSend);
    if !NearAbove(s.filters.vol, rs.filters.vol, d) { return; }
    if s.filters.lastT == 0 {
      ZeroGap(s.filters.vol, rs.filters.vol, RefMove(rs, p), d);
    } else {
      DriftStepUniform(s.filters.vol, rs.filters.vol, RefMove(rs, p), dt, d);
    }
  }

  /**
   However long the run: when every gap after the first packet lies in [d, tau], the
   two volatilities stay within 2 tau / d of each other.
   */
  lemma {:induction false} VolDriftUniform(s: State, rs: RefState, ps: seq<Packet>, d: nat)
    requires Sound(s) && Matches(s, rs) && RunInScope(rs, ps) && VolInScope(rs, ps, TAU_VOL)
    requires d >= 1 && GapsAtLeast(s.filters.lastT, ps, d)
    requires rs.filters.vol >= 0 && NearAbove(s.filters.vol, rs.filters.vol, d)
    ensures forall k :: 0 <= k < |ps| ==>
              NearAbove(Run(s, ps).features[k].vol, RunReference(rs, ps).features[k].vol, d)
    decreases |ps|
  {
    hide Packetized, RefPacket, PacketInScope, RunInScope, VolInScope, Sound, Matches, RefMove, RefDt, NearAbove;
    if ps == [] {
    } else {
      ScopeStep(rs, ps);
      VolScopeStep(rs, ps, TAU_VOL);
      PacketMatches(s, rs, ps[0]);
      PacketDriftUniform(s, rs, ps[0], d);
      VolDriftUniform(FabricStep(s, ps[0]), RefStep(rs, ps[0]), ps[1..], d);
    }
  }

  lemma ZeroGap(v: nat, w: nat, move: nat, d: nat)
    requires w <= v
    ensures RefVol(w, move, 0) <= Vol(v, move, 0)
    ensures (Vol(v, move, 0) - RefVol(w, move, 0)) * d <= (v - w) * d
  {
  }
}

/**
 The packet-level reference: a script that replays the dumped packets on unbounded
 integers and predicts the feature bytes the fabric must have sent.
 */
module PacketReference {
  import opened Words
  import opened Wire

  const N := 16
  const TAU_BURST := 200_000
  const TAU_VOL := 2_000_000

  datatype Cell = Cell(p: int, q: int)

  type Ladder = s: seq<Cell> | |s| == N witness Filled(N, Cell(0, 0))

  datatype RefBook = RefBook(bid: Ladder, ask: Ladder, ofi: int)
  datatype RefFilters = RefFilters(lastTs: Option<int>, burst: int, vol: int, midPrev: int)
  datatype RefState = RefState(book: RefBook, filters: RefFilters)

  function RefReset(): RefState {
    RefState(RefBook(Filled(N, Cell(0, 0)), Filled(N, Cell(0, 0)), 0), RefFilters(None, 0, 0, 0))
  }

  // ---------- one delta ----------

  /** Levels beyond the book are charged to level 0. */
  function LevelOf(d: Delta): nat {
    if d.level < N then d.level else 0
  }

  function NextCell(c: Cell, d: Delta): Cell {
    var c' := if d.action == 0 then Cell(d.price, d.qty)
              else if d.action == 1 || d.action == 2 then Cell(c.p, c.q + d.qty)
              else if d.action == 3 then Cell(c.p, 0)
              else c;
    if c'.q < 0 then Cell(c'.p, 0) else c'
  }

  function NextLadder(s: Ladder, d: Delta): Ladder {
    s[LevelOf(d) := NextCell(s[LevelOf(d)], d)]
  }

  function Signed(d: Delta): int {
    if d.side == 0 then d.qty else -d.qty
  }

  /** The accumulator saturates at the int32 range. */
  function NextRefOfi(ofi: int, d: Delta): int {
    if d.action == 1 || d.action == 2 then Clamp(ofi + Signed(d), MIN_I32, MAX_I32) else ofi
  }

  function RefDelta(b: RefBook, d: Delta): RefBook {
    RefBook(if d.side == 0 then NextLadder(b.bid, d) else b.bid,
            if d.side == 0 then b.ask else NextLadder(b.ask, d),
            NextRefOfi(b.ofi, d))
  }

  function RefDrain(b: RefBook, ds: seq<Delta>): RefBook {
    if ds == [] then b else RefDelta(RefDrain(b, ds[..|ds| - 1]), ds[|ds| - 1])
  }

  // ---------- one packet ----------

  function RefImbalance(bidQ: int, askQ: int): int {
    var den := bidQ + askQ;
    if den == 0 then 0
    else
      var num := (bidQ - askQ) * 0x8000;
      Clamp(if num >= 0 then FloorDiv(num, den) else -FloorDiv(-num, den), -0x8000, 0x7FFF)
  }

  /** Python's `//`. */
  function FloorDiv(a: int, b: int): int
    requires b != 0
  {
    if b > 0 then a / b else (-a) / (-b)
  }

  function RefDt(lastTs: Option<int>, t: int): int {
    if lastTs.None? then 0 else Max(0, t - lastTs.value)
  }

  function RefBurst(burst: int, dt: int): int {
    Clamp(burst - FloorDiv(burst * dt, TAU_BURST) + 0x1_0000, 0, MAX_U32)
  }

  function RefVol(vol: int, dp: int, dt: int): (v: int)
    ensures 0 <= v <= MAX_U32
  {
    Clamp(vol + FloorDiv((dp * 0x1_0000 - vol) * dt, TAU_VOL), 0, MAX_U32)
  }

  function RefMid(b: RefBook): int {
    FloorDiv(b.bid[0].p + b.ask[0].p, 2)
  }

  function NextRefFilters(b: RefBook, f: RefFilters, t: int): RefFilters {
    var dt := RefDt(f.lastTs, t);
    var mid := RefMid(b);
    RefFilters(Some(t), RefBurst(f.burst, dt), RefVol(f.vol, Abs(mid - f.midPrev), dt), mid)
  }

  function RefFeaturesOf(s: RefState): Features {
    Features(s.book.ofi, RefImbalance(s.book.bid[0].q, s.book.ask[0].q), s.filters.burst, s.filters.vol)
  }

  /** A reset bit clears everything before the packet is looked at. */
  function AfterReset(s: RefState, flags: nat): RefState {
    if ResetBit(flags) then RefReset() else s
  }

  /** The deltas replayed: as many as the flags announce, or fewer if the dump is short. */
  function Replayed(flags: nat, ds: seq<Delta>): seq<Delta> {
    ds[..Min(CountBits(flags), |ds|)]
  }

  /** A reply without a dumped packet is skipped, but its reset is honoured. */
  function RefPacket(s: RefState, flags: nat, t: int, dump: Option<seq<Delta>>): RefState {
    var s0 := AfterReset(s, flags);
    if dump.None? then s0
    else
      var b := RefDrain(s0.book, Replayed(flags, dump.value));
      RefState(b, NextRefFilters(b, s0.filters, t))
  }

  datatype RefRun = RefRun(state: RefState, features: seq<Features>)

  /** The run over packets that were all dumped. */
  function RunReference(s: RefState, ps: seq<Packet>): (r: RefRun)
    ensures |r.features| == |ps|
    decreases |ps|
  {
    if ps == [] then RefRun(s, [])
    else
      var s' := RefPacket(s, ps[0].flags, ps[0].tSend, Some(ps[0].deltas));
      var rest := RunReference(s', ps[1..]);
      RefRun(rest.state, [RefFeaturesOf(s')] + rest.features)
  }

  // ---------- the script's loop ----------

  class Validator {
    var bid: Ladder
    var ask: Ladder
    var ofi: int
    var lastTs: Option<int>
    var burst: int
    var vol: int
    var midPrev: int

    ghost function BookValue(): RefBook
      reads this
    {
      RefBook(bid, ask, ofi)
    }

    ghost function Value(): RefState
      reads this
    {
      RefState(BookValue(), RefFilters(lastTs, burst, vol, midPrev))
    }

    constructor ()
      ensures Value() == RefReset()
    {
      bid, ask, ofi := Filled(N, Cell(0, 0)), Filled(N, Cell(0, 0)), 0;
      lastTs, burst, vol, midPrev := None, 0, 0, 0;
    }

    method ApplyDelta(d: Delta)
      modifies this`bid, this`ask, this`ofi
      ensures BookValue() == RefDelta(old(BookValue()), d)
    {
      var book: Ladder := if d.side == 0 then bid else ask;
      var lvl := if d.level < N then d.level else 0;
      if d.action == 0 {
        book := book[lvl := Cell(d.price, d.qty)];
      } else if d.action == 1 {
        book := book[lvl := Cell(book[lvl].p, book[lvl].q + d.qty)];
      } else if d.action == 2 {
        book := book[lvl := Cell(book[lvl].p, book[lvl].q + d.qty)];
      } else if d.action == 3 {
        book := book[lvl := Cell(book[lvl].p, 0)];
      }
      if book[lvl].q < 0 {
        book := book[lvl := Cell(book[lvl].p, 0)];
      }
      if d.side == 0 {
        bid := book;
      } else {
        ask := book;
      }
      if d.action == 1 || d.action == 2 {
        var sgn := if d.side == 0 then 1 else -1;
        ofi := Max(Min(ofi + sgn * d.qty, MAX_I32), MIN_I32);
      }
    }

    /** One record of the receive dump: the expected features, unless it is skipped. */
    method Expect(flags: nat, t: int, dump: Option<seq<Delta>>) returns (expected: Option<Features>)
      modifies this
      ensures Value() == RefPacket(old(Value()), flags, t, dump)
      ensures expected == if dump.None? then None else Some(RefFeaturesOf(Value()))
    {
      if ResetBit(flags) {
        bid, ask, ofi := Filled(N, Cell(0, 0)), Filled(N, Cell(0, 0)), 0;
        lastTs, burst, vol, midPrev := None, 0, 0, 0;
      }
      if dump.None? {
        return None;
      }
      Replay(CountBits(flags), dump.value);
      var dt := if lastTs.None? then 0 else Max(0, t - lastTs.value);
      lastTs := Some(t);
      burst := RefBurst(burst, dt);
      var midNow := FloorDiv(bid[0].p + ask[0].p, 2);
      vol := RefVol(vol, Abs(midNow - midPrev), dt);
      midPrev := midNow;
      expected := Some(Features(ofi, RefImbalance(bid[0].q, ask[0].q), burst, vol));
    }

    method Replay(count: nat, ds: seq<Delta>)
      modifies this`bid, this`ask, this`ofi
      ensures BookValue() == RefDrain(old(BookValue()), ds[..Min(count, |ds|)])
    {
      var i := 0;
      while i < count && i < |ds|
        invariant i <= count && i <= |ds|
        invariant BookValue() == RefDrain(old(BookValue()), ds[..i])
      {
        ApplyDelta(ds[i]);
        assert ds[..i + 1][..i] == ds[..i];
        i := i + 1;
      }
    }
  }
}

/**
 The per-event reference: it reads the same CSV rows as the host replayer and yields
 one feature snapshot per event, instead of one per packet.
 */
module EventReference {
  import opened Words
  import opened Wire
  import opened PacketReference
  import opened Replay
  import Reals
  import ReplyBytes

  /** A row mapped to (side, action, quantity), with no width limit. */
  datatype Change = Change(side: int, action: int, qty: int)

  function RowChange(row: Row): Option<Change> {
    if row.Unparsed? then None
    else
      var side := if row.dir == 1 then 0 else 1;
      if row.kind == 1 then Some(Change(side, 1, row.size))
      else if row.kind == 2 then Some(Change(side, 2, -row.size))
      else if row.kind == 3 then Some(Change(side, 2, -row.size))
      else if row.kind == 4 then Some(Change(side, 3, 0))
      else if row.kind == 5 then Some(Change(side, 2, 0))
      else None
  }

  /** Level 0 of each side (every row maps to it) and the accumulators. */
  datatype EventState = EventState(bid: Cell, ask: Cell, ofi: int,
                                   lastT: Option<int>, burst: int, vol: int, midPrev: int)

  function EventReset(): EventState { EventState(Cell(0, 0), Cell(0, 0), 0, None, 0, 0, 0) }

  function ChangeCell(c: Cell, ch: Change): Cell {
    Cell(c.p, Max(if ch.action == 3 then 0 else c.q + ch.qty, 0))
  }

  function EventStep(st: EventState, ch: Change, ts: int): EventState {
    var bid := if ch.side == 0 then ChangeCell(st.bid, ch) else st.bid;
    var ask := if ch.side == 0 then st.ask else ChangeCell(st.ask, ch);
    var amt := if ch.action == 3 then 0 else ch.qty;
    var ofi := Clamp(st.ofi + (if ch.side == 0 then amt else -amt), MIN_I32, MAX_I32);
    var dt := RefDt(st.lastT, ts);
    var mid := FloorDiv(bid.p + ask.p, 2);
    EventState(bid, ask, ofi, Some(ts), RefBurst(st.burst, dt), RefVol(st.vol, Abs(mid - st.midPrev), dt), mid)
  }

  function EventFeatures(st: EventState): Features {
    Features(st.ofi, RefImbalance(st.bid.q, st.ask.q), st.burst, st.vol)
  }

  datatype EventRun = EventRun(state: EventState, out: seq<Features>)

  function RunEvents(rows: seq<Row>, ts: nat -> int): EventRun {
    if rows == [] then EventRun(EventReset(), [])
    else
      var n := |rows| - 1;
      var r := RunEvents(rows[..n], ts);
      if RowChange(rows[n]).None? then r
      else
        var st := EventStep(r.state, RowChange(rows[n]).value, ts(n));
        EventRun(st, r.out + [EventFeatures(st)])
  }

  // ---------- the generator ----------

  /** The row whose time is the origin: the first that can be read, mapped or not. */
  function FirstParsed(rows: seq<Row>): Option<nat> {
    if rows == [] then None
    else
      var n := |rows| - 1;
      if FirstParsed(rows[..n]).Some? then FirstParsed(rows[..n]) else if rows[n].Event? then Some(n) else None
  }

  /** Seconds since the origin as nanoseconds, rounded half to even. */
  function Nanoseconds(t: real, origin: real): int {
    Reals.Round((t - origin) * 1_000_000_000.0)
  }

  /** The timestamp of each row, for the times in its first column. */
  function Stamps(rows: seq<Row>, time: nat -> real): nat -> int {
    var first := FirstParsed(rows);
    (i: nat) => Nanoseconds(time(i), if first.Some? then time(first.value) else 0.0)
  }

  /** The rows that yield, in order. */
  function MappedIndices(rows: seq<Row>): seq<nat> {
    if rows == [] then []
    else
      var n := |rows| - 1;
      if RowChange(rows[n]).Some? then MappedIndices(rows[..n]) + [n] else MappedIndices(rows[..n])
  }

  lemma {:induction false} OnePerMappedRow(rows: seq<Row>, ts: nat -> int)
    ensures |MappedIndices(rows)| == |RunEvents(rows, ts).out|
  {
    if rows == [] {
    } else {
      OnePerMappedRow(rows[..|rows| - 1], ts);
    }
  }

  lemma {:induction false} FirstParsedPrefix(rows: seq<Row>, i: nat)
    requires i <= |rows| && FirstParsed(rows[..i]).Some?
    ensures FirstParsed(rows) == FirstParsed(rows[..i])
    decreases |rows| - i
  {
    if i == |rows| {
      assert rows[..i] == rows;
    } else {
      assert rows[..i + 1][..i] == rows[..i];
      FirstParsedPrefix(rows, i + 1);
    }
  }

  /** Timestamps are nanoseconds since the first row that can be read, to the nearest one. */
  lemma StampsAreNanoseconds(rows: seq<Row>, time: nat -> real, i: nat) returns (origin: nat)
    requires i < |rows| && rows[i].Event?
    ensures origin <= i && rows[origin].Event? && forall k :: 0 <= k < origin ==> rows[k].Unparsed?
    ensures -0.5 <= Stamps(rows, time)(i) as real - (time(i) - time(origin)) * 1_000_000_000.0 <= 0.5
    ensures Stamps(rows, time)(origin) == 0
  {
    FirstParsedIsFirst(rows);
    assert rows[i].Event?;
    origin := FirstParsed(rows).value;
    Reals.RoundIsNearest((time(i) - time(origin)) * 1_000_000_000.0);
  }

  lemma {:induction false} FirstParsedIsFirst(rows: seq<Row>)
    ensures match FirstParsed(rows)
            case None => forall k :: 0 <= k < |rows| ==> rows[k].Unparsed?
            case Some(f) => f < |rows| && rows[f].Event? && forall k :: 0 <= k < f ==> rows[k].Unparsed?
  {
    if rows == [] {
    } else {
      var front := rows[..|rows| - 1];
      FirstParsedIsFirst(front);
      assert forall k :: 0 <= k < |front| ==> front[k] == rows[k];
    }
  }

  /** What the generator yields: a timestamp and the 16 feature bytes for each mapped row. */
  predicate Yielded(out: seq<(int, seq<Byte>)>, rows: seq<Row>, ts: nat -> int) {
    var fs, at := RunEvents(rows, ts).out, MappedIndices(rows);
    && |out| == |fs| == |at|
    && forall j :: 0 <= j < |out| ==> out[j] == (ts(at[j]), ReplyBytes.WriteReply(fs[j]))
  }

  lemma YieldedStep(out: seq<(int, seq<Byte>)>, rows: seq<Row>, i: nat, ts: nat -> int)
    requires i < |rows| && Yielded(out, rows[..i], ts)
    ensures var ch := RowChange(rows[i]);
            if ch.None? then Yielded(out, rows[..i + 1], ts)
            else var f := EventFeatures(EventStep(RunEvents(rows[..i], ts).state, ch.value, ts(i)));
                 Yielded(out + [(ts(i), ReplyBytes.WriteReply(f))], rows[..i + 1], ts)
  {
    hide EventStep, EventFeatures;
    assert rows[..i + 1][..i] == rows[..i] && rows[..i + 1][i] == rows[i];
  }

  /** The generator's loop over the rows; `time` is their first column. */
  method YieldFeatures(rows: seq<Row>, time: nat -> real) returns (out: seq<(int, seq<Byte>)>)
    ensures Yielded(out, rows, Stamps(rows, time))
  {
    hide EventStep, EventFeatures, Yielded, Nanoseconds;
    ghost var ts := Stamps(rows, time);
    var st := EventReset();
    var first: Option<real> := None;
    out := [];
    NothingYielded(ts);
    for i := 0 to |rows|
      invariant first.Some? <==> FirstParsed(rows[..i]).Some?
      invariant first.Some? ==> first.value == time(FirstParsed(rows[..i]).value)
      invariant st == RunEvents(rows[..i], ts).state
      invariant Yielded(out, rows[..i], ts)
    {
      assert rows[..i + 1][..i] == rows[..i];
      if rows[i].Unparsed? {
        YieldedStep(out, rows, i, ts);
        continue;
      }
      if first.None? {
        first := Some(time(i));
      }
      FirstParsedPrefix(rows, i + 1);
      var stamp := Nanoseconds(time(i), first.value);
      YieldedStep(out, rows, i, ts);
      var ch := RowChange(rows[i]);
      if ch.Some? {
        st := EventStep(st, ch.value, stamp);
        out := out + [(stamp, ReplyBytes.WriteReply(EventFeatures(st)))];
      }
    }
    assert rows[..|rows|] == rows;
  }

  lemma NothingYielded(ts: nat -> int)
    ensures Yielded([], [], ts)
  {
  }

  // ---------- agreement with the packet-level reference ----------

  /** Every size and its negation fit the host's int. */
  predicate SizesFit(rows: seq<Row>) {
    forall i :: 0 <= i < |rows| && rows[i].Event? ==> -MAX_I32 <= rows[i].size <= MAX_I32
  }

  /** The two row mappings agree. */
  lemma RowMappingsAgree(row: Row)
    requires row.Event? ==> -MAX_I32 <= row.size <= MAX_I32
    ensures RowDelta(row).Some? <==> RowChange(row).Some?
    ensures RowDelta(row).Some? ==>
      var d, ch := RowDelta(row).value, RowChange(row).value;
      d.side == ch.side && d.action == ch.action && d.qty == ch.qty && d.level == 0 && d.action in {1, 2, 3}
    ensures RowDelta(row).Some? && IsI32(row.ticks) ==> RowDelta(row).value.price == row.ticks
  {
  }

  predicate TopMatches(st: EventState, rb: RefBook) {
    st.bid.q == rb.bid[0].q && st.ask.q == rb.ask[0].q && st.ofi == rb.ofi
  }

  predicate ReadsTop(f: Features, rb: RefBook) {
    f.ofi == rb.ofi && f.imbalance == RefImbalance(rb.bid[0].q, rb.ask[0].q)
  }

  lemma EventStepMatches(st: EventState, rb: RefBook, d: Delta, ch: Change, ts: int)
    requires TopMatches(st, rb) && IsI32(rb.ofi)
    requires d.side == ch.side && d.action == ch.action && d.qty == ch.qty && d.level == 0 && d.action in {1, 2, 3}
    ensures TopMatches(EventStep(st, ch, ts), RefDelta(rb, d)) && IsI32(RefDelta(rb, d).ofi)
    ensures ReadsTop(EventFeatures(EventStep(st, ch, ts)), RefDelta(rb, d))
  {
  }

  lemma BothStartEmpty()
    ensures TopMatches(EventReset(), RefReset().book) && IsI32(RefReset().book.ofi)
  {
  }

  /**
   After j+1 events the per-event reference shows the OFI and imbalance that the
   packet-level reference has after the first j+1 mapped deltas, in any packets.
   */
  lemma {:induction false} EventsMatchDeltas(rows: seq<Row>, ts: nat -> int)
    requires SizesFit(rows)
    ensures var r, ds, b0 := RunEvents(rows, ts), Mapped(rows), RefReset().book;
            && |r.out| == |ds|
            && TopMatches(r.state, RefDrain(b0, ds)) && IsI32(RefDrain(b0, ds).ofi)
            && forall j :: 0 <= j < |ds| ==> ReadsTop(r.out[j], RefDrain(b0, ds[..j + 1]))
  {
    hide EventStep, EventFeatures, RefDelta, TopMatches, ReadsTop, RefReset, EventReset;
    var b0 := RefReset().book;
    if rows == [] {
      BothStartEmpty();
    } else {
      var n := |rows| - 1;
      EventsMatchDeltas(rows[..n], ts);
      RowMappingsAgree(rows[n]);
      var ds, es := Mapped(rows[..n]), Mapped(rows);
      if RowDelta(rows[n]).Some? {
        var d, ch := RowDelta(rows[n]).value, RowChange(rows[n]).value;
        EventStepMatches(RunEvents(rows[..n], ts).state, RefDrain(b0, ds), d, ch, ts(n));
        assert es == ds + [d] && es[..|es| - 1] == ds;
        forall j | 0 <= j < |es|
          ensures ReadsTop(RunEvents(rows, ts).out[j], RefDrain(b0, es[..j + 1]))
        {
          if j < |ds| {
            assert es[..j + 1] == ds[..j + 1];
          } else {
            assert es[..j + 1] == es;
          }
        }
      } else {
        assert es == ds;
      }
    }
  }

  // ---------- all four fields, with one delta per packet ----------

  /** The packet-level reference on the mapped rows, each sent alone at its row's time. */
  function OneByOne(rows: seq<Row>, ts: nat -> int): RefRun {
    if rows == [] then RefRun(RefReset(), [])
    else
      var n := |rows| - 1;
      var r := OneByOne(rows[..n], ts);
      if RowDelta(rows[n]).None? then r
      else
        var rs := RefPacket(r.state, 1, ts(n), Some([RowDelta(rows[n]).value]));
        RefRun(rs, r.features + [RefFeaturesOf(rs)])
  }

  /** Tops, accumulator, clocks and filters agree, and no price was ever set. */
  predicate AllMatches(st: EventState, rs: RefState) {
    && TopMatches(st, rs.book) && IsI32(rs.book.ofi)
    && st.bid.p == st.ask.p == rs.book.bid[0].p == rs.book.ask[0].p == 0
    && st.lastT == rs.filters.lastTs && st.burst == rs.filters.burst
    && st.vol == rs.filters.vol && st.midPrev == rs.filters.midPrev
  }

  lemma BothStartAlike()
    ensures AllMatches(EventReset(), RefReset())
  {
  }

  lemma OneDeltaPacket(rs: RefState, d: Delta, t: int)
    ensures RefPacket(rs, 1, t, Some([d]))
         == var b := RefDelta(rs.book, d); RefState(b, NextRefFilters(b, rs.filters, t))
  {
    assert [d][..1] == [d] && [d][..0] == [];
    assert RefDrain(rs.book, [d]) == RefDelta(RefDrain(rs.book, []), d);
  }

  lemma OneDeltaMatches(st: EventState, rs: RefState, d: Delta, ch: Change, t: int)
    requires AllMatches(st, rs)
    requires d.side == ch.side && d.action == ch.action && d.qty == ch.qty && d.level == 0 && d.action in {1, 2, 3}
    ensures var st', rs' := EventStep(st, ch, t), RefPacket(rs, 1, t, Some([d]));
            AllMatches(st', rs') && EventFeatures(st') == RefFeaturesOf(rs')
  {
    hide RefPacket, RefBurst, RefVol, RefImbalance, RefDt, RefReset;
    OneDeltaPacket(rs, d, t);
    EventStepMatches(st, rs.book, d, ch, t);
  }

  /** Every snapshot, in all four fields, is the packet-level reference's for the row's delta sent alone. */
  lemma {:induction false} EventsAreOneDeltaPackets(rows: seq<Row>, ts: nat -> int)
    requires SizesFit(rows)
    ensures RunEvents(rows, ts).out == OneByOne(rows, ts).features
    ensures AllMatches(RunEvents(rows, ts).state, OneByOne(rows, ts).state)
  {
    hide EventStep, EventFeatures, RefPacket, RefFeaturesOf, AllMatches, RefReset, EventReset, RowDelta, RowChange;
    if rows == [] {
      BothStartAlike();
    } else {
      var n := |rows| - 1;
      EventsAreOneDeltaPackets(rows[..n], ts);
      RowMappingsAgree(rows[n]);
      if RowDelta(rows[n]).Some? {
        OneDeltaMatches(RunEvents(rows[..n], ts).state, OneByOne(rows[..n], ts).state,
                        RowDelta(rows[n]).value, RowChange(rows[n]).value, ts(n));
      }
    }
  }

  /** The packets of that run. */
  function Singles(rows: seq<Row>, ts: nat -> int): seq<Packet>
    requires forall i :: 0 <= i < |rows| ==> ts(i) >= 0
  {
    if rows == [] then []
    else
      var n := |rows| - 1;
      if RowDelta(rows[n]).None? then Singles(rows[..n], ts)
      else Singles(rows[..n], ts) + [Packet(1, |Singles(rows[..n], ts)|, ts(n), [RowDelta(rows[n]).value])]
  }

  lemma {:induction false} RunReferenceSnoc(rs: RefState, ps: seq<Packet>, p: Packet)
    ensures var r := RunReference(rs, ps);
            var rs' := RefPacket(r.state, p.flags, p.tSend, Some(p.deltas));
            RunReference(rs, ps + [p]) == RefRun(rs', r.features + [RefFeaturesOf(rs')])
    decreases |ps|
  {
    hide RefPacket, RefFeaturesOf;
    if ps == [] {
      assert [] + [p] == [p];
      assert RunReference(rs, [p]) == RefRun(RefPacket(rs, p.flags, p.tSend, Some(p.deltas)),
                                             [RefFeaturesOf(RefPacket(rs, p.flags, p.tSend, Some(p.deltas)))]);
    } else {
      assert (ps + [p])[0] == ps[0] && (ps + [p])[1..] == ps[1..] + [p];
      RunReferenceSnoc(RefPacket(rs, ps[0].flags, ps[0].tSend, Some(ps[0].deltas)), ps[1..], p);
    }
  }

  lemma {:induction false} OneByOneIsRun(rows: seq<Row>, ts: nat -> int)
    requires forall i :: 0 <= i < |rows| ==> ts(i) >= 0
    ensures OneByOne(rows, ts) == RunReference(RefReset(), Singles(rows, ts))
  {
    hide RefPacket, RefFeaturesOf, RefReset, RowDelta;
    if rows == [] {
    } else {
      var n := |rows| - 1;
      OneByOneIsRun(rows[..n], ts);
      if RowDelta(rows[n]).Some? {
        RunReferenceSnoc(RefReset(), Singles(rows[..n], ts),
                         Packet(1, |Singles(rows[..n], ts)|, ts(n), [RowDelta(rows[n]).value]));
      }
    }
  }

  /** The generator agrees with the packet-level script on the same deltas, one per packet. */
  lemma EventsMatchPackets(rows: seq<Row>, ts: nat -> int)
    requires SizesFit(rows) && forall i :: 0 <= i < |rows| ==> ts(i) >= 0
    ensures RunEvents(rows, ts).out == RunReference(RefReset(), Singles(rows, ts)).features
  {
    EventsAreOneDeltaPackets(rows, ts);
    OneByOneIsRun(rows, ts);
  }

  lemma StillEventStep(st: EventState, ch: Change, t: int)
    requires st.bid.p == st.ask.p == st.midPrev == st.vol == 0
    ensures var st' := EventStep(st, ch, t);
            st'.bid.p == st'.ask.p == st'.midPrev == st'.vol == 0
  {
  }

  /** No row ever sets a price, so the per-event volatility is 0 throughout. */
  lemma {:induction false} EventVolIsZero(rows: seq<Row>, ts: nat -> int)
    ensures var r := RunEvents(rows, ts);
            && r.state.bid.p == r.state.ask.p == r.state.midPrev == r.state.vol == 0
            && forall j :: 0 <= j < |r.out| ==> r.out[j].vol == 0
  {
    hide EventStep;
    if rows == [] {
    } else {
      var n := |rows| - 1;
      EventVolIsZero(rows[..n], ts);
      if RowChange(rows[n]).Some? {
        StillEventStep(RunEvents(rows[..n], ts).state, RowChange(rows[n]).value, ts(n));
      }
    }
  }
}

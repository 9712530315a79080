/**
 The host replayer in lob mode: LOBSTER rows become deltas, deltas become packets.
 When a packet goes out depends on clocks, so the timing tests are inputs here and
 every property holds for all of them.
 */
module Replay {
  import opened Words
  import opened Wire
  import opened Batching

  /** A CSV line: unreadable, or (type, size, price in ticks, direction). */
  datatype Row = Unparsed | Event(kind: int, size: int, ticks: int, dir: int)

  /** --speed 0 paces by packet rate, otherwise by the rows' own timestamps. */
  datatype Pacing = ByRate | ByTimestamp

  /** Whether the timing test passes after row i, and what the clock says at send k. */
  datatype Timing = Timing(due: nat -> bool, clock: nat -> nat)

  datatype HostState = HostState(pending: seq<Delta>, packets: seq<Packet>)

  // ---------- rows to deltas ----------

  function RowDelta(row: Row): Option<Delta> {
    if row.Unparsed? then None
    else
      var side := if row.dir == 1 then 0 else 1;
      if row.kind == 1 then Some(Delta(Wrap32(row.ticks), Wrap32(row.size), 0, side, 1))        // submit
      else if row.kind == 2 then Some(Delta(Wrap32(row.ticks), Wrap32(-row.size), 0, side, 2))  // cancel
      else if row.kind == 3 then Some(Delta(Wrap32(row.ticks), Wrap32(-row.size), 0, side, 2))  // execute
      else if row.kind == 4 then Some(Delta(Wrap32(row.ticks), 0, 0, side, 3))                  // delete
      else if row.kind == 5 then Some(Delta(Wrap32(row.ticks), 0, 0, side, 2))                  // replace
      else None
  }

  function MappedRow(row: Row): seq<Delta> {
    if RowDelta(row).Some? then [RowDelta(row).value] else []
  }

  function Mapped(rows: seq<Row>): seq<Delta> {
    if rows == [] then [] else Mapped(rows[..|rows| - 1]) + MappedRow(rows[|rows| - 1])
  }

  // ---------- deltas to packets ----------

  /** `(uint16_t)dn`, with bit 15 set on the first packet. */
  function FlagWord(first: bool, dn: nat): nat {
    if first then CountBits(U16(dn)) + 0x8000 else U16(dn)
  }

  function NextPacket(st: HostState, timing: Timing): Packet {
    var k := |st.packets|;
    Packet(FlagWord(k == 0, |st.pending|), k, timing.clock(k), st.pending)
  }

  function Sent(st: HostState, timing: Timing): HostState {
    HostState([], st.packets + [NextPacket(st, timing)])
  }

  predicate ShouldSend(pacing: Pacing, batch: int, dn: nat, due: bool) {
    match pacing
    case ByRate => if due then dn > 0 else dn >= batch
    case ByTimestamp => dn >= batch || (due && dn > 0)
  }

  function AfterRow(st: HostState, row: Row, i: nat, batch: int, pacing: Pacing, timing: Timing): HostState {
    if RowDelta(row).None? then st
    else
      var st' := if |st.pending| < batch then st.(pending := st.pending + [RowDelta(row).value]) else st;
      if ShouldSend(pacing, batch, |st'.pending|, timing.due(i)) then Sent(st', timing) else st'
  }

  function AfterRows(rows: seq<Row>, batch: int, pacing: Pacing, timing: Timing): HostState {
    if rows == [] then HostState([], [])
    else
      var n := |rows| - 1;
      AfterRow(AfterRows(rows[..n], batch, pacing, timing), rows[n], n, batch, pacing, timing)
  }

  function Packets(rows: seq<Row>, batch: int, pacing: Pacing, timing: Timing): seq<Packet> {
    var st := AfterRows(rows, batch, pacing, timing);
    if st.pending != [] then Sent(st, timing).packets else st.packets
  }

  /** The replay loop, over the fixed delta buffer. */
  method ReplayLob(rows: seq<Row>, batch: int, pacing: Pacing, timing: Timing) returns (packets: seq<Packet>)
    ensures packets == Packets(rows, batch, pacing, timing)
  {
    hide RowDelta, FlagWord;
    var deltas := new Delta[Max(batch, 0)](i => Delta(0, 0, 0, 0, 0));
    var dn: nat := 0;
    var firstBatch := true;
    var seqNo: nat := 0;
    packets := [];
    for i := 0 to |rows|
      invariant dn <= deltas.Length == Max(batch, 0)
      invariant firstBatch <==> packets == []
      invariant seqNo == |packets|
      invariant HostState(deltas[..dn], packets) == AfterRows(rows[..i], batch, pacing, timing)
    {
      assert rows[..i + 1][..i] == rows[..i];
      ghost var st := AfterRows(rows[..i], batch, pacing, timing);
      var d := RowDelta(rows[i]);
      if d.None? {
        continue;
      }
      if dn < batch {
        deltas[dn] := d.value;
        dn := dn + 1;
      }
      assert deltas[..dn] == if |st.pending| < batch then st.pending + [d.value] else st.pending;
      var shouldSend := false;
      if dn >= batch { shouldSend := true; }
      if pacing == ByRate {
        if timing.due(i) { shouldSend := dn > 0; }
      } else {
        if timing.due(i) && dn > 0 { shouldSend := true; }
      }
      if shouldSend {
        packets := packets + [Packet(FlagWord(firstBatch, dn), seqNo, timing.clock(seqNo), deltas[..dn])];
        firstBatch := false;
        seqNo := seqNo + 1;
        dn := 0;
      }
    }
    assert rows[..|rows|] == rows;
    if dn > 0 {
      packets := packets + [Packet(FlagWord(firstBatch, dn), seqNo, timing.clock(seqNo), deltas[..dn])];
    }
  }

  // ---------- what every timing preserves ----------

  /** A packet the replayer may send as its k-th. */
  predicate WellSent(p: Packet, k: nat, batch: int, timing: Timing) {
    && 1 <= |p.deltas| <= batch
    && p.seqNo == k && p.tSend == timing.clock(k)
    && p.flags == FlagWord(k == 0, |p.deltas|)
  }

  predicate HostInvariant(st: HostState, batch: int, timing: Timing) {
    && |st.pending| < batch
    && forall k :: 0 <= k < |st.packets| ==> WellSent(st.packets[k], k, batch, timing)
  }

  lemma SentConserves(st: HostState, timing: Timing)
    ensures Payload(Sent(st, timing).packets) == Payload(st.packets) + st.pending
  {
    PayloadAppend(st.packets, [NextPacket(st, timing)]);
    assert Payload([NextPacket(st, timing)]) == st.pending + Payload([]);
  }

  lemma RowConserves(st: HostState, row: Row, i: nat, batch: int, pacing: Pacing, timing: Timing)
    requires batch >= 1 && HostInvariant(st, batch, timing)
    ensures var st' := AfterRow(st, row, i, batch, pacing, timing);
            && HostInvariant(st', batch, timing)
            && Payload(st'.packets) + st'.pending == Payload(st.packets) + st.pending + MappedRow(row)
  {
    if RowDelta(row).Some? {
      var st1 := st.(pending := st.pending + [RowDelta(row).value]);
      SentConserves(st1, timing);
      assert Payload(st.packets) + st1.pending == Payload(st.packets) + st.pending + MappedRow(row);
    } else {
      assert st.pending + MappedRow(row) == st.pending;
    }
  }

  lemma {:induction false} RowsConserve(rows: seq<Row>, batch: int, pacing: Pacing, timing: Timing)
    requires batch >= 1
    ensures var st := AfterRows(rows, batch, pacing, timing);
            HostInvariant(st, batch, timing) && Payload(st.packets) + st.pending == Mapped(rows)
  {
    if rows == [] {
    } else {
      var n := |rows| - 1;
      RowsConserve(rows[..n], batch, pacing, timing);
      RowConserves(AfterRows(rows[..n], batch, pacing, timing), rows[n], n, batch, pacing, timing);
    }
  }

  /**
   For every timing: the payloads concatenate to exactly the mapped rows in order, every
   packet holds 1..batch deltas, and sequence numbers and send times are consecutive.
   */
  lemma BatchingConserves(rows: seq<Row>, batch: int, pacing: Pacing, timing: Timing)
    requires batch >= 1
    ensures var ps := Packets(rows, batch, pacing, timing);
            && Payload(ps) == Mapped(rows)
            && forall k :: 0 <= k < |ps| ==> WellSent(ps[k], k, batch, timing)
  {
    RowsConserve(rows, batch, pacing, timing);
    var st := AfterRows(rows, batch, pacing, timing);
    if st.pending != [] {
      SentConserves(st, timing);
    }
  }

  lemma {:induction false} EmptyBatchSendsNothing(rows: seq<Row>, batch: int, pacing: Pacing, timing: Timing)
    requires batch <= 0
    ensures var st := AfterRows(rows, batch, pacing, timing);
            st.pending == [] && Payload(st.packets) == []
  {
    if rows == [] {
    } else {
      var n := |rows| - 1;
      EmptyBatchSendsNothing(rows[..n], batch, pacing, timing);
      SentConserves(AfterRows(rows[..n], batch, pacing, timing), timing);
    }
  }

  /** With a non-positive --batch every row is dropped, so conservation holds exactly for batch >= 1. */
  lemma BatchingConservesIff(rows: seq<Row>, batch: int, pacing: Pacing, timing: Timing)
    ensures Payload(Packets(rows, batch, pacing, timing)) == Mapped(rows) <==> batch >= 1 || Mapped(rows) == []
  {
    if batch >= 1 {
      BatchingConserves(rows, batch, pacing, timing);
    } else {
      EmptyBatchSendsNothing(rows, batch, pacing, timing);
    }
  }

  // ---------- when a packet leaves ----------

  /** After a mapped row a packet leaves exactly when the timing test passes or the batch is full. */
  lemma PacketLeavesIff(st: HostState, row: Row, i: nat, batch: int, pacing: Pacing, timing: Timing)
    requires batch >= 1 && HostInvariant(st, batch, timing)
    ensures var st' := AfterRow(st, row, i, batch, pacing, timing);
            if row.Unparsed? || row.kind !in {1, 2, 3, 4, 5} then st' == st
            else if timing.due(i) || |st.pending| + 1 == batch then
              |st'.packets| == |st.packets| + 1 && st'.pending == []
            else st'.packets == st.packets && |st'.pending| == |st.pending| + 1
  {
  }

  predicate AllOfSize(ps: seq<Packet>, n: int) {
    forall k :: 0 <= k < |ps| ==> |ps[k].deltas| == n
  }

  lemma SizedStep(st: HostState, row: Row, i: nat, batch: int, pacing: Pacing, timing: Timing)
    requires batch >= 1 && |st.pending| < batch
    ensures var st' := AfterRow(st, row, i, batch, pacing, timing);
            && |st'.pending| < batch
            && (AllOfSize(st.packets, batch) && !timing.due(i) ==> AllOfSize(st'.packets, batch))
            && (AllOfSize(st.packets, 1) && st.pending == [] && timing.due(i) ==>
                  AllOfSize(st'.packets, 1) && st'.pending == [])
  {
  }

  /** When the test never passes every packet but the last is full; when it always does, every packet has one delta. */
  lemma {:induction false} PacketSizes(rows: seq<Row>, batch: int, pacing: Pacing, timing: Timing)
    requires batch >= 1
    ensures var st := AfterRows(rows, batch, pacing, timing);
            && |st.pending| < batch
            && ((forall i :: 0 <= i < |rows| ==> !timing.due(i)) ==> AllOfSize(st.packets, batch))
            && ((forall i :: 0 <= i < |rows| ==> timing.due(i)) ==> AllOfSize(st.packets, 1) && st.pending == [])
  {
    hide AfterRow, AllOfSize;
    if rows == [] {
      NoPackets(batch);
    } else {
      var n := |rows| - 1;
      PacketSizes(rows[..n], batch, pacing, timing);
      SizedStep(AfterRows(rows[..n], batch, pacing, timing), rows[n], n, batch, pacing, timing);
    }
  }

  lemma NoPackets(batch: int)
    ensures AllOfSize([], batch) && AllOfSize([], 1)
  {
  }

  /** The flag word carries the count and the reset mark exactly while the count fits 15 bits. */
  lemma FlagWordIff(first: bool, dn: nat)
    ensures CountBits(FlagWord(first, dn)) == dn && (ResetBit(FlagWord(first, dn)) <==> first) <==> dn < 0x8000
  {
  }

  /** Up to --batch 32767 every header announces its deltas, and only the first carries reset. */
  lemma FlagsDecode(rows: seq<Row>, batch: int, pacing: Pacing, timing: Timing, k: nat)
    requires 1 <= batch < 0x8000 && k < |Packets(rows, batch, pacing, timing)|
    ensures var p := Packets(rows, batch, pacing, timing)[k];
            CountBits(p.flags) == |p.deltas| && (ResetBit(p.flags) <==> k == 0)
  {
    BatchingConserves(rows, batch, pacing, timing);
    FlagWordIff(k == 0, |Packets(rows, batch, pacing, timing)[k].deltas|);
  }

  lemma {:induction false} MappedFitsWire(rows: seq<Row>)
    ensures forall i :: 0 <= i < |Mapped(rows)| ==>
              FitsWire(Mapped(rows)[i]) && Mapped(rows)[i].level == 0 && Mapped(rows)[i].action != 0
  {
    if rows == [] {
    } else {
      MappedFitsWire(rows[..|rows| - 1]);
    }
  }
}

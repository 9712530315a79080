/**
 The streaming labeller: rows wait in a queue until a later row is at least one horizon
 away, and are then labelled with the direction of the mid move, if it is large enough.
 */
module Labels {
  import opened Words

  /** One line of the two CSV files: unreadable, or (time, best ask, best bid). */
  datatype Row = Unreadable | Quote(ts: real, ask: int, bid: int)

  datatype Pending = Pending(startTs: real, midSum: int, rowIndex: nat)

  datatype Label = Label(startTs: real, rowIndex: nat, midNow: int, midLater: int, sign: int)

  const SENTINEL := 9_999_999_999

  predicate Usable(row: Row) {
    row.Quote? && row.ask < SENTINEL && row.bid > -SENTINEL
  }

  /** The usable rows in order, with their index in the file. */
  function UsableRows(rows: seq<Row>): seq<Pending> {
    if rows == [] then []
    else
      var n := |rows| - 1;
      var rest := UsableRows(rows[..n]);
      if Usable(rows[n]) then rest + [Pending(rows[n].ts, rows[n].ask + rows[n].bid, n)] else rest
  }

  // ---------- one label ----------

  /** What finalizing row `p` against mid `later` writes: nothing for a small move. */
  function Finalized(p: Pending, later: int, threshold: int): seq<Label> {
    var delta := later - p.midSum;
    if Abs(delta) >= threshold then [Label(p.startTs, p.rowIndex, p.midSum, later, if delta > 0 then 1 else -1)] else []
  }

  predicate HorizonPassed(v: seq<Pending>, i: nat, j: nat, h: real)
    requires i < |v| && j < |v|
  {
    v[j].startTs - v[i].startTs >= h
  }

  /** The first row from `from` on that is a horizon after row i; |v| if there is none. */
  function FirstFrom(v: seq<Pending>, i: nat, from: nat, h: real): (j: nat)
    requires i < |v| && from <= |v|
    ensures from <= j <= |v|
    ensures j < |v| ==> HorizonPassed(v, i, j, h)
    ensures forall k :: from <= k < j ==> !HorizonPassed(v, i, k, h)
    decreases |v| - from
  {
    if from == |v| then |v| else if HorizonPassed(v, i, from, h) then from else FirstFrom(v, i, from + 1, h)
  }

  /** The naive definition: row i is labelled by the first row, itself included, a horizon later. */
  function Naive(v: seq<Pending>, i: nat, h: real): (j: nat)
    requires i < |v|
    ensures i <= j <= |v|
  {
    FirstFrom(v, i, i, h)
  }

  /** What the queue does: row i also waits for the row in front of it. */
  function Queued(v: seq<Pending>, i: nat, h: real): (j: nat)
    requires i < |v|
    ensures i <= j <= |v|
  {
    if i == 0 then FirstFrom(v, 0, 0, h) else FirstFrom(v, i, Max(i, Queued(v, i - 1, h)), h)
  }

  /** The labels of the first n usable rows, finalized where the queue finalizes them. */
  function LabelsOf(v: seq<Pending>, n: nat, h: real, threshold: int): seq<Label>
    requires n <= |v|
  {
    if n == 0 then []
    else
      var j := Queued(v, n - 1, h);
      LabelsOf(v, n - 1, h, threshold) + if j < |v| then Finalized(v[n - 1], v[j].midSum, threshold) else []
  }

  /** The same with the naive definition: what the labeller is for. */
  function NaiveLabels(v: seq<Pending>, n: nat, h: real, threshold: int): seq<Label>
    requires n <= |v|
  {
    if n == 0 then []
    else
      var j := Naive(v, n - 1, h);
      NaiveLabels(v, n - 1, h, threshold) + if j < |v| then Finalized(v[n - 1], v[j].midSum, threshold) else []
  }

  // ---------- the streaming loop ----------

  lemma {:induction false} UsablePrefix(rows: seq<Row>, r: nat)
    requires r <= |rows|
    ensures UsableRows(rows[..r]) <= UsableRows(rows)
    decreases |rows| - r
  {
    if r == |rows| {
      assert rows[..r] == rows;
    } else {
      UsablePrefix(rows, r + 1);
      assert rows[..r + 1][..r] == rows[..r];
    }
  }

  lemma {:induction false} QueuedMonotone(v: seq<Pending>, i: nat, k: nat, h: real)
    requires i <= k < |v|
    ensures Queued(v, i, h) <= Queued(v, k, h)
    decreases k
  {
    if i < k {
      QueuedMonotone(v, i, k - 1, h);
    }
  }

  /** The first `p` rows have been finalized by row `n`; the next one has not. */
  ghost predicate PoppedUpTo(v: seq<Pending>, p: nat, n: nat, h: real) {
    && p <= n <= |v|
    && (p > 0 ==> Queued(v, p - 1, h) < n)
    && (p < |v| ==> Queued(v, p, h) >= n)
  }

  /** Row n arrives: the head of the queue is finalized by it exactly when the loop pops it. */
  lemma HeadStep(v: seq<Pending>, p: nat, n: nat, h: real)
    requires n < |v| && p <= n
    requires (p > 0 ==> Queued(v, p - 1, h) <= n) && Queued(v, p, h) >= n
    ensures HorizonPassed(v, p, n, h) <==> Queued(v, p, h) == n
  {
  }

  /** What the queue and the output are once all rows are read. */
  predicate Streamed(rows: seq<Row>, h: real, threshold: int, out: seq<Label>, pending: seq<Pending>) {
    var v := UsableRows(rows);
    && |pending| <= |v|
    && var p := |v| - |pending|;
       && pending == v[p..]
       && out == LabelsOf(v, p, h, threshold)
       && forall i :: 0 <= i < |v| ==> (i < p <==> Queued(v, i, h) < |v|)
  }

  lemma LabelsStep(v: seq<Pending>, p: nat, n: nat, h: real, threshold: int)
    requires p < |v| && n < |v| && Queued(v, p, h) == n
    ensures LabelsOf(v, p + 1, h, threshold) == LabelsOf(v, p, h, threshold) + Finalized(v[p], v[n].midSum, threshold)
  {
  }

  /** The inner loop: pops and labels every row whose horizon has passed by row n. */
  method PopExpired(queue: seq<Pending>, ts: real, midSum: int, horizon: real, threshold: int,
                    ghost v: seq<Pending>, ghost p0: nat, ghost n: nat)
    returns (labels: seq<Label>, pending: seq<Pending>, ghost p: nat)
    requires n < |v| && PoppedUpTo(v, p0, n, horizon) && queue == v[p0..n + 1]
    requires v[n].startTs == ts && v[n].midSum == midSum
    ensures PoppedUpTo(v, p, n + 1, horizon) && pending == v[p..n + 1] && p0 <= p
    ensures LabelsOf(v, p, horizon, threshold) == LabelsOf(v, p0, horizon, threshold) + labels
  {
    hide Queued, Finalized, LabelsOf;
    labels, pending, p := [], queue, p0;
    while pending != [] && ts - pending[0].startTs >= horizon
      invariant p0 <= p <= n + 1
      invariant pending == v[p..n + 1]
      invariant LabelsOf(v, p, horizon, threshold) == LabelsOf(v, p0, horizon, threshold) + labels
      invariant (p > 0 ==> Queued(v, p - 1, horizon) <= n) && (p < |v| ==> Queued(v, p, horizon) >= n)
      decreases |pending|
    {
      HeadStep(v, p, n, horizon);
      LabelsStep(v, p, n, horizon, threshold);
      var head := pending[0];
      pending := pending[1..];
      ConcatAssoc(LabelsOf(v, p0, horizon, threshold), labels, Finalized(head, midSum, threshold));
      labels := labels + Finalized(head, midSum, threshold);
      p := p + 1;
      if p < |v| {
        QueuedMonotone(v, p - 1, p, horizon);
      }
    }
    if p <= n {
      HeadStep(v, p, n, horizon);
    }
  }

  method BuildLabels(rows: seq<Row>, horizon: real, threshold: int) returns (out: seq<Label>, pending: seq<Pending>)
    ensures Streamed(rows, horizon, threshold, out, pending)
    ensures var v := UsableRows(rows);
            TimesOrdered(v) ==> out == NaiveLabels(v, |v|, horizon, threshold)
    ensures OnlyTrueLabels(rows, horizon, threshold, out) && RowOrdered(out)
    ensures QuotesOrdered(rows) ==> ExactlyFirstLabels(rows, horizon, threshold, out)
  {
    hide Queued, LabelsOf, NaiveLabels, TimesOrdered, OnlyTrueLabels, ExactlyFirstLabels, QuotesOrdered;
    ghost var v := UsableRows(rows);
    ghost var p: nat := 0;
    ghost var n: nat := 0;
    out, pending := [], [];
    StreamStarts(v, horizon, threshold);
    for idx := 0 to |rows|
      invariant p <= n <= |v|
      invariant UsableRows(rows[..idx]) == v[..n]
      invariant pending == v[p..n]
      invariant out == LabelsOf(v, p, horizon, threshold)
      invariant PoppedUpTo(v, p, n, horizon)
    {
      assert rows[..idx + 1][..idx] == rows[..idx];
      if !Usable(rows[idx]) {
        continue;
      }
      UsablePrefix(rows, idx + 1);
      var midSum := rows[idx].ask + rows[idx].bid;
      var ts := rows[idx].ts;
      pending := pending + [Pending(ts, midSum, idx)];
      assert UsableRows(rows[..idx + 1]) == v[..n] + [Pending(ts, midSum, idx)] == v[..n + 1];
      assert v[n] == Pending(ts, midSum, idx);
      var labels;
      labels, pending, p := PopExpired(pending, ts, midSum, horizon, threshold, v, p, n);
      out := out + labels;
      n := n + 1;
    }
    assert rows[..|rows|] == rows;
    assert v[..n] == v;
    QueueSplits(v, p, horizon);
    if TimesOrdered(v) {
      StreamIsNaive(rows, horizon, threshold, out, pending);
    }
    LabelsAreTrue(rows, p, horizon, threshold);
    LabelsInRowOrder(rows, p, horizon, threshold);
    if QuotesOrdered(rows) {
      QuotesOrderTimes(rows);
      NaiveLabelsAreExact(rows, horizon, threshold);
    }
  }

  lemma StreamStarts(v: seq<Pending>, h: real, threshold: int)
    ensures LabelsOf(v, 0, h, threshold) == [] && PoppedUpTo(v, 0, 0, h)
  {
  }

  lemma QueueSplits(v: seq<Pending>, p: nat, h: real)
    requires PoppedUpTo(v, p, |v|, h)
    ensures forall i :: 0 <= i < |v| ==> (i < p <==> Queued(v, i, h) < |v|)
  {
    forall i | 0 <= i < |v|
      ensures i < p <==> Queued(v, i, h) < |v|
    {
      if i < p { QueuedMonotone(v, i, p - 1, h); } else { QueuedMonotone(v, p, i, h); }
    }
  }

  // ---------- the queue against the naive definition ----------

  predicate TimesOrdered(v: seq<Pending>) {
    forall i, j :: 0 <= i <= j < |v| ==> v[i].startTs <= v[j].startTs
  }

  predicate NaiveOrdered(v: seq<Pending>, h: real) {
    forall i :: 0 < i < |v| ==> Naive(v, i - 1, h) <= Naive(v, i, h)
  }

  /** Each row finalizes at its naive row exactly when the naive rows come in order. */
  lemma {:induction false} QueueIsNaiveIff(v: seq<Pending>, h: real)
    ensures (forall i :: 0 <= i < |v| ==> Queued(v, i, h) == Naive(v, i, h)) <==> NaiveOrdered(v, h)
  {
    if NaiveOrdered(v, h) {
      forall i | 0 <= i < |v|
        ensures Queued(v, i, h) == Naive(v, i, h)
      {
        OrderedQueueIsNaive(v, i, h);
      }
    } else {
      var i :| 0 < i < |v| && Naive(v, i - 1, h) > Naive(v, i, h);
      QueuedMonotone(v, i - 1, i, h);
    }
  }

  lemma {:induction false} OrderedQueueIsNaive(v: seq<Pending>, i: nat, h: real)
    requires NaiveOrdered(v, h) && i < |v|
    ensures Queued(v, i, h) == Naive(v, i, h)
  {
    if i > 0 {
      OrderedQueueIsNaive(v, i - 1, h);
      assert Naive(v, i - 1, h) <= Naive(v, i, h);
      FirstSkips(v, i, i, Max(i, Naive(v, i - 1, h)), h);
    }
  }

  /** Starting later, but not past the answer, finds the same row. */
  lemma FirstSkips(v: seq<Pending>, i: nat, from: nat, later: nat, h: real)
    requires i < |v| && from <= |v| && from <= later <= FirstFrom(v, i, from, h)
    ensures FirstFrom(v, i, later, h) == FirstFrom(v, i, from, h)
  {
  }

  /** Non-decreasing timestamps put the naive rows in order, whatever the horizon. */
  lemma OrderedTimesOrderNaive(v: seq<Pending>, h: real)
    requires TimesOrdered(v)
    ensures NaiveOrdered(v, h)
  {
    forall i | 0 < i < |v|
      ensures Naive(v, i - 1, h) <= Naive(v, i, h)
    {
      var j := Naive(v, i, h);
      if j < |v| {
        assert v[j].startTs - v[i - 1].startTs >= v[j].startTs - v[i].startTs;
        assert HorizonPassed(v, i - 1, j, h);
      }
    }
  }

  lemma {:induction false} SameLabels(v: seq<Pending>, n: nat, h: real, threshold: int)
    requires n <= |v| && NaiveOrdered(v, h)
    ensures LabelsOf(v, n, h, threshold) == NaiveLabels(v, n, h, threshold)
  {
    if n > 0 {
      SameLabels(v, n - 1, h, threshold);
      OrderedQueueIsNaive(v, n - 1, h);
    }
  }

  /** Rows that never finalize add nothing, so the labels of a prefix are all the labels. */
  lemma {:induction false} UnfinalizedAddNothing(v: seq<Pending>, p: nat, n: nat, h: real, threshold: int)
    requires p <= n <= |v| && forall i :: p <= i < n ==> Queued(v, i, h) == |v|
    ensures LabelsOf(v, n, h, threshold) == LabelsOf(v, p, h, threshold)
  {
    hide Queued, Finalized;
    if p < n {
      UnfinalizedAddNothing(v, p, n - 1, h, threshold);
    }
  }

  /**
   With non-decreasing timestamps the streamed output is the naive labelling of the whole
   file, and the rows left in the queue are exactly the ones with no row a horizon later.
   */
  lemma StreamIsNaive(rows: seq<Row>, h: real, threshold: int, out: seq<Label>, pending: seq<Pending>)
    requires TimesOrdered(UsableRows(rows)) && Streamed(rows, h, threshold, out, pending)
    ensures var v := UsableRows(rows);
            && out == NaiveLabels(v, |v|, h, threshold)
            && (forall i :: 0 <= i < |v| ==> (i < |v| - |pending| <==> Naive(v, i, h) < |v|))
  {
    var v := UsableRows(rows);
    OrderedTimesOrderNaive(v, h);
    UnfinalizedAddNothing(v, |v| - |pending|, |v|, h, threshold);
    SameLabels(v, |v|, h, threshold);
    forall i | 0 <= i < |v|
      ensures Queued(v, i, h) == Naive(v, i, h)
    {
      OrderedQueueIsNaive(v, i, h);
    }
  }

  // ---------- row order ----------

  lemma {:induction false} UsableIndicesIncrease(rows: seq<Row>)
    ensures var v := UsableRows(rows);
            && (forall i :: 0 <= i < |v| ==> v[i].rowIndex < |rows|)
            && (forall i, j :: 0 <= i < j < |v| ==> v[i].rowIndex < v[j].rowIndex)
  {
    if rows == [] {
    } else {
      var n := |rows| - 1;
      UsableIndicesIncrease(rows[..n]);
      assert UsableRows(rows) == UsableRows(rows[..n])
        || UsableRows(rows) == UsableRows(rows[..n]) + [Pending(rows[n].ts, rows[n].ask + rows[n].bid, n)];
    }
  }

  predicate RowOrdered(out: seq<Label>) {
    forall a, b :: 0 <= a < b < |out| ==> out[a].rowIndex < out[b].rowIndex
  }

  predicate RowsUpTo(out: seq<Label>, row: int) {
    forall a :: 0 <= a < |out| ==> out[a].rowIndex <= row
  }

  /** Labels come out in row order, each row at most once, for any timestamps. */
  lemma {:induction false} LabelsInRowOrder(rows: seq<Row>, n: nat, h: real, threshold: int)
    requires n <= |UsableRows(rows)|
    ensures var v, out := UsableRows(rows), LabelsOf(UsableRows(rows), n, h, threshold);
            RowOrdered(out) && RowsUpTo(out, if n == 0 then -1 else v[n - 1].rowIndex)
  {
    hide Queued, UsableRows, LabelsOf, Finalized, RowOrdered, RowsUpTo;
    var v := UsableRows(rows);
    if n == 0 {
      NoLabels(v, h, threshold);
    } else {
      LabelsInRowOrder(rows, n - 1, h, threshold);
      UsableIndicesIncrease(rows);
      LabelsOfStep(v, n, h, threshold);
      AppendKeepsOrder(LabelsOf(v, n - 1, h, threshold), NextLabels(v, n, h, threshold), v[n - 1].rowIndex,
                       if n > 1 then v[n - 2].rowIndex else -1);
    }
  }

  /** What the n-th usable row adds to the output. */
  function NextLabels(v: seq<Pending>, n: nat, h: real, threshold: int): (ls: seq<Label>)
    requires 0 < n <= |v|
    ensures |ls| <= 1 && forall l :: l in ls ==> l.rowIndex == v[n - 1].rowIndex
  {
    var j := Queued(v, n - 1, h);
    if j < |v| then Finalized(v[n - 1], v[j].midSum, threshold) else []
  }

  lemma LabelsOfStep(v: seq<Pending>, n: nat, h: real, threshold: int)
    requires 0 < n <= |v|
    ensures LabelsOf(v, n, h, threshold) == LabelsOf(v, n - 1, h, threshold) + NextLabels(v, n, h, threshold)
  {
  }

  lemma NoLabels(v: seq<Pending>, h: real, threshold: int)
    ensures LabelsOf(v, 0, h, threshold) == [] && RowOrdered([]) && RowsUpTo([], -1)
  {
  }

  lemma AppendKeepsOrder(before: seq<Label>, more: seq<Label>, row: int, prev: int)
    requires RowOrdered(before) && RowsUpTo(before, prev) && prev < row
    requires |more| <= 1 && forall l :: l in more ==> l.rowIndex == row
    ensures RowOrdered(before + more) && RowsUpTo(before + more, row)
  {
    if more == [] {
      assert before + more == before;
    } else {
      assert more[0] in more;
    }
  }

  // ---------- what a label says about the rows ----------

  /** A row with a quote on both sides. */
  predicate Quoted(rows: seq<Row>, i: int) {
    0 <= i < |rows| && rows[i].Quote? && rows[i].ask < 9_999_999_999 && rows[i].bid > -9_999_999_999
  }

  /** The label of row i against row j: times and mid sums of the two rows, and the sign of the move. */
  predicate LabelOf(l: Label, rows: seq<Row>, i: int, j: int, threshold: int) {
    && Quoted(rows, i) && Quoted(rows, j) && i <= j
    && l.startTs == rows[i].ts && l.rowIndex == i
    && l.midNow == rows[i].ask + rows[i].bid && l.midLater == rows[j].ask + rows[j].bid
    && l.sign == (if l.midLater > l.midNow then 1 else -1)
    && Abs(l.midLater - l.midNow) >= threshold
  }

  /** Row j is at least a horizon after row i. */
  predicate Later(rows: seq<Row>, i: int, j: int, h: real) {
    Quoted(rows, i) && Quoted(rows, j) && rows[j].ts - rows[i].ts >= h
  }

  /** Row j is the first quote from row i on that is. */
  predicate FirstLater(rows: seq<Row>, i: int, j: int, h: real) {
    i <= j && Later(rows, i, j, h) && forall k :: i <= k < j ==> !Later(rows, i, k, h)
  }

  /** The label is true of its row and some row a horizon later. */
  predicate TrueLabel(l: Label, rows: seq<Row>, h: real, threshold: int) {
    exists j :: 0 <= j < |rows| && LabelOf(l, rows, l.rowIndex, j, threshold) && Later(rows, l.rowIndex, j, h)
  }

  predicate OnlyTrueLabels(rows: seq<Row>, h: real, threshold: int, out: seq<Label>) {
    forall a :: 0 <= a < |out| ==> TrueLabel(out[a], rows, h, threshold)
  }

  /** ... and that row is the first. */
  predicate FirstLabel(l: Label, rows: seq<Row>, h: real, threshold: int) {
    exists j :: 0 <= j < |rows| && LabelOf(l, rows, l.rowIndex, j, threshold) && FirstLater(rows, l.rowIndex, j, h)
  }

  predicate OnlyFirstLabels(rows: seq<Row>, h: real, threshold: int, out: seq<Label>) {
    forall a :: 0 <= a < |out| ==> FirstLabel(out[a], rows, h, threshold)
  }

  /** The first row a horizon after row i moved far enough from it. */
  predicate Moved(rows: seq<Row>, i: int, j: int, h: real, threshold: int) {
    && FirstLater(rows, i, j, h)
    && Abs(rows[j].ask + rows[j].bid - (rows[i].ask + rows[i].bid)) >= threshold
  }

  predicate Labelled(rows: seq<Row>, i: int, j: int, threshold: int, out: seq<Label>) {
    exists a :: 0 <= a < |out| && LabelOf(out[a], rows, i, j, threshold)
  }

  /** The labels are exactly those of the rows whose first row a horizon later moved far enough. */
  predicate ExactlyFirstLabels(rows: seq<Row>, h: real, threshold: int, out: seq<Label>) {
    && OnlyFirstLabels(rows, h, threshold, out)
    && forall i, j :: 0 <= i < |rows| && 0 <= j < |rows| && Moved(rows, i, j, h, threshold) ==>
         Labelled(rows, i, j, threshold, out)
  }

  /** The quotes come in time order. */
  predicate QuotesOrdered(rows: seq<Row>) {
    forall i, j :: 0 <= i <= j < |rows| && Quoted(rows, i) && Quoted(rows, j) ==> rows[i].ts <= rows[j].ts
  }

  /** The usable rows are the quotes, in order and with their time and mid sum. */
  predicate IsRow(p: Pending, rows: seq<Row>) {
    Quoted(rows, p.rowIndex) && p.startTs == rows[p.rowIndex].ts
    && p.midSum == rows[p.rowIndex].ask + rows[p.rowIndex].bid
  }

  lemma UsableSnoc(rows: seq<Row>)
    requires rows != []
    ensures var n := |rows| - 1;
            var front, v := UsableRows(rows[..n]), UsableRows(rows);
            if Quoted(rows, n) then v == front + [Pending(rows[n].ts, rows[n].ask + rows[n].bid, n)] else v == front
  {
  }

  lemma QuotedPrefix(rows: seq<Row>, n: nat, i: int)
    requires i < n <= |rows|
    ensures Quoted(rows[..n], i) <==> Quoted(rows, i)
    ensures Quoted(rows, i) ==> rows[..n][i] == rows[i]
  {
  }

  lemma {:induction false} UsableRowsAreQuotes(rows: seq<Row>)
    ensures forall k :: 0 <= k < |UsableRows(rows)| ==> IsRow(UsableRows(rows)[k], rows)
    ensures forall i :: 0 <= i < |rows| && Quoted(rows, i) ==>
              exists k :: 0 <= k < |UsableRows(rows)| && UsableRows(rows)[k].rowIndex == i
  {
    if rows == [] {
    } else {
      hide UsableRows, Quoted;
      var n := |rows| - 1;
      var front, v := UsableRows(rows[..n]), UsableRows(rows);
      UsableRowsAreQuotes(rows[..n]);
      UsableSnoc(rows);
      forall k | 0 <= k < |v|
        ensures IsRow(v[k], rows)
      {
        if k < |front| {
          assert v[k] == front[k];
          assert IsRow(front[k], rows[..n]);
          QuotedInside(rows[..n], v[k].rowIndex);
          QuotedPrefix(rows, n, v[k].rowIndex);
        }
      }
      forall i | 0 <= i < |rows| && Quoted(rows, i)
        ensures exists k :: 0 <= k < |v| && v[k].rowIndex == i
      {
        if i < n {
          QuotedPrefix(rows, n, i);
          var k :| 0 <= k < |front| && front[k].rowIndex == i;
          assert v[k] == front[k];
        } else {
          assert v[|v| - 1].rowIndex == n;
        }
      }
    }
  }

  lemma QuotedInside(rows: seq<Row>, i: int)
    requires Quoted(rows, i)
    ensures 0 <= i < |rows| && rows[i].Quote?
  {
  }

  lemma QuotesOrderTimes(rows: seq<Row>)
    requires QuotesOrdered(rows)
    ensures TimesOrdered(UsableRows(rows))
  {
    UsableRowsAreQuotes(rows);
    UsableIndicesIncrease(rows);
    var v := UsableRows(rows);
    forall i, j | 0 <= i <= j < |v|
      ensures v[i].startTs <= v[j].startTs
    {
      assert IsRow(v[i], rows) && IsRow(v[j], rows);
      assert i < j ==> v[i].rowIndex < v[j].rowIndex;
    }
  }

  /** What one finalization writes, in terms of the rows. */
  lemma FinalizedIsTrue(rows: seq<Row>, p: Pending, q: Pending, threshold: int)
    requires IsRow(p, rows) && IsRow(q, rows) && p.rowIndex <= q.rowIndex
    ensures forall l :: l in Finalized(p, q.midSum, threshold) ==>
              l.rowIndex == p.rowIndex && LabelOf(l, rows, p.rowIndex, q.rowIndex, threshold)
    ensures Abs(q.midSum - p.midSum) >= threshold ==> |Finalized(p, q.midSum, threshold)| == 1
  {
  }

  lemma QueuedIsLater(v: seq<Pending>, i: nat, h: real)
    requires i < |v| && Queued(v, i, h) < |v|
    ensures HorizonPassed(v, i, Queued(v, i, h), h)
  {
  }

  lemma OnlyTrueAppend(rows: seq<Row>, h: real, threshold: int, before: seq<Label>, more: seq<Label>)
    requires OnlyTrueLabels(rows, h, threshold, before)
    requires forall l :: l in more ==> TrueLabel(l, rows, h, threshold)
    ensures OnlyTrueLabels(rows, h, threshold, before + more)
  {
    hide TrueLabel;
    forall a | 0 <= a < |before + more|
      ensures TrueLabel((before + more)[a], rows, h, threshold)
    {
      if a >= |before| {
        assert (before + more)[a] == more[a - |before|];
      }
    }
  }

  /** For any timestamps: the labels of the first n usable rows are true. */
  lemma {:induction false} LabelsAreTrue(rows: seq<Row>, n: nat, h: real, threshold: int)
    requires n <= |UsableRows(rows)|
    ensures OnlyTrueLabels(rows, h, threshold, LabelsOf(UsableRows(rows), n, h, threshold))
  {
    hide UsableRows, LabelsOf, OnlyTrueLabels, TrueLabel, NextLabels;
    var v := UsableRows(rows);
    if n == 0 {
      NoLabels(v, h, threshold);
      NoLabelsAreTrue(rows, h, threshold);
    } else {
      LabelsAreTrue(rows, n - 1, h, threshold);
      LabelsOfStep(v, n, h, threshold);
      NextLabelsAreTrue(rows, n, h, threshold);
      OnlyTrueAppend(rows, h, threshold, LabelsOf(v, n - 1, h, threshold), NextLabels(v, n, h, threshold));
    }
  }

  lemma NextLabelsAreTrue(rows: seq<Row>, n: nat, h: real, threshold: int)
    requires 0 < n <= |UsableRows(rows)|
    ensures forall l :: l in NextLabels(UsableRows(rows), n, h, threshold) ==> TrueLabel(l, rows, h, threshold)
  {
    hide LabelOf, Finalized, UsableRows, Quoted, Queued;
    var v := UsableRows(rows);
    var j := Queued(v, n - 1, h);
    if j < |v| {
      UsableRowsAreQuotes(rows);
      UsableIndicesIncrease(rows);
      QueuedIsLater(v, n - 1, h);
      assert IsRow(v[n - 1], rows) && IsRow(v[j], rows);
      FinalizedIsTrue(rows, v[n - 1], v[j], threshold);
      QuotedInside(rows, v[j].rowIndex);
    }
  }

  lemma NoLabelsAreTrue(rows: seq<Row>, h: real, threshold: int)
    ensures OnlyTrueLabels(rows, h, threshold, [])
  {
  }

  /** The naive row of a usable row is the first later one among the rows of the file. */
  lemma NaiveIsFirstLater(rows: seq<Row>, n: nat, h: real)
    requires n < |UsableRows(rows)|
    ensures var v := UsableRows(rows);
            var j := Naive(v, n, h);
            && IsRow(v[n], rows)
            && (j < |v| ==> IsRow(v[j], rows) && FirstLater(rows, v[n].rowIndex, v[j].rowIndex, h))
            && (j == |v| ==> forall r :: v[n].rowIndex <= r < |rows| ==> !Later(rows, v[n].rowIndex, r, h))
  {
    hide UsableRows;
    UsableRowsAreQuotes(rows);
    UsableIndicesIncrease(rows);
    var v := UsableRows(rows);
    var j := Naive(v, n, h);
    assert IsRow(v[n], rows);
    forall r | v[n].rowIndex <= r < |rows| && (j < |v| ==> r < v[j].rowIndex)
      ensures !Later(rows, v[n].rowIndex, r, h)
    {
      if Quoted(rows, r) {
        var k :| 0 <= k < |v| && v[k].rowIndex == r;
        assert IsRow(v[k], rows);
        assert n <= k < j;
        assert !HorizonPassed(v, n, k, h);
      }
    }
    if j < |v| {
      assert IsRow(v[j], rows) && HorizonPassed(v, n, j, h);
    }
  }

  /** The naive labels of the first n usable rows: only first-later ones, and all of those. */
  predicate FirstLabelsUpTo(rows: seq<Row>, v: seq<Pending>, n: nat, h: real, threshold: int, out: seq<Label>)
    requires n <= |v|
  {
    && OnlyFirstLabels(rows, h, threshold, out)
    && forall k, j :: 0 <= k < n && 0 <= j < |rows| && Moved(rows, v[k].rowIndex, j, h, threshold) ==>
         Labelled(rows, v[k].rowIndex, j, threshold, out)
  }

  lemma FirstLabelsAppend(rows: seq<Row>, v: seq<Pending>, n: nat, h: real, threshold: int,
                          before: seq<Label>, more: seq<Label>)
    requires n < |v| && FirstLabelsUpTo(rows, v, n, h, threshold, before)
    requires forall l :: l in more ==> FirstLabel(l, rows, h, threshold)
    requires forall j :: 0 <= j < |rows| && Moved(rows, v[n].rowIndex, j, h, threshold) ==>
               Labelled(rows, v[n].rowIndex, j, threshold, more)
    ensures FirstLabelsUpTo(rows, v, n + 1, h, threshold, before + more)
  {
    hide FirstLabel, Moved, LabelOf;
    var out := before + more;
    forall a | 0 <= a < |out|
      ensures FirstLabel(out[a], rows, h, threshold)
    {
      if a >= |before| {
        assert out[a] == more[a - |before|];
      }
    }
    forall k, j | 0 <= k < n + 1 && 0 <= j < |rows| && Moved(rows, v[k].rowIndex, j, h, threshold)
      ensures Labelled(rows, v[k].rowIndex, j, threshold, out)
    {
      if k < n {
        var a :| 0 <= a < |before| && LabelOf(before[a], rows, v[k].rowIndex, j, threshold);
        assert out[a] == before[a];
      } else {
        var a :| 0 <= a < |more| && LabelOf(more[a], rows, v[k].rowIndex, j, threshold);
        assert out[|before| + a] == more[a];
      }
    }
  }

  /** The label the first later row gives, if it moved far enough. */
  lemma OneFirstLabel(rows: seq<Row>, p: Pending, q: Pending, h: real, threshold: int)
    requires IsRow(p, rows) && IsRow(q, rows) && FirstLater(rows, p.rowIndex, q.rowIndex, h)
    ensures forall l :: l in Finalized(p, q.midSum, threshold) ==> FirstLabel(l, rows, h, threshold)
    ensures forall j :: 0 <= j < |rows| && Moved(rows, p.rowIndex, j, h, threshold) ==>
              Labelled(rows, p.rowIndex, j, threshold, Finalized(p, q.midSum, threshold))
  {
    hide LabelOf, Finalized;
    FinalizedIsTrue(rows, p, q, threshold);
    var more := Finalized(p, q.midSum, threshold);
    forall j | 0 <= j < |rows| && Moved(rows, p.rowIndex, j, h, threshold)
      ensures Labelled(rows, p.rowIndex, j, threshold, more)
    {
      assert j == q.rowIndex;
      assert more[0] in more;
    }
  }

  lemma {:induction false} NaiveLabelsUpTo(rows: seq<Row>, n: nat, h: real, threshold: int)
    requires n <= |UsableRows(rows)|
    ensures var v := UsableRows(rows);
            FirstLabelsUpTo(rows, v, n, h, threshold, NaiveLabels(v, n, h, threshold))
  {
    hide Finalized, UsableRows, FirstLater, LabelOf, FirstLabel, Labelled, Quoted, Naive;
    var v := UsableRows(rows);
    if n == 0 {
    } else {
      NaiveLabelsUpTo(rows, n - 1, h, threshold);
      NaiveIsFirstLater(rows, n - 1, h);
      var p, j := v[n - 1], Naive(v, n - 1, h);
      var more := if j < |v| then Finalized(p, v[j].midSum, threshold) else [];
      if j < |v| {
        OneFirstLabel(rows, p, v[j], h, threshold);
      } else {
        forall r | 0 <= r < |rows|
          ensures !Moved(rows, p.rowIndex, r, h, threshold)
        {
          NotMoved(rows, p.rowIndex, r, h, threshold);
        }
      }
      FirstLabelsAppend(rows, v, n - 1, h, threshold, NaiveLabels(v, n - 1, h, threshold), more);
    }
  }

  lemma NotMoved(rows: seq<Row>, i: int, r: int, h: real, threshold: int)
    requires r >= i ==> !Later(rows, i, r, h)
    ensures !Moved(rows, i, r, h, threshold)
  {
  }

  lemma NaiveLabelsAreExact(rows: seq<Row>, h: real, threshold: int)
    ensures var v := UsableRows(rows);
            ExactlyFirstLabels(rows, h, threshold, NaiveLabels(v, |v|, h, threshold))
  {
    hide LabelOf, UsableRows, NaiveLabels, FirstLabel, Labelled, Quoted;
    var v := UsableRows(rows);
    var out := NaiveLabels(v, |v|, h, threshold);
    NaiveLabelsUpTo(rows, |v|, h, threshold);
    UsableRowsAreQuotes(rows);
    forall i, j | 0 <= i < |rows| && 0 <= j < |rows| && Moved(rows, i, j, h, threshold)
      ensures Labelled(rows, i, j, threshold, out)
    {
      var k :| 0 <= k < |v| && v[k].rowIndex == i;
      assert Moved(rows, v[k].rowIndex, j, h, threshold);
    }
  }

  /** A row out of time order holds back the rows behind it. */
  lemma UnorderedTimesBlock()
    ensures var v := [Pending(10.0, 0, 0), Pending(0.0, 0, 1), Pending(5.0, 8, 2)];
            Naive(v, 1, 4.0) == 2 && Queued(v, 1, 4.0) == 3
  {
  }
}

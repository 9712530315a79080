/**
 The echo server's three threads as interleaved steps over two bounded queues: the
 receiver fills one, the processor moves answers to the other, the sender empties it.
 */
module EchoThreads {
  import opened Words

  const HDR_LEN := 32

  /** What the processor looks at in a datagram. */
  datatype Datagram = Datagram(length: nat, magicOk: bool, msgType: nat, flags: nat, seqNo: nat, tSend: nat, addr: int)

  /** The echoed header fields of a reply. */
  datatype Reply = Reply(msgType: nat, flags: nat, seqNo: nat, tSend: nat, addr: int)

  /** A reply and the number of the dequeued datagram it was built for. */
  datatype Tagged = Tagged(source: nat, reply: Reply)

  /** Short datagrams, foreign ones and other message types get no answer. */
  predicate Ignored(d: Datagram) {
    d.length < HDR_LEN || !d.magicOk || d.msgType > 1
  }

  /** PING (0) is echoed as such; DELTAS (1) are answered with FEATURES, 2 or 4. */
  function Answer(d: Datagram, timing: bool): Reply {
    Reply(if d.msgType == 0 then 0 else if timing then 4 else 2, d.flags, d.seqNo, d.tSend, d.addr)
  }

  datatype Config = Config(rxMax: int, txMax: int, timing: bool)

  /** Where the processor is: waiting, working on the datagram it took last, or holding its reply. */
  datatype Processor = Idle | Working | Holding(reply: Tagged)

  datatype State = State(
    received: seq<Datagram>,      // everything recvfrom returned
    rxHand: Option<Datagram>,     // received, not yet put
    rxOwed: bool,                 // put, not yet counted
    rxQueue: seq<Datagram>,
    dequeued: seq<Datagram>,      // everything the processor took
    processor: Processor,
    failures: nat,                // exceptions the processor swallowed
    txQueue: seq<Tagged>,
    txHand: Option<Tagged>,       // taken, not yet sent
    txOwed: bool,                 // sent, not yet counted
    sent: seq<Tagged>,
    rxAlive: bool, txAlive: bool,
    rxPkts: nat, txPkts: nat)     // the shared counters

  function Start(): State {
    State([], None, false, [], [], Idle, 0, [], None, false, [], true, true, 0, 0)
  }

  datatype Event =
    | Receive(d: Datagram) | PutRx | CountRx | ReceiverDies
    | Take | Ignore | Build | Fail | PutTx
    | Pick | Send | CountTx | SenderDies

  /** A full queue blocks its producer; a size of 0 or less means no bound. */
  predicate Room(length: nat, max: int) { max <= 0 || length < max }

  predicate Enabled(s: State, e: Event, c: Config) {
    match e
    case Receive(d) => s.rxAlive && s.rxHand.None? && !s.rxOwed
    case PutRx => s.rxAlive && s.rxHand.Some? && Room(|s.rxQueue|, c.rxMax)
    case CountRx => s.rxAlive && s.rxOwed
    case ReceiverDies => s.rxAlive && s.rxHand.None? && !s.rxOwed
    case Take => s.processor.Idle? && s.rxQueue != []
    case Ignore => s.processor.Working? && |s.dequeued| > 0 && Ignored(s.dequeued[|s.dequeued| - 1])
    case Build => s.processor.Working? && |s.dequeued| > 0 && !Ignored(s.dequeued[|s.dequeued| - 1])
    case Fail => s.processor.Working? && |s.dequeued| > 0 && !Ignored(s.dequeued[|s.dequeued| - 1])
    case PutTx => s.processor.Holding? && Room(|s.txQueue|, c.txMax)
    case Pick => s.txAlive && s.txHand.None? && !s.txOwed && s.txQueue != []
    case Send => s.txAlive && s.txHand.Some?
    case CountTx => s.txAlive && s.txOwed
    case SenderDies => s.txAlive && s.txHand.Some?
  }

  function Apply(s: State, e: Event, c: Config): State
    requires Enabled(s, e, c)
  {
    match e
    case Receive(d) => s.(received := s.received + [d], rxHand := Some(d))
    case PutRx => s.(rxQueue := s.rxQueue + [s.rxHand.value], rxHand := None, rxOwed := true)
    case CountRx => s.(rxOwed := false, rxPkts := s.rxPkts + 1)
    case ReceiverDies => s.(rxAlive := false)
    case Take => s.(dequeued := s.dequeued + [s.rxQueue[0]], rxQueue := s.rxQueue[1..], processor := Working)
    case Ignore => s.(processor := Idle)
    case Build =>
      var n := |s.dequeued| - 1;
      s.(processor := Holding(Tagged(n, Answer(s.dequeued[n], c.timing))))
    case Fail => s.(processor := Idle, failures := s.failures + 1)
    case PutTx => s.(txQueue := s.txQueue + [s.processor.reply], processor := Idle)
    case Pick => s.(txHand := Some(s.txQueue[0]), txQueue := s.txQueue[1..])
    case Send => s.(sent := s.sent + [s.txHand.value], txHand := None, txOwed := true)
    case CountTx => s.(txOwed := false, txPkts := s.txPkts + 1)
    case SenderDies => s.(txAlive := false)
  }

  // ---------- what every step keeps ----------

  function InHand<T>(o: Option<T>): seq<T> {
    if o.Some? then [o.value] else []
  }

  function Held(p: Processor): seq<Tagged> {
    if p.Holding? then [p.reply] else []
  }

  /** Every reply built so far, in order: sent, in the sender's hand, queued, held. */
  function Replies(s: State): seq<Tagged> {
    s.sent + InHand(s.txHand) + s.txQueue + Held(s.processor)
  }

  /** The datagrams the processor is done with (it may still hold the reply). */
  function Handled(s: State): nat {
    if s.processor.Working? && |s.dequeued| > 0 then |s.dequeued| - 1 else |s.dequeued|
  }

  /** The replies a processor without exceptions would build. */
  function Answers(ds: seq<Datagram>, timing: bool): seq<Tagged> {
    if ds == [] then []
    else
      var n := |ds| - 1;
      Answers(ds[..n], timing) + if Ignored(ds[n]) then [] else [Tagged(n, Answer(ds[n], timing))]
  }

  predicate Ordered(rs: seq<Tagged>) {
    forall i, j :: 0 <= i < j < |rs| ==> rs[i].source < rs[j].source
  }

  /** No reply is fabricated: each answers a datagram that was taken and calls for an answer. */
  predicate Genuine(rs: seq<Tagged>, ds: seq<Datagram>, timing: bool) {
    forall i :: 0 <= i < |rs| ==>
      rs[i].source < |ds| && !Ignored(ds[rs[i].source]) && rs[i].reply == Answer(ds[rs[i].source], timing)
  }

  predicate Conserved(s: State, c: Config) {
    && s.received == s.dequeued + s.rxQueue + InHand(s.rxHand)
    && (s.processor.Working? ==> |s.dequeued| > 0)
    && |Replies(s)| + s.failures == |Answers(s.dequeued[..Handled(s)], c.timing)|
    && (s.failures == 0 ==> Replies(s) == Answers(s.dequeued[..Handled(s)], c.timing))
  }

  predicate InOrder(s: State, c: Config) {
    Ordered(Replies(s)) && Genuine(Replies(s), s.dequeued[..Handled(s)], c.timing)
  }

  /** A counter moves after the operation it counts, so it may be one behind. */
  function Owed(owed: bool): nat { if owed then 1 else 0 }

  /** The queues keep their bounds, and the counters are exact but for what is owed. */
  predicate Bounded(s: State, c: Config) {
    && (c.rxMax > 0 ==> |s.rxQueue| <= c.rxMax)
    && (c.txMax > 0 ==> |s.txQueue| <= c.txMax)
    && s.rxPkts + Owed(s.rxOwed) + |InHand(s.rxHand)| == |s.received|
    && s.txPkts + Owed(s.txOwed) == |s.sent|
    && (s.rxOwed ==> s.rxAlive && s.rxHand.None?)
    && (s.txOwed ==> s.txAlive && s.txHand.None?)
  }

  predicate Inv(s: State, c: Config) { Conserved(s, c) && InOrder(s, c) && Bounded(s, c) }

  lemma StartOk(c: Config)
    ensures Inv(Start(), c)
  {
  }

  lemma AnswersSnoc(ds: seq<Datagram>, d: Datagram, timing: bool)
    ensures Answers(ds + [d], timing)
         == Answers(ds, timing) + if Ignored(d) then [] else [Tagged(|ds|, Answer(d, timing))]
  {
  }

  /** Steps that only move a reply along leave the sequence of replies as it is. */
  lemma RepliesMove(s: State, e: Event, c: Config)
    requires Enabled(s, e, c) && !e.Build?
    ensures Replies(Apply(s, e, c)) == Replies(s)
  {
  }

  lemma BoundedStep(s: State, e: Event, c: Config)
    requires Bounded(s, c) && Enabled(s, e, c)
    ensures Bounded(Apply(s, e, c), c)
  {
    hide Ignored, Answer, Inv, Conserved, InOrder;
    var s' := Apply(s, e, c);
    assert |s'.rxQueue| <= |s.rxQueue| || (e.PutRx? && |s'.rxQueue| == |s.rxQueue| + 1);
    assert |s'.txQueue| <= |s.txQueue| || (e.PutTx? && |s'.txQueue| == |s.txQueue| + 1);
  }

  lemma ReceivedStep(s: State, e: Event, c: Config)
    requires Conserved(s, c) && Enabled(s, e, c)
    ensures var s' := Apply(s, e, c); s'.received == s'.dequeued + s'.rxQueue + InHand(s'.rxHand)
  {
  }

  /** The datagrams handled after a step: one more exactly when the processor finishes one. */
  lemma HandledStep(s: State, e: Event, c: Config)
    requires Conserved(s, c) && Enabled(s, e, c)
    ensures var s' := Apply(s, e, c);
            s'.dequeued[..Handled(s')]
            == if e.Ignore? || e.Build? || e.Fail? then s.dequeued[..Handled(s)] + [s.dequeued[|s.dequeued| - 1]]
               else s.dequeued[..Handled(s)]
  {
  }

  lemma BuildReplies(s: State, c: Config)
    requires Enabled(s, Build, c)
    ensures var n := |s.dequeued| - 1;
            && Handled(s) == n
            && Replies(Apply(s, Build, c)) == Replies(s) + [Tagged(n, Answer(s.dequeued[n], c.timing))]
  {
  }

  lemma ConservedStep(s: State, e: Event, c: Config)
    requires Conserved(s, c) && Enabled(s, e, c)
    ensures Conserved(Apply(s, e, c), c)
  {
    hide Answers, Replies, Ignored;
    var s' := Apply(s, e, c);
    ReceivedStep(s, e, c);
    HandledStep(s, e, c);
    if e.Ignore? || e.Build? || e.Fail? {
      AnswersSnoc(s.dequeued[..Handled(s)], s.dequeued[|s.dequeued| - 1], c.timing);
    }
    if e.Build? {
      BuildReplies(s, c);
    } else {
      RepliesMove(s, e, c);
    }
  }

  lemma OrderedSnoc(rs: seq<Tagged>, t: Tagged, ds: seq<Datagram>, d: Datagram, timing: bool)
    requires Ordered(rs) && Genuine(rs, ds, timing)
    requires t == Tagged(|ds|, Answer(d, timing)) && !Ignored(d)
    ensures Ordered(rs + [t]) && Genuine(rs + [t], ds + [d], timing)
  {
  }

  lemma GenuineGrows(rs: seq<Tagged>, ds: seq<Datagram>, d: Datagram, timing: bool)
    requires Genuine(rs, ds, timing)
    ensures Genuine(rs, ds + [d], timing)
  {
  }

  lemma InOrderStep(s: State, e: Event, c: Config)
    requires Conserved(s, c) && InOrder(s, c) && Enabled(s, e, c)
    ensures InOrder(Apply(s, e, c), c)
  {
    hide Replies, Ordered, Genuine, Ignored;
    HandledStep(s, e, c);
    if e.Build? {
      BuildReplies(s, c);
      var n := |s.dequeued| - 1;
      OrderedSnoc(Replies(s), Tagged(n, Answer(s.dequeued[n], c.timing)), s.dequeued[..n], s.dequeued[n], c.timing);
    } else {
      RepliesMove(s, e, c);
      if e.Ignore? || e.Fail? {
        GenuineGrows(Replies(s), s.dequeued[..Handled(s)], s.dequeued[|s.dequeued| - 1], c.timing);
      }
    }
  }

  // ---------- every interleaving ----------

  /** A run from `s`: each event is enabled when it happens. */
  predicate Runs(s: State, es: seq<Event>, c: Config)
    decreases |es|
  {
    es != [] ==> Enabled(s, es[0], c) && Runs(Apply(s, es[0], c), es[1..], c)
  }

  function After(s: State, es: seq<Event>, c: Config): State
    requires Runs(s, es, c)
    decreases |es|
  {
    if es == [] then s else After(Apply(s, es[0], c), es[1..], c)
  }

  /**
   In every reachable state: what was received is what was taken followed by the receive
   queue and the receiver's hand; the replies are in order, at most one per datagram, none
   fabricated, and short of the calls for an answer by exactly the swallowed exceptions.
   */
  lemma {:induction false} RunsKeepInv(s: State, es: seq<Event>, c: Config)
    requires Inv(s, c) && Runs(s, es, c)
    ensures Inv(After(s, es, c), c)
    decreases |es|
  {
    hide Enabled, Apply, Inv;
    if es == [] {
    } else {
      InvStep(s, es[0], c);
      RunsKeepInv(Apply(s, es[0], c), es[1..], c);
    }
  }

  /** Nothing is in flight and both counters are up to date. */
  predicate Drained(s: State) {
    && s.rxHand.None? && !s.rxOwed && s.rxQueue == [] && s.processor.Idle?
    && s.txQueue == [] && s.txHand.None? && !s.txOwed
  }

  /** Once drained without exceptions, exactly the answers to everything received were sent, in order. */
  lemma DrainedIsComplete(es: seq<Event>, c: Config)
    requires Runs(Start(), es, c)
    requires Drained(After(Start(), es, c)) && After(Start(), es, c).failures == 0
    ensures var s := After(Start(), es, c);
            s.sent == Answers(s.received, c.timing) && s.rxPkts == |s.received| && s.txPkts == |s.sent|
  {
    StartOk(c);
    RunsKeepInv(Start(), es, c);
    var s := After(Start(), es, c);
    assert s.received == s.dequeued;
    assert s.dequeued[..Handled(s)] == s.dequeued;
    assert Replies(s) == s.sent;
  }

  // ---------- what is answered, and how ----------

  /** A datagram of at least a header, with the magic, that is a ping (0) or deltas (1). */
  predicate CallsForAnswer(d: Datagram) {
    d.length >= 32 && d.magicOk && (d.msgType == 0 || d.msgType == 1)
  }

  /** A ping comes back as a ping, deltas as features (2) or features with timing (4); the rest is echoed. */
  predicate Echoes(r: Reply, d: Datagram, timing: bool) {
    && (d.msgType == 0 ==> r.msgType == 0)
    && (d.msgType == 1 && !timing ==> r.msgType == 2)
    && (d.msgType == 1 && timing ==> r.msgType == 4)
    && r.flags == d.flags && r.seqNo == d.seqNo && r.tSend == d.tSend && r.addr == d.addr
  }

  /** In every reachable state every reply, wherever it is, echoes a datagram that called for it. */
  lemma EveryReplyEchoes(es: seq<Event>, c: Config, k: nat)
    requires Runs(Start(), es, c) && k < |Replies(After(Start(), es, c))|
    ensures var s := After(Start(), es, c);
            var t := Replies(s)[k];
            t.source < |s.received| && CallsForAnswer(s.received[t.source])
            && Echoes(t.reply, s.received[t.source], c.timing)
  {
    StartOk(c);
    RunsKeepInv(Start(), es, c);
    EchoOf(After(Start(), es, c), c, k);
  }

  lemma EchoOf(s: State, c: Config, k: nat)
    requires Inv(s, c) && k < |Replies(s)|
    ensures var t := Replies(s)[k];
            t.source < |s.received| && CallsForAnswer(s.received[t.source])
            && Echoes(t.reply, s.received[t.source], c.timing)
  {
    hide Replies, Answers, Ordered;
    var t := Replies(s)[k];
    assert t.source < Handled(s) <= |s.dequeued|;
    assert s.received[t.source] == s.dequeued[t.source];
  }

  /** Without exceptions, once drained, each datagram that calls for an answer has been sent one. */
  lemma EveryCallIsAnswered(es: seq<Event>, c: Config, i: nat) returns (k: nat)
    requires Runs(Start(), es, c)
    requires Drained(After(Start(), es, c)) && After(Start(), es, c).failures == 0
    requires i < |After(Start(), es, c).received| && CallsForAnswer(After(Start(), es, c).received[i])
    ensures var s := After(Start(), es, c);
            k < |s.sent| && s.sent[k].source == i && Echoes(s.sent[k].reply, s.received[i], c.timing)
  {
    DrainedIsComplete(es, c);
    k := AnswerAt(After(Start(), es, c).received, i, c.timing);
  }

  lemma {:induction false} AnswerAt(ds: seq<Datagram>, i: nat, timing: bool) returns (k: nat)
    requires i < |ds| && CallsForAnswer(ds[i])
    ensures k < |Answers(ds, timing)|
    ensures Answers(ds, timing)[k].source == i && Echoes(Answers(ds, timing)[k].reply, ds[i], timing)
  {
    var n := |ds| - 1;
    if i == n {
      k := |Answers(ds[..n], timing)|;
    } else {
      k := AnswerAt(ds[..n], i, timing);
    }
  }

  // ---------- the pipeline empties itself ----------

  /** The steps the threads take by themselves: no new datagram, no thread dies. */
  predicate Internal(e: Event) {
    !e.Receive? && !e.ReceiverDies? && !e.SenderDies?
  }

  /** While the threads live the pipeline cannot lock up: in flight means some thread can move. */
  lemma NeverStuck(es: seq<Event>, c: Config) returns (e: Event)
    requires Runs(Start(), es, c)
    requires var s := After(Start(), es, c); s.rxAlive && s.txAlive && !Drained(s)
    ensures Internal(e) && !e.Fail? && Enabled(After(Start(), es, c), e, c)
  {
    StartOk(c);
    RunsKeepInv(Start(), es, c);
    e := Movable(After(Start(), es, c), c);
  }

  lemma Movable(s: State, c: Config) returns (e: Event)
    requires Inv(s, c) && s.rxAlive && s.txAlive && !Drained(s)
    ensures Internal(e) && !e.Fail? && Enabled(s, e, c)
  {
    if s.txOwed {
      e := CountTx;
    } else if s.txHand.Some? {
      e := Send;
    } else if s.txQueue != [] {
      e := Pick;
    } else if s.processor.Holding? {
      e := PutTx;
    } else if s.processor.Working? {
      e := if Ignored(s.dequeued[|s.dequeued| - 1]) then Ignore else Build;
    } else if s.rxQueue != [] {
      e := Take;
    } else if s.rxOwed {
      e := CountRx;
    } else {
      e := PutRx;
    }
  }

  /** The steps still to take: each item in flight counts what lies before it. */
  function Work(s: State): nat {
    8 * |InHand(s.rxHand)| + Owed(s.rxOwed) + 6 * |s.rxQueue|
    + (match s.processor case Idle => 0 case Working => 5 case Holding(_) => 4)
    + 3 * |s.txQueue| + 2 * |InHand(s.txHand)| + Owed(s.txOwed)
  }

  lemma WorkShrinks(s: State, e: Event, c: Config)
    requires Enabled(s, e, c) && Internal(e)
    ensures Work(Apply(s, e, c)) < Work(s)
  {
  }

  lemma AliveStays(s: State, e: Event, c: Config)
    requires Enabled(s, e, c) && Internal(e)
    ensures Apply(s, e, c).rxAlive == s.rxAlive && Apply(s, e, c).txAlive == s.txAlive
  {
  }

  predicate AllInternal(es: seq<Event>) {
    forall i :: 0 <= i < |es| ==> Internal(es[i])
  }

  /**
   Whatever the schedule, exceptions of the processor included: without new datagrams no run
   is longer than the work, and one that cannot be continued has drained the pipeline.
   */
  lemma {:induction false} EveryScheduleDrains(s: State, es: seq<Event>, c: Config)
    requires Inv(s, c) && s.rxAlive && s.txAlive && Runs(s, es, c) && AllInternal(es)
    ensures |es| + Work(After(s, es, c)) <= Work(s)
    ensures (forall e :: Internal(e) ==> !Enabled(After(s, es, c), e, c)) <==> Drained(After(s, es, c))
    decreases |es|
  {
    hide Enabled, Apply, Inv, Work, Internal, Drained;
    if es == [] {
      QuietIffDrained(s, c);
    } else {
      var s' := Apply(s, es[0], c);
      WorkShrinks(s, es[0], c);
      AliveStays(s, es[0], c);
      InvStep(s, es[0], c);
      EveryScheduleDrains(s', es[1..], c);
    }
  }

  lemma InvStep(s: State, e: Event, c: Config)
    requires Inv(s, c) && Enabled(s, e, c)
    ensures Inv(Apply(s, e, c), c)
  {
    hide Enabled, Apply, Conserved, InOrder, Bounded;
    ConservedStep(s, e, c);
    InOrderStep(s, e, c);
    BoundedStep(s, e, c);
  }

  lemma QuietIffDrained(s: State, c: Config)
    requires Inv(s, c) && s.rxAlive && s.txAlive
    ensures (forall e :: Internal(e) ==> !Enabled(s, e, c)) <==> Drained(s)
  {
    if !Drained(s) {
      var e := Movable(s, c);
    }
  }

  /** The work is bounded by what was received: eight steps a datagram, and one count owed by each thread. */
  lemma WorkBound(s: State, c: Config)
    requires Inv(s, c)
    ensures Work(s) <= 8 * |s.received| + 2
  {
    var n := Handled(s);
    AnswersBound(s.dequeued[..n], c.timing);
  }

  lemma {:induction false} AnswersBound(ds: seq<Datagram>, timing: bool)
    ensures |Answers(ds, timing)| <= |ds|
  {
    if ds == [] {
    } else {
      AnswersBound(ds[..|ds| - 1], timing);
    }
  }
}

/**
 How deltas are cut into packets does not matter to the book: the fabric's book,
 OFI and imbalance depend only on the concatenated payloads.
 */
module Batching {
  import opened Words
  import opened Wire
  import opened Fabric

  function Payload(ps: seq<Packet>): seq<Delta> {
    if ps == [] then [] else ps[0].deltas + Payload(ps[1..])
  }

  lemma {:induction false} PayloadAppend(ps: seq<Packet>, qs: seq<Packet>)
    ensures Payload(ps + qs) == Payload(ps) + Payload(qs)
  {
    if ps == [] {
      assert ps + qs == qs;
    } else {
      PayloadAppend(ps[1..], qs);
      assert (ps + qs)[0] == ps[0] && (ps + qs)[1..] == ps[1..] + qs;
      ConcatAssoc(ps[0].deltas, Payload(ps[1..]), Payload(qs));
    }
  }

  lemma {:induction false} DrainAppend(b: Book, ds: seq<Delta>, es: seq<Delta>)
    ensures DrainBook(b, ds + es) == DrainBook(DrainBook(b, ds), es)
  {
    if es == [] {
      assert ds + es == ds;
    } else {
      var n := |es| - 1;
      DrainAppend(b, ds, es[..n]);
      assert (ds + es)[..|ds + es| - 1] == ds + es[..n];
    }
  }

  lemma {:induction false} RunBook(s: State, ps: seq<Packet>)
    ensures Run(s, ps).state.book == DrainBook(s.book, Payload(ps))
    decreases |ps|
  {
    if ps == [] {
    } else {
      RunBook(Packetized(s, ps[0].tSend, ps[0].deltas), ps[1..]);
      DrainAppend(s.book, ps[0].deltas, Payload(ps[1..]));
    }
  }

  /** The part of a feature vector that is read off the book. */
  predicate ReadsBook(f: Features, b: Book) {
    f.ofi == b.ofi && f.imbalance == Imbalance(b.bestBidQty, b.bestAskQty)
  }

  lemma StepReadsPayload(s: State, p: Packet)
    ensures ReadsBook(FeaturesOf(Packetized(s, p.tSend, p.deltas)), DrainBook(s.book, p.deltas))
    ensures Packetized(s, p.tSend, p.deltas).book == DrainBook(s.book, p.deltas)
  {
  }

  lemma PayloadPrefix(ps: seq<Packet>, k: nat)
    requires k < |ps|
    ensures Payload(ps[..k + 1]) == ps[0].deltas + Payload(ps[1..][..k])
  {
    assert ps[..k + 1][0] == ps[0] && ps[..k + 1][1..] == ps[1..][..k];
  }

  lemma EmptyPayload()
    ensures Payload([]) == []
  {
  }

  /** Feature k shows the book after the first k+1 payloads. */
  lemma {:induction false} FeatureReadsPayload(s: State, ps: seq<Packet>, k: nat)
    requires k < |ps|
    ensures ReadsBook(Run(s, ps).features[k], DrainBook(s.book, Payload(ps[..k + 1])))
    decreases |ps|
  {
    hide Packetized, FeaturesOf, ReadsBook, DrainBook, Payload;
    var s' := Packetized(s, ps[0].tSend, ps[0].deltas);
    StepReadsPayload(s, ps[0]);
    PayloadPrefix(ps, k);
    if k == 0 {
      EmptyPayload();
      assert ps[0].deltas + [] == ps[0].deltas;
    } else {
      FeatureReadsPayload(s', ps[1..], k - 1);
      DrainAppend(s.book, ps[0].deltas, Payload(ps[1..][..k]));
    }
  }

  /** Two batchings of the same deltas end in the same book and show the same OFI and imbalance. */
  lemma {:induction false} BatchingIndependent(s: State, ps: seq<Packet>, qs: seq<Packet>)
    requires Payload(ps) == Payload(qs)
    ensures Run(s, ps).state.book == Run(s, qs).state.book
    ensures forall j, k :: 0 <= j < |ps| && 0 <= k < |qs| && Payload(ps[..j + 1]) == Payload(qs[..k + 1]) ==>
              && Run(s, ps).features[j].ofi == Run(s, qs).features[k].ofi
              && Run(s, ps).features[j].imbalance == Run(s, qs).features[k].imbalance
  {
    RunBook(s, ps);
    RunBook(s, qs);
    forall j, k | 0 <= j < |ps| && 0 <= k < |qs| && Payload(ps[..j + 1]) == Payload(qs[..k + 1])
      ensures Run(s, ps).features[j].ofi == Run(s, qs).features[k].ofi
      ensures Run(s, ps).features[j].imbalance == Run(s, qs).features[k].imbalance
    {
      FeatureReadsPayload(s, ps, j);
      FeatureReadsPayload(s, qs, k);
    }
  }

  /**
   A packet without deltas skips the book update, and with it the refresh of the cached
   best levels.  Whatever beats came before, the features it gets are still those of
   level 0 itself.
   */
  lemma ShortcutReadsLevelZero(input: seq<nat>, t: nat)
    ensures var s := Pump(Reset(), input, []).state;
            var s' := Packetized(s, t, []);
            && s'.book == s.book
            && FeaturesOf(s').imbalance == Imbalance(s.book.bid.qty[0], s.book.ask.qty[0])
            && s'.filters.midPrev == Mid(s.book.bid.price[0], s.book.ask.price[0])
  {
    hide Pump;
    PumpSound(Reset(), input, []);
  }
}

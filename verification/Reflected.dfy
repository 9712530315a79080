/**
 A level that is only added to and updated behaves like a reflected walk: the clamp at
 zero turns the net flow into the net flow minus its running minimum.
 */
module Reflected {
  import opened Words
  import opened Wire
  import opened Fabric

  predicate Addresses(d: Delta, side: Byte, lvl: nat) {
    (d.side == 0 <==> side == 0) && d.level == lvl
  }

  function FlowOf(d: Delta, side: Byte, lvl: nat): int {
    if Addresses(d, side, lvl) then d.qty else 0
  }

  /** Net flow into one level; deltas for other levels and the other side may be interleaved. */
  function Net(ds: seq<Delta>, side: Byte, lvl: nat): int {
    if ds == [] then 0 else Net(ds[..|ds| - 1], side, lvl) + FlowOf(ds[|ds| - 1], side, lvl)
  }

  /** The running minimum of the net flow, over every prefix including the empty one. */
  function Lowest(ds: seq<Delta>, side: Byte, lvl: nat): int {
    if ds == [] then 0 else Min(Lowest(ds[..|ds| - 1], side, lvl), Net(ds, side, lvl))
  }

  lemma {:induction false} LowestIsLeast(ds: seq<Delta>, side: Byte, lvl: nat)
    ensures forall k :: 0 <= k <= |ds| ==> Lowest(ds, side, lvl) <= Net(ds[..k], side, lvl)
    ensures exists k :: 0 <= k <= |ds| && Lowest(ds, side, lvl) == Net(ds[..k], side, lvl)
  {
    if ds == [] {
      assert ds[..0] == [];
    } else {
      var n := |ds| - 1;
      LowestIsLeast(ds[..n], side, lvl);
      assert ds[..|ds|] == ds;
      forall k | 0 <= k <= |ds|
        ensures Lowest(ds, side, lvl) <= Net(ds[..k], side, lvl)
      {
        if k <= n { assert ds[..n][..k] == ds[..k]; }
      }
      var k :| 0 <= k <= n && Lowest(ds[..n], side, lvl) == Net(ds[..n][..k], side, lvl);
      assert ds[..n][..k] == ds[..k];
    }
  }

  function QtyAt(b: Book, side: Byte, lvl: nat): int
    requires lvl < BOOK_LEVELS
  {
    if side == 0 then b.bid.qty[lvl] else b.ask.qty[lvl]
  }

  /** From quantity q0: q0 + S_n - min(0, min over k of q0 + S_k); from zero, S_n - min S_k. */
  function ClosedForm(q0: int, ds: seq<Delta>, side: Byte, lvl: nat): int {
    q0 + Net(ds, side, lvl) - Min(0, q0 + Lowest(ds, side, lvl))
  }

  /** The deltas that address the level only add or update. */
  predicate OnlyFlows(ds: seq<Delta>, side: Byte, lvl: nat) {
    forall i :: 0 <= i < |ds| ==>
      FitsWire(ds[i]) && (Addresses(ds[i], side, lvl) ==> ds[i].action == 1 || ds[i].action == 2)
  }

  lemma ClosedFormStep(q0: nat, ds: seq<Delta>, side: Byte, lvl: nat)
    requires ds != []
    ensures ClosedForm(q0, ds, side, lvl)
         == Max(ClosedForm(q0, ds[..|ds| - 1], side, lvl) + FlowOf(ds[|ds| - 1], side, lvl), 0)
    ensures ClosedForm(q0, [], side, lvl) == q0
  {
  }

  lemma QtyStep(b: Book, d: Delta, side: Byte, lvl: nat)
    requires lvl < BOOK_LEVELS && FitsWire(d)
    requires Addresses(d, side, lvl) ==> d.action == 1 || d.action == 2
    requires 0 <= QtyAt(b, side, lvl) <= MAX_I32
    requires QtyAt(b, side, lvl) + FlowOf(d, side, lvl) <= MAX_I32
    ensures QtyAt(UpdateBook(b, d), side, lvl) == Max(QtyAt(b, side, lvl) + FlowOf(d, side, lvl), 0)
  {
  }

  lemma {:induction false} QtyIsReflected(b: Book, ds: seq<Delta>, side: Byte, lvl: nat)
    requires BookSound(b) && lvl < BOOK_LEVELS && OnlyFlows(ds, side, lvl)
    requires forall n :: 0 <= n <= |ds| ==> ClosedForm(QtyAt(b, side, lvl), ds[..n], side, lvl) <= MAX_I32
    ensures QtyAt(DrainBook(b, ds), side, lvl) == ClosedForm(QtyAt(b, side, lvl), ds, side, lvl)
  {
    hide BookSound;
    var q0 := QtyAt(b, side, lvl);
    QtySound(b, [], side, lvl);
    if ds == [] {
      assert ClosedForm(q0, [], side, lvl) == q0;
    } else {
      var m := |ds| - 1;
      forall n | 0 <= n <= m
        ensures ClosedForm(q0, ds[..m][..n], side, lvl) <= MAX_I32
      {
        assert ds[..m][..n] == ds[..n];
      }
      QtyIsReflected(b, ds[..m], side, lvl);
      QtySound(b, ds[..m], side, lvl);
      ClosedFormStep(q0, ds, side, lvl);
      assert ds[..|ds|] == ds;
      var before := DrainBook(b, ds[..m]);
      QtyStep(before, ds[m], side, lvl);
    }
  }

  lemma QtySound(b: Book, ds: seq<Delta>, side: Byte, lvl: nat)
    requires BookSound(b) && lvl < BOOK_LEVELS && OnlyFlows(ds, side, lvl)
    ensures 0 <= QtyAt(DrainBook(b, ds), side, lvl) <= MAX_I32
  {
  }

  /** The closed form describes the level at every moment exactly when it never exceeds int32. */
  lemma QtyIsReflectedIff(b: Book, ds: seq<Delta>, side: Byte, lvl: nat)
    requires BookSound(b) && lvl < BOOK_LEVELS && OnlyFlows(ds, side, lvl)
    ensures var q0 := QtyAt(b, side, lvl);
            (forall n :: 0 <= n <= |ds| ==>
               QtyAt(DrainBook(b, ds[..n]), side, lvl) == ClosedForm(q0, ds[..n], side, lvl))
            <==> (forall n :: 0 <= n <= |ds| ==> ClosedForm(q0, ds[..n], side, lvl) <= MAX_I32)
  {
    var q0 := QtyAt(b, side, lvl);
    forall n | 0 <= n <= |ds|
      ensures QtyAt(DrainBook(b, ds[..n]), side, lvl) <= MAX_I32
    {
      QtySound(b, ds[..n], side, lvl);
    }
    if forall n :: 0 <= n <= |ds| ==> ClosedForm(q0, ds[..n], side, lvl) <= MAX_I32 {
      forall n | 0 <= n <= |ds|
        ensures QtyAt(DrainBook(b, ds[..n]), side, lvl) == ClosedForm(q0, ds[..n], side, lvl)
      {
        forall k | 0 <= k <= n
          ensures ClosedForm(q0, ds[..n][..k], side, lvl) <= MAX_I32
        {
          assert ds[..n][..k] == ds[..k];
        }
        QtyIsReflected(b, ds[..n], side, lvl);
      }
    }
  }
}

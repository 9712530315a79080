/**
 The reflex lane's order book: price-to-quantity dictionaries with a cached best bid and
 best ask that are only recomputed when the best price is deleted.
 */
module SimpleBook {
  import opened Words

  // ---------- one side of the book ----------

  /** The dictionary after one update; deleting a price that is not there is an error and changes nothing. */
  function NextSide(book: map<int, int>, price: int, qty: int, action: int): map<int, int> {
    if action == 1 then
      book[price := if price in book then book[price] + qty else qty]
    else if action == 2 then
      if qty > 0 then book[price := qty] else book - {price}
    else if action == 3 && price in book then
      if book[price] - qty <= 0 then book - {price} else book[price := book[price] - qty]
    else
      book
  }

  /** The quantity at a price; nothing counts as 0. */
  function Held(book: map<int, int>, price: int): int {
    if price in book then book[price] else 0
  }

  /**
   What one update does to the quantities: an add is added, a modify replaces, a reduce is
   taken off, and what a modify or a reduce brings to nothing is gone.  No other price changes.
   */
  ghost predicate QuantityLaw(before: map<int, int>, after: map<int, int>, price: int, qty: int, action: int) {
    && (forall p :: p != price ==> (p in after <==> p in before) && Held(after, p) == Held(before, p))
    && (action == 1 ==> price in after && Held(after, price) == Held(before, price) + qty)
    && (action == 2 ==> (price in after <==> qty > 0) && Held(after, price) == Max(qty, 0))
    && (action == 3 ==>
          && (price in after <==> price in before && Held(before, price) > qty)
          && (price in after ==> Held(after, price) == Held(before, price) - qty))
    && (action !in {1, 2, 3} ==> after == before)
  }

  lemma UpdateLaw(book: map<int, int>, price: int, qty: int, action: int)
    ensures QuantityLaw(book, NextSide(book, price, qty, action), price, qty, action)
  {
  }

  /** Modifying a missing price to nothing raises KeyError. */
  predicate RaisesKeyError(book: map<int, int>, price: int, qty: int, action: int) {
    action == 2 && qty <= 0 && price !in book
  }

  predicate IsMaxKey(best: Option<int>, keys: set<int>) {
    match best
    case None => keys == {}
    case Some(p) => p in keys && forall k :: k in keys ==> k <= p
  }

  predicate IsMinKey(best: Option<int>, keys: set<int>) {
    match best
    case None => keys == {}
    case Some(p) => p in keys && forall k :: k in keys ==> p <= k
  }

  function FromPairs(ps: seq<(int, int)>): map<int, int> {
    if ps == [] then map[] else FromPairs(ps[..|ps| - 1])[ps[|ps| - 1].0 := ps[|ps| - 1].1]
  }

  /** The last entry for a price among the first n. */
  predicate LastEntry(ps: seq<(int, int)>, price: int, qty: int) {
    exists i :: 0 <= i < |ps| && ps[i] == (price, qty) && forall j :: i < j < |ps| ==> ps[j].0 != price
  }

  /** A price is in the dictionary with the quantity of its last entry, or not mentioned at all. */
  lemma {:induction false} FromPairsLaw(ps: seq<(int, int)>, price: int)
    ensures if price in FromPairs(ps) then LastEntry(ps, price, FromPairs(ps)[price])
            else forall i :: 0 <= i < |ps| ==> ps[i].0 != price
  {
    if ps == [] {
    } else {
      var n := |ps| - 1;
      var front := ps[..n];
      FromPairsLaw(front, price);
      assert forall j :: 0 <= j < n ==> front[j] == ps[j];
      if ps[n].0 == price {
        assert ps[n] == (price, FromPairs(ps)[price]);
      } else if price in FromPairs(front) {
        var q := FromPairs(front)[price];
        var i :| 0 <= i < n && front[i] == (price, q) && forall j :: i < j < n ==> front[j].0 != price;
        assert ps[i] == (price, q) && forall j :: i < j < |ps| ==> ps[j].0 != price;
      }
    }
  }

  lemma EmptyIfNone(s: set<int>)
    requires forall k :: k !in s
    ensures s == {}
  {
    assert forall k :: k in s ==> k in {};
  }

  lemma {:induction false} MaxExists(keys: set<int>)
    requires keys != {}
    ensures exists m :: m in keys && IsMaxKey(Some(m), keys)
    decreases |keys|
  {
    if !exists k :: k in keys { EmptyIfNone(keys); }
    var y :| y in keys;
    var rest := keys - {y};
    if rest == {} {
      assert keys == {y};
      assert IsMaxKey(Some(y), keys);
    } else {
      MaxExists(rest);
      var m :| m in rest && IsMaxKey(Some(m), rest);
      LargerIsMax(keys, y, m);
    }
  }

  lemma LargerIsMax(keys: set<int>, y: int, m: int)
    requires y in keys && m in keys - {y} && IsMaxKey(Some(m), keys - {y})
    ensures IsMaxKey(Some(Max(y, m)), keys)
  {
    forall k | k in keys
      ensures k <= Max(y, m)
    {
      if k != y { assert k in keys - {y}; }
    }
  }

  function Negated(keys: set<int>): set<int> {
    set k | k in keys :: -k
  }

  lemma MinExists(keys: set<int>)
    requires keys != {}
    ensures exists m :: m in keys && IsMinKey(Some(m), keys)
  {
    if !exists k :: k in keys { EmptyIfNone(keys); }
    var y :| y in keys;
    assert -y in Negated(keys);
    MaxExists(Negated(keys));
    var n :| n in Negated(keys) && IsMaxKey(Some(n), Negated(keys));
    forall k | k in keys
      ensures -n <= k
    {
      assert -k in Negated(keys);
    }
    assert -n in keys && IsMinKey(Some(-n), keys);
  }

  /** `max(keys)`, or None. */
  method MaxKey(keys: set<int>) returns (best: Option<int>)
    ensures IsMaxKey(best, keys)
  {
    if keys == {} { return None; }
    MaxExists(keys);
    var m :| m in keys && IsMaxKey(Some(m), keys);
    best := Some(m);
  }

  /** `min(keys)`, or None. */
  method MinKey(keys: set<int>) returns (best: Option<int>)
    ensures IsMinKey(best, keys)
  {
    if keys == {} { return None; }
    MinExists(keys);
    var m :| m in keys && IsMinKey(Some(m), keys);
    best := Some(m);
  }

  // ---------- the book ----------

  class Book {
    var bids: map<int, int>
    var asks: map<int, int>
    var bestBid: Option<int>
    var bestAsk: Option<int>

    /** The caches hold the best prices. */
    ghost predicate CacheAgrees()
      reads this
    {
      IsMaxKey(bestBid, bids.Keys) && IsMinKey(bestAsk, asks.Keys)
    }

    constructor ()
      ensures bids == asks == map[] && CacheAgrees()
    {
      bids, asks := map[], map[];
      bestBid, bestAsk := None, None;
    }

    /** Later entries for a price replace earlier ones. */
    method LoadSnapshot(askPairs: seq<(int, int)>, bidPairs: seq<(int, int)>)
      modifies this
      ensures CacheAgrees()
      ensures asks == FromPairs(askPairs) && bids == FromPairs(bidPairs)
    {
      asks := FromPairs(askPairs);
      bids := FromPairs(bidPairs);
      bestBid := MaxKey(bids.Keys);
      bestAsk := MinKey(asks.Keys);
    }

    /**
     Whatever the update, the caches still agree afterwards, also when it raises; the other
     side is untouched.
     */
    method ApplyUpdate(side: int, price: int, qty: int, action: int) returns (ok: bool)
      requires CacheAgrees()
      modifies this
      ensures CacheAgrees()
      ensures bids == if side == 0 then NextSide(old(bids), price, qty, action) else old(bids)
      ensures asks == if side == 0 then old(asks) else NextSide(old(asks), price, qty, action)
      ensures ok <==> !RaisesKeyError(if side == 0 then old(bids) else old(asks), price, qty, action)
      ensures side == 0 ==> QuantityLaw(old(bids), bids, price, qty, action)
      ensures side != 0 ==> QuantityLaw(old(asks), asks, price, qty, action)
    {
      if side == 0 {
        ok := UpdateBids(price, qty, action);
      } else {
        ok := UpdateAsks(price, qty, action);
      }
    }

    method UpdateBids(price: int, qty: int, action: int) returns (ok: bool)
      requires CacheAgrees()
      modifies this`bids, this`bestBid
      ensures CacheAgrees()
      ensures bids == NextSide(old(bids), price, qty, action)
      ensures ok <==> !RaisesKeyError(old(bids), price, qty, action)
      ensures QuantityLaw(old(bids), bids, price, qty, action)
    {
      UpdateLaw(bids, price, qty, action);
      ok := true;
      if action == 1 {
        if price in bids {
          bids := bids[price := bids[price] + qty];
          assert bids.Keys == old(bids.Keys);
        } else {
          bids := bids[price := qty];
          if bestBid.None? || price > bestBid.value { bestBid := Some(price); }
          assert bids.Keys == old(bids.Keys) + {price};
        }
      } else if action == 2 {
        if qty > 0 {
          bids := bids[price := qty];
          if bestBid.None? || price > bestBid.value { bestBid := Some(price); }
          assert bids.Keys == old(bids.Keys) + {price};
        } else {
          ok := RemoveBid(price);
        }
      } else if action == 3 {
        if price in bids {
          var left := bids[price] - qty;
          bids := bids[price := left];
          assert bids.Keys == old(bids.Keys);
          if left <= 0 {
            ok := RemoveBid(price);
            assert bids == old(bids) - {price};
          }
        }
      }
    }

    method RemoveBid(price: int) returns (ok: bool)
      requires CacheAgrees()
      modifies this`bids, this`bestBid
      ensures CacheAgrees() && bids == old(bids) - {price}
      ensures ok <==> price in old(bids)
    {
      if price !in bids { return false; }
      ok := true;
      bids := bids - {price};
      if bestBid == Some(price) {
        bestBid := MaxKey(bids.Keys);
      }
      assert bids.Keys == old(bids.Keys) - {price};
    }

    method UpdateAsks(price: int, qty: int, action: int) returns (ok: bool)
      requires CacheAgrees()
      modifies this`asks, this`bestAsk
      ensures CacheAgrees()
      ensures asks == NextSide(old(asks), price, qty, action)
      ensures ok <==> !RaisesKeyError(old(asks), price, qty, action)
      ensures QuantityLaw(old(asks), asks, price, qty, action)
    {
      UpdateLaw(asks, price, qty, action);
      ok := true;
      if action == 1 {
        if price in asks {
          asks := asks[price := asks[price] + qty];
          assert asks.Keys == old(asks.Keys);
        } else {
          asks := asks[price := qty];
          if bestAsk.None? || price < bestAsk.value { bestAsk := Some(price); }
          assert asks.Keys == old(asks.Keys) + {price};
        }
      } else if action == 2 {
        if qty > 0 {
          asks := asks[price := qty];
          if bestAsk.None? || price < bestAsk.value { bestAsk := Some(price); }
          assert asks.Keys == old(asks.Keys) + {price};
        } else {
          ok := RemoveAsk(price);
        }
      } else if action == 3 {
        if price in asks {
          var left := asks[price] - qty;
          asks := asks[price := left];
          assert asks.Keys == old(asks.Keys);
          if left <= 0 {
            ok := RemoveAsk(price);
            assert asks == old(asks) - {price};
          }
        }
      }
    }

    method RemoveAsk(price: int) returns (ok: bool)
      requires CacheAgrees()
      modifies this`asks, this`bestAsk
      ensures CacheAgrees() && asks == old(asks) - {price}
      ensures ok <==> price in old(asks)
    {
      if price !in asks { return false; }
      ok := true;
      asks := asks - {price};
      if bestAsk == Some(price) {
        bestAsk := MinKey(asks.Keys);
      }
      assert asks.Keys == old(asks.Keys) - {price};
    }

    /** The smallest gap between any ask and any bid. */
    method GetSpread() returns (spread: Option<int>)
      requires CacheAgrees()
      ensures spread.None? <==> bids == map[] || asks == map[]
      ensures spread.Some? ==>
        && (exists b, a :: b in bids && a in asks && spread.value == a - b)
        && (forall b, a :: b in bids && a in asks ==> spread.value <= a - b)
    {
      if bestBid.None? || bestAsk.None? { return None; }
      spread := Some(bestAsk.value - bestBid.value);
    }

    /** Crossed iff some bid is at or above some ask. */
    method IsCrossed() returns (crossed: bool)
      requires CacheAgrees()
      ensures crossed <==> exists b, a :: b in bids && a in asks && b >= a
    {
      if bestBid.None? || bestAsk.None? { return false; }
      crossed := bestBid.value >= bestAsk.value;
    }
  }

  // ---------- quantities ----------

  predicate AllPositive(book: map<int, int>) {
    forall p :: p in book ==> book[p] > 0
  }

  /** One update keeps a side positive exactly when an add does not leave its price at or below zero. */
  lemma PositiveIff(book: map<int, int>, price: int, qty: int, action: int)
    requires AllPositive(book)
    ensures AllPositive(NextSide(book, price, qty, action))
       <==> (action == 1 ==> (if price in book then book[price] else 0) + qty > 0)
  {
    var next := NextSide(book, price, qty, action);
    if action == 1 {
      assert price in next && next[price] == (if price in book then book[price] else 0) + qty;
    }
  }

  datatype Update = Update(price: int, qty: int, action: int)

  function RunSide(book: map<int, int>, us: seq<Update>): map<int, int> {
    if us == [] then book
    else
      var u := us[|us| - 1];
      NextSide(RunSide(book, us[..|us| - 1]), u.price, u.qty, u.action)
  }

  /** Any run whose adds are positive keeps every quantity positive. */
  lemma {:induction false} RunStaysPositive(book: map<int, int>, us: seq<Update>)
    requires AllPositive(book)
    requires forall i :: 0 <= i < |us| && us[i].action == 1 ==> us[i].qty > 0
    ensures AllPositive(RunSide(book, us))
  {
    if us == [] {
    } else {
      var n := |us| - 1;
      RunStaysPositive(book, us[..n]);
      PositiveIff(RunSide(book, us[..n]), us[n].price, us[n].qty, us[n].action);
    }
  }

  // ---------- the quantity at one price, over a run ----------

  /** What an update contributes to a price: adds count up, reduces count down. */
  function FlowAt(u: Update, price: int): int {
    if u.price != price then 0 else if u.action == 1 then u.qty else if u.action == 3 then -u.qty else 0
  }

  function NetAt(us: seq<Update>, price: int): int {
    if us == [] then 0 else NetAt(us[..|us| - 1], price) + FlowAt(us[|us| - 1], price)
  }

  /** The running minimum of the net flow, over every prefix including the empty one. */
  function LowestAt(us: seq<Update>, price: int): int {
    if us == [] then 0 else Min(LowestAt(us[..|us| - 1], price), NetAt(us, price))
  }

  /** Adds are positive, reduces not negative, and nothing modifies the price. */
  predicate FlowsAt(us: seq<Update>, price: int) {
    forall i :: 0 <= i < |us| && us[i].price == price ==>
      && us[i].action != 2 && (us[i].action == 1 ==> us[i].qty > 0) && (us[i].action == 3 ==> us[i].qty >= 0)
  }

  /** The dictionary holds positive quantities only, at this price. */
  predicate PositiveAt(book: map<int, int>, price: int) { price in book ==> book[price] > 0 }

  /**
   The closed form: from q0, the net flow, lifted by as much as it ever fell below nothing; the
   price is in the dictionary exactly while something is left.
   */
  lemma {:induction false} RunQuantity(book: map<int, int>, us: seq<Update>, price: int)
    requires PositiveAt(book, price) && FlowsAt(us, price)
    ensures var q0 := Held(book, price);
            && Held(RunSide(book, us), price) == q0 + NetAt(us, price) - Min(0, q0 + LowestAt(us, price))
            && (price in RunSide(book, us) <==> Held(RunSide(book, us), price) > 0)
  {
    hide NextSide;
    if us == [] {
    } else {
      var n := |us| - 1;
      var u, mid := us[n], RunSide(book, us[..n]);
      RunQuantity(book, us[..n], price);
      UpdateLaw(mid, u.price, u.qty, u.action);
    }
  }

  lemma {:induction false} RunAppend(book: map<int, int>, us: seq<Update>, vs: seq<Update>)
    ensures RunSide(book, us + vs) == RunSide(RunSide(book, us), vs)
  {
    if vs == [] {
      assert us + vs == us;
    } else {
      var n := |vs| - 1;
      RunAppend(book, us, vs[..n]);
      assert (us + vs)[..|us + vs| - 1] == us + vs[..n];
    }
  }

  /** After a modify the same holds from the quantity it set, whatever came before. */
  lemma QuantityAfterModify(book: map<int, int>, us: seq<Update>, price: int, qty: int, vs: seq<Update>)
    requires FlowsAt(vs, price)
    ensures var q0, all := Max(qty, 0), us + [Update(price, qty, 2)] + vs;
            && Held(RunSide(book, all), price) == q0 + NetAt(vs, price) - Min(0, q0 + LowestAt(vs, price))
            && (price in RunSide(book, all) <==> Held(RunSide(book, all), price) > 0)
  {
    var reset := us + [Update(price, qty, 2)];
    assert reset[..|reset| - 1] == us;
    assert RunSide(book, reset) == NextSide(RunSide(book, us), price, qty, 2);
    UpdateLaw(RunSide(book, us), price, qty, 2);
    RunAppend(book, reset, vs);
    RunQuantity(RunSide(book, reset), vs, price);
  }

  lemma {:induction false} SnapshotPositive(ps: seq<(int, int)>)
    requires forall i :: 0 <= i < |ps| ==> ps[i].1 > 0
    ensures AllPositive(FromPairs(ps))
  {
    if ps == [] {
    } else {
      SnapshotPositive(ps[..|ps| - 1]);
    }
  }
}

/**
 What the Q1.15 top-of-book imbalance means, and when a flooring division would have
 given the same value.
 */
module ImbalanceFacts {
  import opened Words
  import opened Fabric
  import opened PacketReference

  /** Named, so that proofs can treat a quotient as one quantity. */
  function Quotient(a: int, b: nat): int
    requires b > 0
  {
    a / b
  }

  /** The size of the quotient, before its sign and the saturation. */
  function Magnitude(bidQty: nat, askQty: nat): int
    requires bidQty + askQty > 0
  {
    Quotient(Abs(bidQty - askQty) * 0x8000, bidQty + askQty)
  }

  lemma QuotientBelow(a: nat, b: nat, k: nat)
    requires b > 0 && a < b * k
    ensures 0 <= Quotient(a, b) < k
  {
  }

  lemma QuotientExact(a: int, b: nat, k: int)
    requires b > 0 && a == b * k
    ensures Quotient(a, b) == k
  {
    EuclidUnique(a, b, k, 0);
  }

  lemma MagnitudeBound(bidQty: nat, askQty: nat)
    requires bidQty + askQty > 0
    ensures 0 <= Magnitude(bidQty, askQty) <= 0x8000
    ensures Magnitude(bidQty, askQty) == 0x8000 <==> bidQty == 0 || askQty == 0
  {
    hide Quotient;
    if bidQty == 0 || askQty == 0 {
      QuotientExact(Abs(bidQty - askQty) * 0x8000, bidQty + askQty, 0x8000);
    } else {
      QuotientBelow(Abs(bidQty - askQty) * 0x8000, bidQty + askQty, 0x8000);
    }
  }

  lemma ImbalanceValue(bidQty: nat, askQty: nat)
    requires bidQty + askQty > 0
    ensures var q := Magnitude(bidQty, askQty);
            Imbalance(bidQty, askQty) == if bidQty >= askQty then Min(q, 0x7FFF) else -q
  {
  }

  /** (bid - ask) / (bid + ask) in units of 2^-15, rounded toward zero. */
  predicate IsRatio(imb: int, bidQty: nat, askQty: nat) {
    var num, den := bidQty - askQty, bidQty + askQty;
    && (imb > 0 ==> num > 0) && (imb < 0 ==> num < 0)
    && Abs(imb) * den <= Abs(num) * 0x8000 < (Abs(imb) + 1) * den
  }

  /** The value is that ratio; only an empty ask side, where the ratio is 1, saturates. */
  lemma ImbalanceAccuracy(bidQty: nat, askQty: nat)
    requires bidQty + askQty > 0
    ensures var imb := Imbalance(bidQty, askQty);
            if askQty == 0 then imb == 0x7FFF else IsRatio(imb, bidQty, askQty)
  {
    hide Imbalance;
    ImbalanceValue(bidQty, askQty);
    MagnitudeBound(bidQty, askQty);
    RemainderBelow(Abs(bidQty - askQty) * 0x8000, bidQty + askQty);
    OneMore(Magnitude(bidQty, askQty), bidQty + askQty);
  }

  lemma OneMore(q: int, den: int)
    ensures (q + 1) * den == q * den + den
  {
  }

  lemma RemainderBelow(n: nat, den: nat)
    requires den > 0
    ensures 0 <= n - (n / den) * den < den
  {
  }

  /** Swapping the sides negates the imbalance, unless one side is empty. */
  lemma ImbalanceAntisymmetric(bidQty: nat, askQty: nat)
    requires bidQty > 0 && askQty > 0
    ensures Imbalance(bidQty, askQty) == -Imbalance(askQty, bidQty)
  {
    ImbalanceValue(bidQty, askQty);
    ImbalanceValue(askQty, bidQty);
    MagnitudeBound(bidQty, askQty);
  }

  /** Dividing with Python's floor instead agrees exactly when nothing negative is rounded. */
  lemma FlooredImbalanceIff(bidQty: nat, askQty: nat)
    requires bidQty + askQty > 0
    ensures var num, den := (bidQty - askQty) * 0x8000, bidQty + askQty;
            Clamp(FloorDiv(num, den), -0x8000, 0x7FFF) == Imbalance(bidQty, askQty)
            <==> num >= 0 || num % den == 0
  {
    var num, den := (bidQty - askQty) * 0x8000, bidQty + askQty;
    ImbalanceValue(bidQty, askQty);
    MagnitudeBound(bidQty, askQty);
    if num < 0 {
      assert Abs(bidQty - askQty) * 0x8000 == -num;
      FloorOfNegative(-num, den);
      if bidQty == 0 {
        assert num == -(0x8000 * den);
        ModOfMultiple(-0x8000, den);
      }
    }
  }

  lemma ModOfMultiple(k: int, den: nat)
    requires den > 0
    ensures (k * den) % den == 0
  {
    EuclidUnique(k * den, den, k, 0);
  }

  /** For m > 0 the floor of -m is minus the quotient when exact, one less otherwise. */
  lemma FloorOfNegative(m: int, den: nat)
    requires den > 0 && m >= 0
    ensures FloorDiv(-m, den) == -(m / den) - if (-m) % den == 0 then 0 else 1
  {
    var k, r := m / den, m % den;
    assert m == den * k + r;
    if r == 0 {
      assert -m == den * (-k) + 0;
      EuclidUnique(-m, den, -k, 0);
    } else {
      assert -m == den * (-k - 1) + (den - r);
      EuclidUnique(-m, den, -k - 1, den - r);
    }
  }

  lemma EuclidUnique(a: int, den: nat, k: int, r: nat)
    requires den > 0 && r < den && a == den * k + r
    ensures a / den == k && a % den == r
  {
    var q, s := a / den, a % den;
    assert den * (q - k) == r - s;
    NoMultipleBetween(q - k, den);
  }

  lemma NoMultipleBetween(d: int, den: nat)
    requires den > 0 && -(den as int) < den * d < den
    ensures d == 0
  {
  }
}

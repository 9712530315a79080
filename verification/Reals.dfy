/**
 Real vectors, and rounding to the nearest integer as NumPy does it.  Products and
 quotients are named, so that proofs can treat each as one quantity and use the laws
 below instead of nonlinear arithmetic.
 */
module Reals {
  function AbsR(x: real): (r: real)
    ensures r >= 0.0
  {
    if x >= 0.0 then x else -x
  }

  function Times(a: real, b: real): real { a * b }

  function Over(a: real, b: real): real
    requires b != 0.0
  {
    a / b
  }

  function Dot(xs: seq<real>, ws: seq<real>): real
    requires |xs| == |ws|
  {
    if xs == [] then 0.0 else Dot(xs[..|xs| - 1], ws[..|ws| - 1]) + Times(xs[|xs| - 1], ws[|ws| - 1])
  }

  /** Half to even. */
  function Round(x: real): int {
    var f := x.Floor;
    var r := x - f as real;
    if r < 0.5 then f
    else if r > 0.5 then f + 1
    else if f % 2 == 0 then f
    else f + 1
  }

  /** `a` is within `e` of `b`. */
  predicate Near(a: real, b: real, e: real) {
    -e <= a - b <= e
  }

  lemma RoundIsNearest(x: real)
    ensures Near(Round(x) as real, x, 0.5)
  {
  }

  /** Rounding is to the nearest integer, and of the two nearest at a tie to the even one. */
  lemma RoundMeaning(x: real, n: int)
    ensures n == Round(x)
       <==> Near(n as real, x, 0.5) && (x - n as real == 0.5 || n as real - x == 0.5 ==> n % 2 == 0)
  {
  }

  lemma RoundWithin(x: real, lo: int, hi: int)
    requires lo as real <= x <= hi as real
    ensures lo <= Round(x) <= hi
  {
  }

  // ---------- laws of products and quotients ----------

  lemma TimesSum(a: real, b: real, c: real, s: real)
    requires c == a + b
    ensures Times(c, s) == Times(a, s) + Times(b, s)
  {
  }

  lemma TimesComm(a: real, b: real)
    ensures Times(a, b) == Times(b, a)
  {
  }

  lemma TimesNumber(s: real)
    ensures Times(0.0, s) == 0.0 && Times(1.0, s) == s
    ensures Times(0.5, s) == 0.5 * s && Times(-0.5, s) == -0.5 * s
  {
  }

  lemma TimesNegate(a: real, b: real, na: real)
    requires na == -a
    ensures Times(na, b) == -Times(a, b)
  {
  }

  lemma TimesMono(a: real, b: real, s: real)
    requires s > 0.0
    ensures a <= b <==> Times(a, s) <= Times(b, s)
  {
  }

  lemma OverTimes(x: real, s: real)
    requires s != 0.0
    ensures Times(Over(x, s), s) == x
  {
  }

  lemma OverWithin(x: real, s: real, lo: real, hi: real)
    requires s > 0.0
    ensures lo <= Over(x, s) <= hi <==> Times(lo, s) <= x <= Times(hi, s)
  {
    hide Times, Over;
    OverTimes(x, s);
    TimesMono(lo, Over(x, s), s);
    TimesMono(Over(x, s), hi, s);
  }

  // ---------- how errors multiply ----------

  /** How far a product can be off when its factors are off by at most a and b. */
  function OffBound(x: real, w: real, a: real, b: real): real {
    Times(AbsR(x), b) + Times(AbsR(w), a) + Times(a, b)
  }

  /** The same for scaled codes. */
  lemma ScaledProductOff(p: real, q: real, s: real, t: real, x: real, w: real, a: real, b: real)
    requires Near(Times(p, s), x, a) && Near(Times(q, t), w, b)
    ensures Near(Times(Times(p, q), Times(s, t)), Times(x, w), OffBound(x, w, a, b))
  {
  }

  /** Converting a product of integers. */
  lemma CastProduct(a: int, b: int)
    ensures (a * b) as real == Times(a as real, b as real)
  {
  }
}

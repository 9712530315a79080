/**
 Symmetric quantization, over the reals: when it is exact to half a step, and how far
 an integer linear layer can be from the real one.
 */
module Quantize {
  import opened Words
  import opened Reals

  type Tensor = seq<seq<real>>

  /** Integers with one real scale; the zero point is always 0. */
  datatype QuantTensor = QuantTensor(data: seq<seq<int>>, scale: real)

  function Pow2(n: nat): (p: nat)
    ensures p >= 1
  {
    if n == 0 then 1 else 2 * Pow2(n - 1)
  }

  /** The largest code of a signed format; the smallest is one below its negation. */
  function QMax(bits: nat): (q: int)
    requires bits >= 2
    ensures q >= 1
  {
    Pow2(bits - 1) - 1
  }

  // ---------- quantizing ----------

  function RowMaxAbs(xs: seq<real>): (m: real)
    ensures m >= 0.0 && forall i :: 0 <= i < |xs| ==> AbsR(xs[i]) <= m
  {
    if xs == [] then 0.0
    else
      var m := RowMaxAbs(xs[..|xs| - 1]);
      if AbsR(xs[|xs| - 1]) > m then AbsR(xs[|xs| - 1]) else m
  }

  function MaxAbs(t: Tensor): (m: real)
    ensures m >= 0.0 && forall i, j :: 0 <= i < |t| && 0 <= j < |t[i]| ==> AbsR(t[i][j]) <= m
  {
    if t == [] then 0.0
    else
      var m := MaxAbs(t[..|t| - 1]);
      var r := RowMaxAbs(t[|t| - 1]);
      if r > m then r else m
  }

  const EPSILON := 0.000_000_000_001

  /** An explicit range, or the tensor's own with a little slack. */
  function ScaleOf(t: Tensor, bits: nat, maxAbs: Option<real>): (s: real)
    requires bits >= 2
    ensures s > 0.0
  {
    var m := if maxAbs.Some? then maxAbs.value else MaxAbs(t) + EPSILON;
    if m > 0.0 then Over(m, QMax(bits) as real) else 1.0
  }

  function Code(x: real, scale: real, lo: int, hi: int): int
    requires scale > 0.0 && lo <= hi
  {
    Clamp(Round(Over(x, scale)), lo, hi)
  }

  function CodeRow(xs: seq<real>, scale: real, lo: int, hi: int): (qs: seq<int>)
    requires scale > 0.0 && lo <= hi
    ensures |qs| == |xs|
  {
    seq(|xs|, j requires 0 <= j < |xs| => Code(xs[j], scale, lo, hi))
  }

  function QuantizeSymmetric(t: Tensor, bits: nat, maxAbs: Option<real>): (q: QuantTensor)
    requires bits >= 2
    ensures |q.data| == |t| && q.scale > 0.0
    ensures forall i :: 0 <= i < |t| ==> |q.data[i]| == |t[i]|
  {
    var scale := ScaleOf(t, bits, maxAbs);
    QuantTensor(seq(|t|, i requires 0 <= i < |t| => CodeRow(t[i], scale, -QMax(bits) - 1, QMax(bits))), scale)
  }

  /** What a code stands for. */
  function Dequantized(q: int, scale: real): real { Times(q as real, scale) }

  lemma DequantizedSum(a: int, b: int, c: int, scale: real)
    requires c == a + b
    ensures Dequantized(c, scale) == Dequantized(a, scale) + Dequantized(b, scale)
  {
  }

  /** A code is within half a step of what it stands for. */
  predicate HalfStep(q: int, scale: real, x: real) {
    Near(Dequantized(q, scale), x, 0.5 * scale)
  }

  /** In units of the step: half a step of error is half a unit of distance. */
  lemma ErrorInSteps(q: int, scale: real, x: real)
    requires scale > 0.0
    ensures HalfStep(q, scale, x) <==> Near(q as real, Over(x, scale), 0.5)
  {
    hide Times, Over;
    var e := q as real - Over(x, scale);
    OverTimes(x, scale);
    TimesSum(Over(x, scale), e, q as real, scale);
    TimesMono(e, 0.5, scale);
    TimesMono(-0.5, e, scale);
    TimesNumber(scale);
  }

  lemma ClampedRoundIff(y: real, lo: int, hi: int)
    requires lo <= hi
    ensures Near(Clamp(Round(y), lo, hi) as real, y, 0.5) <==> lo as real - 0.5 <= y <= hi as real + 0.5
  {
  }

  /** The values within half a step of the code range [lo, hi]. */
  predicate InRange(x: real, scale: real, lo: int, hi: int) {
    Times(lo as real - 0.5, scale) <= x <= Times(hi as real + 0.5, scale)
  }

  /** A code is accurate to half a step exactly when its value is in range. */
  lemma CodeErrorIff(x: real, scale: real, lo: int, hi: int)
    requires scale > 0.0 && lo <= hi
    ensures HalfStep(Code(x, scale, lo, hi), scale, x) <==> InRange(x, scale, lo, hi)
  {
    hide HalfStep, Round, Clamp, Times, Over;
    ErrorInSteps(Code(x, scale, lo, hi), scale, x);
    ClampedRoundIff(Over(x, scale), lo, hi);
    OverWithin(x, scale, lo as real - 0.5, hi as real + 0.5);
  }

  /** Calibrated on its own data a tensor never clamps: every code is the rounded quotient. */
  lemma AutoNeverClamps(t: Tensor, bits: nat, i: nat, j: nat)
    requires bits >= 2 && i < |t| && j < |t[i]|
    ensures var q := QuantizeSymmetric(t, bits, None);
            && q.data[i][j] == Round(Over(t[i][j], q.scale))
            && -QMax(bits) <= q.data[i][j] <= QMax(bits)
            && HalfStep(q.data[i][j], q.scale, t[i][j])
  {
    hide HalfStep, Round, MaxAbs, Times, Over, QMax, ScaleOf;
    var q, x, k := QuantizeSymmetric(t, bits, None), t[i][j], QMax(bits);
    AutoScale(t, bits);
    assert AbsR(x) <= MaxAbs(t);
    OverWithin(x, q.scale, (-k) as real, k as real);
    RoundWithin(Over(x, q.scale), -k, k);
    assert q.data[i][j] == Code(x, q.scale, -k - 1, k);
    ErrorInSteps(Round(Over(x, q.scale)), q.scale, x);
    RoundIsNearest(Over(x, q.scale));
  }

  lemma AutoScale(t: Tensor, bits: nat)
    requires bits >= 2
    ensures var k, s := QMax(bits), QuantizeSymmetric(t, bits, None).scale;
            Times(k as real, s) == MaxAbs(t) + EPSILON && Times((-k) as real, s) == -(MaxAbs(t) + EPSILON)
  {
    hide Times, Over, MaxAbs, QMax;
    var m, k := MaxAbs(t) + EPSILON, QMax(bits);
    var s := Over(m, k as real);
    OverTimes(m, k as real);
    TimesComm(s, k as real);
    TimesNegate(k as real, s, (-k) as real);
  }

  // ---------- the range is the tensor's own ----------

  lemma {:induction false} RowMaxAttained(xs: seq<real>) returns (j: nat)
    requires xs != []
    ensures j < |xs| && RowMaxAbs(xs) == AbsR(xs[j])
  {
    var n := |xs| - 1;
    if n == 0 || AbsR(xs[n]) > RowMaxAbs(xs[..n]) {
      assert n == 0 ==> RowMaxAbs(xs[..n]) == 0.0;
      j := n;
    } else {
      j := RowMaxAttained(xs[..n]);
    }
  }

  lemma {:induction false} MaxAttained(t: Tensor, i0: nat) returns (i: nat, j: nat)
    requires i0 < |t| && t[i0] != []
    ensures i < |t| && j < |t[i]| && MaxAbs(t) == AbsR(t[i][j])
  {
    var n := |t| - 1;
    if exists k :: 0 <= k < n && t[k] != [] && RowMaxAbs(t[n]) <= MaxAbs(t[..n]) {
      var k :| 0 <= k < n && t[k] != [] && RowMaxAbs(t[n]) <= MaxAbs(t[..n]);
      i, j := MaxAttained(t[..n], k);
    } else {
      if RowMaxAbs(t[n]) <= MaxAbs(t[..n]) {
        EmptyRowsMax(t[..n]);
      }
      i := n;
      j := RowMaxAttained(t[n]);
    }
  }

  lemma {:induction false} EmptyRowsMax(t: Tensor)
    requires forall k :: 0 <= k < |t| ==> t[k] == []
    ensures MaxAbs(t) == 0.0
  {
    if t == [] {
    } else {
      EmptyRowsMax(t[..|t| - 1]);
    }
  }

  /**
   Calibrated on its own data, a tensor's range is its largest absolute entry plus 1e-12: one
   entry attains it, none exceeds it, and its code is the largest one exactly when the entry
   is not so tiny that the slack matters.
   */
  lemma RangeAttained(t: Tensor, bits: nat, i0: nat) returns (i: nat, j: nat)
    requires bits >= 2 && i0 < |t| && t[i0] != []
    ensures i < |t| && j < |t[i]|
    ensures var q := QuantizeSymmetric(t, bits, None);
            && (QMax(bits) as real) * q.scale == AbsR(t[i][j]) + 0.000_000_000_001
            && (forall a, b :: 0 <= a < |t| && 0 <= b < |t[a]| ==> AbsR(t[a][b]) <= AbsR(t[i][j]))
            && (Abs(q.data[i][j]) == QMax(bits)
                <==> AbsR(t[i][j]) > (2 * QMax(bits) - 1) as real * 0.000_000_000_001)
  {
    hide QuantizeSymmetric, MaxAbs, Round, Over, HalfStep, QMax;
    i, j := MaxAttained(t, i0);
    AutoScale(t, bits);
    AutoNeverClamps(t, bits, i, j);
    QMaxIsOdd(bits);
    LargestCode(t[i][j], QuantizeSymmetric(t, bits, None).scale, QMax(bits));
  }

  lemma QMaxIsOdd(bits: nat)
    requires bits >= 2
    ensures QMax(bits) % 2 == 1
  {
    assert Pow2(bits - 1) == 2 * Pow2(bits - 2);
  }

  /** The quotient of the largest entry is below k by the share of the slack; ties go to even, below k. */
  lemma LargestCode(x: real, scale: real, k: int)
    requires scale > 0.0 && k >= 1 && k % 2 == 1 && (k as real) * scale == AbsR(x) + EPSILON
    ensures Abs(Round(Over(x, scale))) == k <==> AbsR(x) > (2 * k - 1) as real * EPSILON
  {
    hide Round;
    var y := Over(x, scale);
    OverTimes(x, scale);
    LargestQuotient(x, y, scale, k);
    RoundReaches(y, k);
  }

  lemma LargestQuotient(x: real, y: real, s: real, k: int)
    requires s > 0.0 && k >= 1 && y * s == x && (k as real) * s == AbsR(x) + EPSILON
    ensures AbsR(y) < k as real
    ensures AbsR(y) > k as real - 0.5 <==> AbsR(x) > (2 * k - 1) as real * EPSILON
  {
    var d := k as real - AbsR(y);
    AbsProduct(x, y, s);
    assert d * s == EPSILON;
    ScaleLess(0.0, d, s);
    ScaleLess(d, 0.5, s);
    ScaleLess(2.0 * EPSILON, s, k as real);
  }

  lemma AbsProduct(x: real, y: real, s: real)
    requires s > 0.0 && y * s == x
    ensures AbsR(y) * s == AbsR(x)
  {
  }

  lemma ScaleLess(p: real, q: real, r: real)
    requires r > 0.0
    ensures p < q <==> p * r < q * r
  {
  }

  lemma RoundReaches(y: real, k: int)
    requires k >= 1 && k % 2 == 1 && AbsR(y) < k as real
    ensures Abs(Round(y)) == k <==> AbsR(y) > k as real - 0.5
  {
  }

  /** With an explicit range the largest code stands for it, and values beyond the codes saturate. */
  lemma ExplicitRange(t: Tensor, bits: nat, m: real, i: nat, j: nat)
    requires bits >= 2 && m > 0.0 && i < |t| && j < |t[i]|
    ensures var q, x := QuantizeSymmetric(t, bits, Some(m)), t[i][j];
            && (QMax(bits) as real) * q.scale == m
            && -QMax(bits) - 1 <= q.data[i][j] <= QMax(bits)
            && (HalfStep(q.data[i][j], q.scale, x) <==> InRange(x, q.scale, -QMax(bits) - 1, QMax(bits)))
            && (x >= m ==> q.data[i][j] == QMax(bits))
            && (x <= -m - q.scale ==> q.data[i][j] == -QMax(bits) - 1)
  {
    hide HalfStep, InRange, Round, QMax;
    var q, x, k := QuantizeSymmetric(t, bits, Some(m)), t[i][j], QMax(bits);
    OverTimes(m, k as real);
    TimesComm(Over(m, k as real), k as real);
    assert (k as real) * q.scale == m by { assert Times(k as real, q.scale) == (k as real) * q.scale; }
    assert q.data[i][j] == Code(x, q.scale, -k - 1, k);
    CodeErrorIff(x, q.scale, -k - 1, k);
    OverTimes(x, q.scale);
    Saturates(x, Over(x, q.scale), q.scale, k, m);
    if x >= m {
      RoundAtLeast(Over(x, q.scale), k);
    }
    if x <= -m - q.scale {
      RoundAtMost(Over(x, q.scale), -k - 1);
    }
  }

  lemma Saturates(x: real, y: real, s: real, k: int, m: real)
    requires s > 0.0 && y * s == x && (k as real) * s == m
    ensures x >= m ==> y >= k as real
    ensures x <= -m - s ==> y <= (-k - 1) as real
  {
    if y < k as real {
      assert y * s < (k as real) * s;
    }
    if y > (-k - 1) as real {
      assert y * s > (-k - 1) as real * s;
    }
  }

  lemma RoundAtLeast(y: real, k: int)
    requires y >= k as real
    ensures Round(y) >= k
  {
  }

  lemma RoundAtMost(y: real, k: int)
    requires y <= k as real
    ensures Round(y) <= k
  {
  }

  /** The usual code ranges. */
  lemma CodeRanges()
    ensures QMax(8) == 127 && QMax(16) == 32767
  {
    assert Pow2(4) == 16;
    assert Pow2(8) == 256 && Pow2(7) == 128;
    assert Pow2(12) == 4096;
    assert Pow2(15) == 32768;
  }

  // ---------- the bias ----------

  function BiasCode(b: real, biasScale: real): int
    requires biasScale > 0.0
  {
    Code(b, biasScale, MIN_I32, MAX_I32)
  }

  predicate BiasInRange(b: real, biasScale: real) {
    InRange(b, biasScale, MIN_I32, MAX_I32)
  }

  lemma BiasErrorIff(b: real, biasScale: real)
    requires biasScale > 0.0
    ensures HalfStep(BiasCode(b, biasScale), biasScale, b) <==> BiasInRange(b, biasScale)
  {
    CodeErrorIff(b, biasScale, MIN_I32, MAX_I32);
  }

  // ---------- the integer linear layer ----------

  function IntDot(xs: seq<int>, ws: seq<int>): int
    requires |xs| == |ws|
  {
    if xs == [] then 0 else IntDot(xs[..|xs| - 1], ws[..|ws| - 1]) + xs[|xs| - 1] * ws[|ws| - 1]
  }

  /** The matrix product is taken in int32, the bias is added in int64. */
  function Accumulator(xq: seq<int>, wq: seq<int>, bq: int): int
    requires |xq| == |wq|
  {
    Wrap32(IntDot(xq, wq)) + bq
  }

  predicate CodesWithin(qs: seq<int>, m: int) {
    forall i :: 0 <= i < |qs| ==> -m <= qs[i] <= m
  }

  lemma {:induction false} IntDotBound(xs: seq<int>, ws: seq<int>, a: int, b: int)
    requires a >= 0 && b >= 0
    requires |xs| == |ws| && CodesWithin(xs, a) && CodesWithin(ws, b)
    ensures -(|xs| * (a * b)) <= IntDot(xs, ws) <= |xs| * (a * b)
  {
    if xs == [] {
    } else {
      var n := |xs| - 1;
      IntDotBound(xs[..n], ws[..n], a, b);
      IntProductBound(xs[n], ws[n], a, b);
      assert |xs| * (a * b) == n * (a * b) + a * b;
    }
  }

  lemma IntProductBound(x: int, w: int, a: int, b: int)
    requires -a <= x <= a && -b <= w <= b
    ensures -(a * b) <= x * w <= a * b
  {
  }

  /** Codes whose steps are s and whose errors are at most s/2. */
  predicate Represents(qs: seq<int>, s: real, xs: seq<real>) {
    |qs| == |xs| && forall i :: 0 <= i < |xs| ==> HalfStep(qs[i], s, xs[i])
  }

  /** Σ (|x_i| s_w/2 + |w_i| s_x/2 + s_x s_w/4) */
  function ErrorSum(xs: seq<real>, ws: seq<real>, sx: real, sw: real): real
    requires |xs| == |ws|
  {
    if xs == [] then 0.0
    else ErrorSum(xs[..|xs| - 1], ws[..|ws| - 1], sx, sw) + TermError(xs[|xs| - 1], ws[|ws| - 1], sx, sw)
  }

  function TermError(x: real, w: real, sx: real, sw: real): real {
    OffBound(x, w, 0.5 * sx, 0.5 * sw)
  }

  /** One product: with xq sx = x + e and wq sw = w + f the error is x f + e w + e f. */
  lemma ProductError(xq: int, wq: int, x: real, w: real, sx: real, sw: real)
    requires HalfStep(xq, sx, x) && HalfStep(wq, sw, w)
    ensures Near(Dequantized(xq * wq, Times(sx, sw)), Times(x, w), TermError(x, w, sx, sw))
  {
    hide Times, OffBound;
    ScaledProductOff(xq as real, wq as real, sx, sw, x, w, 0.5 * sx, 0.5 * sw);
    CastProduct(xq, wq);
  }

  lemma {:induction false} DotError(xq: seq<int>, wq: seq<int>, xs: seq<real>, ws: seq<real>, sx: real, sw: real)
    requires |xs| == |ws|
    requires Represents(xq, sx, xs) && Represents(wq, sw, ws)
    ensures Near(Dequantized(IntDot(xq, wq), Times(sx, sw)), Dot(xs, ws), ErrorSum(xs, ws, sx, sw))
  {
    if xs == [] {
      TimesNumber(Times(sx, sw));
    } else {
      hide TermError, HalfStep, Dequantized, Times;
      var n := |xs| - 1;
      DotError(xq[..n], wq[..n], xs[..n], ws[..n], sx, sw);
      ProductError(xq[n], wq[n], xs[n], ws[n], sx, sw);
      DequantizedSum(IntDot(xq[..n], wq[..n]), xq[n] * wq[n], IntDot(xq, wq), Times(sx, sw));
    }
  }

  /** The layer's whole error: products, plus half a step for the bias. */
  lemma LinearError(xq: seq<int>, wq: seq<int>, xs: seq<real>, ws: seq<real>, sx: real, sw: real, b: real)
    requires Times(sx, sw) > 0.0 && |xs| == |ws|
    requires Represents(xq, sx, xs) && Represents(wq, sw, ws)
    requires IsI32(IntDot(xq, wq)) && BiasInRange(b, Times(sx, sw))
    ensures Near(Dequantized(Accumulator(xq, wq, BiasCode(b, Times(sx, sw))), Times(sx, sw)), Dot(xs, ws) + b,
                 ErrorSum(xs, ws, sx, sw) + 0.5 * Times(sx, sw))
  {
    hide IntDot, Dot, ErrorSum, BiasCode, BiasInRange, Dequantized, Times;
    DotError(xq, wq, xs, ws, sx, sw);
    BiasErrorIff(b, Times(sx, sw));
    DequantizedSum(IntDot(xq, wq), BiasCode(b, Times(sx, sw)),
                   Accumulator(xq, wq, BiasCode(b, Times(sx, sw))), Times(sx, sw));
  }

  // ---------- when the int32 product wraps ----------

  /** One term: with codes up to a and b, twice the error is at most a + b + 2 steps. */
  lemma TermErrorBound(xq: int, wq: int, x: real, w: real, sx: real, sw: real, a: int, b: int)
    requires sx > 0.0 && sw > 0.0 && HalfStep(xq, sx, x) && HalfStep(wq, sw, w)
    requires -a <= xq <= a && -b <= wq <= b
    ensures 2.0 * TermError(x, w, sx, sw) <= Times((a + b + 2) as real, Times(sx, sw))
  {
    hide HalfStep, TermError, AbsR;
    ValueBound(xq, x, sx, a);
    ValueBound(wq, w, sw, b);
    assert (a + b + 2) as real == a as real + b as real + 2.0;
    TermErrorDoubled(x, w, sx, sw);
    TermArithmetic(AbsR(x), AbsR(w), sx, sw, a as real, b as real);
  }

  lemma TermArithmetic(x: real, w: real, s: real, t: real, a: real, b: real)
    requires s > 0.0 && t > 0.0 && x <= (a + 0.5) * s && w <= (b + 0.5) * t
    ensures x * t + w * s + 0.5 * (s * t) <= (a + b + 2.0) * (s * t)
  {
    RealMulLe(x, (a + 0.5) * s, t);
    RealMulLe(w, (b + 0.5) * t, s);
    Regrouped(a + 0.5, s, t);
    Regrouped(b + 0.5, t, s);
    RealMulLe(0.0, s, t);
    ScaledSum(a + 0.5, b + 0.5, 0.5, s * t);
    RealMulLe(a + b + 1.5, a + b + 2.0, s * t);
  }

  lemma Regrouped(p: real, q: real, r: real)
    ensures (p * q) * r == p * (q * r) && q * r == r * q
  {
  }

  lemma ScaledSum(p: real, q: real, r: real, s: real)
    ensures p * s + q * s + r * s == (p + q + r) * s
  {
  }

  lemma TermErrorDoubled(x: real, w: real, sx: real, sw: real)
    ensures 2.0 * TermError(x, w, sx, sw) == AbsR(x) * sw + AbsR(w) * sx + 0.5 * (sx * sw)
  {
    HalfProduct(AbsR(x), sw);
    HalfProduct(AbsR(w), sx);
    HalfProduct(0.5 * sx, sw);
    HalfProduct(sw, sx);
  }

  lemma HalfProduct(p: real, q: real)
    ensures p * (0.5 * q) == 0.5 * (p * q) && p * q == q * p
  {
  }

  lemma ValueBound(q: int, x: real, s: real, a: int)
    requires s > 0.0 && HalfStep(q, s, x) && -a <= q <= a
    ensures AbsR(x) <= (a as real + 0.5) * s
  {
    RealMulLe(q as real, a as real, s);
    RealMulLe(-(a as real), q as real, s);
  }

  lemma RealMulLe(p: real, q: real, r: real)
    requires p <= q && r >= 0.0
    ensures p * r <= q * r
  {
  }

  lemma {:induction false} ErrorSumBound(xq: seq<int>, wq: seq<int>, xs: seq<real>, ws: seq<real>, sx: real, sw: real,
                                         a: nat, b: nat)
    requires sx > 0.0 && sw > 0.0 && |xs| == |ws|
    requires Represents(xq, sx, xs) && Represents(wq, sw, ws) && CodesWithin(xq, a) && CodesWithin(wq, b)
    ensures 2.0 * ErrorSum(xs, ws, sx, sw) <= Times((|xs| * (a + b + 2)) as real, Times(sx, sw))
  {
    hide TermError, HalfStep, Times;
    if xs == [] {
      TimesNumber(Times(sx, sw));
    } else {
      var n := |xs| - 1;
      ErrorSumBound(xq[..n], wq[..n], xs[..n], ws[..n], sx, sw, a, b);
      TermErrorBound(xq[n], wq[n], xs[n], ws[n], sx, sw, a, b);
      assert |xs| * (a + b + 2) == n * (a + b + 2) + (a + b + 2);
      TimesSum((n * (a + b + 2)) as real, (a + b + 2) as real, (|xs| * (a + b + 2)) as real, Times(sx, sw));
    }
  }

  /** Wrapping moves a sum by at least 2^32 steps. */
  lemma WrapMoves(n: int, step: real)
    requires step > 0.0 && !IsI32(n)
    ensures var d := Times(0x1_0000_0000 as real, step);
            || Dequantized(Wrap32(n), step) <= Dequantized(n, step) - d
            || Dequantized(Wrap32(n), step) >= Dequantized(n, step) + d
  {
    hide Times;
    var m, w := Wrap32(n) - n, 0x1_0000_0000;
    assert m % w == 0 && m != 0;
    TimesSum(n as real, m as real, Wrap32(n) as real, step);
    if m > 0 {
      TimesMono(w as real, m as real, step);
    } else {
      TimesMono(m as real, (-w) as real, step);
      TimesNegate(w as real, step, (-w) as real);
    }
  }

  /** What the bound promises for the accumulator, with some slack. */
  predicate WithinBound(xq: seq<int>, wq: seq<int>, xs: seq<real>, ws: seq<real>, sx: real, sw: real, b: real,
                        slack: real)
    requires Times(sx, sw) > 0.0 && |xs| == |ws| == |xq| == |wq|
  {
    Near(Dequantized(Accumulator(xq, wq, BiasCode(b, Times(sx, sw))), Times(sx, sw)), Dot(xs, ws) + b,
         ErrorSum(xs, ws, sx, sw) + 0.5 * Times(sx, sw) + slack)
  }

  /** A wrapped product is out of the bound, and out of it by `k` steps more. */
  lemma WrappedIsFar(xq: seq<int>, wq: seq<int>, xs: seq<real>, ws: seq<real>, sx: real, sw: real, b: real,
                     m: nat, n: nat, k: nat, slack: real)
    requires sx > 0.0 && sw > 0.0 && Times(sx, sw) > 0.0 && |xs| == |ws|
    requires Represents(xq, sx, xs) && Represents(wq, sw, ws) && CodesWithin(xq, m) && CodesWithin(wq, n)
    requires BiasInRange(b, Times(sx, sw)) && |xs| * (m + n + 2) + k < 0xFFFF_FFFF
    requires slack <= Times(k as real, Times(sx, sw)) && !IsI32(IntDot(xq, wq))
    ensures !WithinBound(xq, wq, xs, ws, sx, sw, b, slack)
  {
    hide IntDot, Dot, ErrorSum, BiasCode, BiasInRange, Dequantized, Times, CodesWithin;
    DotError(xq, wq, xs, ws, sx, sw);
    BiasErrorIff(b, Times(sx, sw));
    ErrorSumBound(xq, wq, xs, ws, sx, sw, m, n);
    WrapMoves(IntDot(xq, wq), Times(sx, sw));
    DequantizedSum(Wrap32(IntDot(xq, wq)), BiasCode(b, Times(sx, sw)),
                   Accumulator(xq, wq, BiasCode(b, Times(sx, sw))), Times(sx, sw));
    StepsBelow(|xs| * (m + n + 2), k, Times(sx, sw));
  }

  lemma StepsBelow(n: nat, k: nat, step: real)
    requires step > 0.0 && n + k < 0xFFFF_FFFF
    ensures Times(n as real, step) + Times(k as real, step) + step < Times(0x1_0000_0000 as real, step)
  {
    var total := (n + k) as real;
    RealMulLe(total, 0xFFFF_FFFE as real, step);
    assert Times(n as real, step) + Times(k as real, step) == total * step;
  }

  /**
   Up to any practical dimension the bound is exact about wrapping: it holds if and only if
   the sum of the products fits int32.
   */
  lemma LinearErrorIff(xq: seq<int>, wq: seq<int>, xs: seq<real>, ws: seq<real>, sx: real, sw: real, b: real,
                       m: nat, n: nat)
    requires sx > 0.0 && sw > 0.0 && Times(sx, sw) > 0.0 && |xs| == |ws|
    requires Represents(xq, sx, xs) && Represents(wq, sw, ws) && CodesWithin(xq, m) && CodesWithin(wq, n)
    requires BiasInRange(b, Times(sx, sw)) && |xs| * (m + n + 2) < 0xFFFF_FFFF
    ensures WithinBound(xq, wq, xs, ws, sx, sw, b, 0.0) <==> IsI32(IntDot(xq, wq))
  {
    hide IntDot, Dot, ErrorSum, BiasCode, BiasInRange, Dequantized, Times, HalfStep, CodesWithin;
    if IsI32(IntDot(xq, wq)) {
      LinearError(xq, wq, xs, ws, sx, sw, b);
    } else {
      TimesNumber(Times(sx, sw));
      WrappedIsFar(xq, wq, xs, ws, sx, sw, b, m, n, 0, 0.0);
    }
  }

  lemma ThreeEqualProducts(a: int)
    ensures IntDot([a, a, a], [a, a, a]) == a * a + a * a + a * a
  {
    assert [a, a, a][..2] == [a, a] && [a, a][..1] == [a] && [a][..0] == [];
    assert IntDot([a], [a]) == a * a;
    assert IntDot([a, a], [a, a]) == a * a + a * a;
  }

  lemma ExactCodes(q: int, x: real)
    requires x == q as real
    ensures Represents([q, q, q], 1.0, [x, x, x]) && CodesWithin([q, q, q], Abs(q))
  {
  }

  lemma ZeroBiasInRange(s: real)
    requires s > 0.0
    ensures BiasInRange(0.0, s)
  {
  }

  /** Three products of the largest 16-bit codes wrap, and the result is far from the real one. */
  lemma WrappingBreaksBound()
    ensures var q, x, one := [32767, 32767, 32767], [32767.0, 32767.0, 32767.0], 1.0;
            && Times(one, one) > 0.0 && Represents(q, one, x) && BiasInRange(0.0, Times(one, one))
            && !IsI32(IntDot(q, q)) && !WithinBound(q, q, x, x, one, one, 0.0, 0.0)
  {
    hide IntDot, WithinBound, Represents, BiasInRange, CodesWithin;
    ThreeEqualProducts(32767);
    ExactCodes(32767, 32767.0);
    ZeroBiasInRange(Times(1.0, 1.0));
    var q, x := [32767, 32767, 32767], [32767.0, 32767.0, 32767.0];
    LinearErrorIff(q, q, x, x, 1.0, 1.0, 0.0, 32767, 32767);
  }

  // ---------- the calibrated layer, end to end ----------

  /** The int32 products cannot wrap: dimension times the two largest codes. */
  predicate NoProductWrap(dim: nat, xBits: nat, wBits: nat)
    requires xBits >= 2 && wBits >= 2
  {
    dim * (QMax(xBits) * QMax(wBits)) <= MAX_I32
  }

  predicate Rectangular(t: Tensor, dim: nat) {
    forall i :: 0 <= i < |t| ==> |t[i]| == dim
  }

  /** The scale of the accumulator. */
  function StepOf(xq: QuantTensor, wq: QuantTensor): real { Times(xq.scale, wq.scale) }

  /** The layer's real-valued output for sample i and unit j, before requantization. */
  function LayerOutput(xq: QuantTensor, wq: QuantTensor, bias: seq<real>, i: nat, j: nat): real
    requires StepOf(xq, wq) > 0.0
    requires i < |xq.data| && j < |wq.data| && |xq.data[i]| == |wq.data[j]| && j < |bias|
  {
    Dequantized(Accumulator(xq.data[i], wq.data[j], BiasCode(bias[j], StepOf(xq, wq))), StepOf(xq, wq))
  }

  lemma StepPositive(x: real, w: real)
    requires x > 0.0 && w > 0.0
    ensures Times(x, w) > 0.0
  {
  }

  lemma AutoRepresents(t: Tensor, bits: nat, i: nat)
    requires bits >= 2 && i < |t|
    ensures var q := QuantizeSymmetric(t, bits, None);
            Represents(q.data[i], q.scale, t[i]) && CodesWithin(q.data[i], QMax(bits))
  {
    forall j | 0 <= j < |t[i]|
      ensures var q := QuantizeSymmetric(t, bits, None);
              -QMax(bits) <= q.data[i][j] <= QMax(bits) && HalfStep(q.data[i][j], q.scale, t[i][j])
    {
      AutoNeverClamps(t, bits, i, j);
    }
  }

  /** The bound on one output of a layer quantized on its own data, with some slack. */
  predicate OutputWithin(x: Tensor, w: Tensor, xq: QuantTensor, wq: QuantTensor, b: seq<real>, i: nat, j: nat,
                         slack: real)
    requires StepOf(xq, wq) > 0.0 && i < |x| == |xq.data| && j < |w| == |wq.data| == |b|
    requires |x[i]| == |w[j]| == |xq.data[i]| == |wq.data[j]|
  {
    Near(LayerOutput(xq, wq, b, i, j), Dot(x[i], w[j]) + b[j],
         ErrorSum(x[i], w[j], xq.scale, wq.scale) + 0.5 * StepOf(xq, wq) + slack)
  }

  /**
   A layer calibrated on its own inputs and weights: the dequantized accumulator of a sample
   and a unit is within the error sum plus half a bias step of x·W + b, as long as the bias is
   not clamped and this sum of products fits int32.
   */
  lemma CalibratedLayerError(x: Tensor, w: Tensor, b: seq<real>, dim: nat, xBits: nat, wBits: nat, i: nat, j: nat)
    requires xBits >= 2 && wBits >= 2
    requires Rectangular(x, dim) && Rectangular(w, dim) && |b| == |w| && i < |x| && j < |w|
    ensures var xq, wq := QuantizeSymmetric(x, xBits, None), QuantizeSymmetric(w, wBits, None);
            && StepOf(xq, wq) > 0.0
            && (BiasInRange(b[j], StepOf(xq, wq)) && IsI32(IntDot(xq.data[i], wq.data[j])) ==>
                  OutputWithin(x, w, xq, wq, b, i, j, 0.0))
  {
    hide QuantizeSymmetric, BiasInRange, IntDot, Dot, ErrorSum, Accumulator, BiasCode, QMax, HalfStep, Dequantized,
         Times;
    var xq, wq := QuantizeSymmetric(x, xBits, None), QuantizeSymmetric(w, wBits, None);
    AutoRepresents(x, xBits, i);
    AutoRepresents(w, wBits, j);
    StepPositive(xq.scale, wq.scale);
    if BiasInRange(b[j], StepOf(xq, wq)) && IsI32(IntDot(xq.data[i], wq.data[j])) {
      LinearError(xq.data[i], wq.data[j], x[i], w[j], xq.scale, wq.scale, b[j]);
    }
  }

  /** Few enough inputs for a wrap to show: twice the error sum stays below 2^32 steps. */
  predicate WrapShows(dim: nat, xBits: nat, wBits: nat, k: nat)
    requires xBits >= 2 && wBits >= 2
  {
    dim * (QMax(xBits) + QMax(wBits) + 2) + k < 0xFFFF_FFFF
  }

  /** A wrapped sum of products puts the output out of the bound, by k steps more. */
  lemma CalibratedWrapIsFar(x: Tensor, w: Tensor, b: seq<real>, dim: nat, xBits: nat, wBits: nat, i: nat, j: nat,
                            k: nat, slack: real)
    requires xBits >= 2 && wBits >= 2 && WrapShows(dim, xBits, wBits, k)
    requires Rectangular(x, dim) && Rectangular(w, dim) && |b| == |w| && i < |x| && j < |w|
    ensures var xq, wq := QuantizeSymmetric(x, xBits, None), QuantizeSymmetric(w, wBits, None);
            && StepOf(xq, wq) > 0.0
            && (BiasInRange(b[j], StepOf(xq, wq)) && slack <= Times(k as real, StepOf(xq, wq))
                && !IsI32(IntDot(xq.data[i], wq.data[j])) ==>
                  !OutputWithin(x, w, xq, wq, b, i, j, slack))
  {
    hide QuantizeSymmetric, BiasInRange, IntDot, Dot, ErrorSum, Accumulator, BiasCode, QMax, HalfStep, Dequantized,
         Times;
    var xq, wq := QuantizeSymmetric(x, xBits, None), QuantizeSymmetric(w, wBits, None);
    AutoRepresents(x, xBits, i);
    AutoRepresents(w, wBits, j);
    StepPositive(xq.scale, wq.scale);
    if BiasInRange(b[j], StepOf(xq, wq)) && slack <= Times(k as real, StepOf(xq, wq))
       && !IsI32(IntDot(xq.data[i], wq.data[j])) {
      WrappedIsFar(xq.data[i], wq.data[j], x[i], w[j], xq.scale, wq.scale, b[j], QMax(xBits), QMax(wBits), k, slack);
    }
  }

  /** For calibrated layers, too, the bound is exact: it holds iff the sum of products fits int32. */
  lemma CalibratedLayerErrorIff(x: Tensor, w: Tensor, b: seq<real>, dim: nat, xBits: nat, wBits: nat, i: nat, j: nat)
    requires xBits >= 2 && wBits >= 2 && WrapShows(dim, xBits, wBits, 0)
    requires Rectangular(x, dim) && Rectangular(w, dim) && |b| == |w| && i < |x| && j < |w|
    ensures var xq, wq := QuantizeSymmetric(x, xBits, None), QuantizeSymmetric(w, wBits, None);
            && StepOf(xq, wq) > 0.0
            && (BiasInRange(b[j], StepOf(xq, wq)) ==>
                  (OutputWithin(x, w, xq, wq, b, i, j, 0.0) <==> IsI32(IntDot(xq.data[i], wq.data[j]))))
  {
    hide QuantizeSymmetric, BiasInRange, IntDot, OutputWithin, StepOf, WrapShows, Times;
    var xq, wq := QuantizeSymmetric(x, xBits, None), QuantizeSymmetric(w, wBits, None);
    CalibratedLayerError(x, w, b, dim, xBits, wBits, i, j);
    CalibratedWrapIsFar(x, w, b, dim, xBits, wBits, i, j, 0, 0.0);
    TimesNumber(StepOf(xq, wq));
  }

  /** The worst-case test: products this small cannot wrap, whatever the data. */
  lemma NoProductWrapSuffices(x: Tensor, w: Tensor, dim: nat, xBits: nat, wBits: nat, i: nat, j: nat)
    requires xBits >= 2 && wBits >= 2 && NoProductWrap(dim, xBits, wBits)
    requires Rectangular(x, dim) && Rectangular(w, dim) && i < |x| && j < |w|
    ensures IsI32(IntDot(QuantizeSymmetric(x, xBits, None).data[i], QuantizeSymmetric(w, wBits, None).data[j]))
  {
    hide QuantizeSymmetric, IntDot, NoProductWrap, HalfStep;
    AutoRepresents(x, xBits, i);
    AutoRepresents(w, wBits, j);
    CodesDoNotWrap(QuantizeSymmetric(x, xBits, None).data[i], QuantizeSymmetric(w, wBits, None).data[j], xBits, wBits);
  }

  lemma CodesDoNotWrap(xs: seq<int>, ws: seq<int>, xBits: nat, wBits: nat)
    requires xBits >= 2 && wBits >= 2 && |xs| == |ws| && NoProductWrap(|xs|, xBits, wBits)
    requires CodesWithin(xs, QMax(xBits)) && CodesWithin(ws, QMax(wBits))
    ensures IsI32(IntDot(xs, ws))
  {
    IntDotBound(xs, ws, QMax(xBits), QMax(wBits));
  }

  // ---------- requantizing ----------

  predicate SameWidth(xq: QuantTensor, wq: QuantTensor) {
    forall i, j :: 0 <= i < |xq.data| && 0 <= j < |wq.data| ==> |xq.data[i]| == |wq.data[j]|
  }

  function OutputRow(xq: QuantTensor, wq: QuantTensor, bias: seq<real>, i: nat): (r: seq<real>)
    requires StepOf(xq, wq) > 0.0 && SameWidth(xq, wq) && |bias| == |wq.data| && i < |xq.data|
    ensures |r| == |wq.data|
  {
    seq(|wq.data|, j requires 0 <= j < |wq.data| => LayerOutput(xq, wq, bias, i, j))
  }

  /** The layer on every sample, its outputs quantized again on their own range. */
  function LinearEmulate(xq: QuantTensor, wq: QuantTensor, bias: seq<real>, outBits: nat): (yq: QuantTensor)
    requires StepOf(xq, wq) > 0.0 && SameWidth(xq, wq) && |bias| == |wq.data| && outBits >= 2
    ensures |yq.data| == |xq.data| && forall i :: 0 <= i < |yq.data| ==> |yq.data[i]| == |wq.data|
  {
    QuantizeSymmetric(seq(|xq.data|, i requires 0 <= i < |xq.data| => OutputRow(xq, wq, bias, i)), outBits, None)
  }

  /** Requantizing outputs on their own range costs at most half an output step more. */
  lemma RequantizedError(y: Tensor, outBits: nat, i: nat, j: nat, target: real, err: real)
    requires outBits >= 2 && i < |y| && j < |y[i]|
    requires Near(y[i][j], target, err)
    ensures var yq := QuantizeSymmetric(y, outBits, None);
            Near(Dequantized(yq.data[i][j], yq.scale), target, err + 0.5 * yq.scale)
  {
    hide QuantizeSymmetric, Dequantized;
    AutoNeverClamps(y, outBits, i, j);
  }

  /** The bound on one requantized output. */
  predicate EmulatedWithin(x: Tensor, w: Tensor, xq: QuantTensor, wq: QuantTensor, b: seq<real>, outBits: nat,
                           i: nat, j: nat)
    requires StepOf(xq, wq) > 0.0 && SameWidth(xq, wq) && outBits >= 2
    requires i < |x| == |xq.data| && j < |w| == |wq.data| == |b| && |x[i]| == |w[j]|
  {
    var yq := LinearEmulate(xq, wq, b, outBits);
    Near(Dequantized(yq.data[i][j], yq.scale), Dot(x[i], w[j]) + b[j],
         ErrorSum(x[i], w[j], xq.scale, wq.scale) + 0.5 * StepOf(xq, wq) + 0.5 * yq.scale)
  }

  /** The emulated layer against the real one: products, bias, and the output step. */
  lemma EmulatedLayerError(x: Tensor, w: Tensor, b: seq<real>, dim: nat, xBits: nat, wBits: nat, outBits: nat,
                           i: nat, j: nat)
    requires xBits >= 2 && wBits >= 2 && outBits >= 2
    requires Rectangular(x, dim) && Rectangular(w, dim) && |b| == |w| && i < |x| && j < |w|
    ensures var xq, wq := QuantizeSymmetric(x, xBits, None), QuantizeSymmetric(w, wBits, None);
            && StepOf(xq, wq) > 0.0 && SameWidth(xq, wq)
            && (BiasInRange(b[j], StepOf(xq, wq)) && IsI32(IntDot(xq.data[i], wq.data[j])) ==>
                  EmulatedWithin(x, w, xq, wq, b, outBits, i, j))
  {
    hide QuantizeSymmetric, BiasInRange, IntDot, Dot, ErrorSum, Dequantized, LayerOutput, StepOf;
    var xq, wq := QuantizeSymmetric(x, xBits, None), QuantizeSymmetric(w, wBits, None);
    CalibratedLayerError(x, w, b, dim, xBits, wBits, i, j);
    var y := seq(|xq.data|, i requires 0 <= i < |xq.data| => OutputRow(xq, wq, b, i));
    assert y[i][j] == LayerOutput(xq, wq, b, i, j);
    if BiasInRange(b[j], StepOf(xq, wq)) && IsI32(IntDot(xq.data[i], wq.data[j])) {
      RequantizedError(y, outBits, i, j, Dot(x[i], w[j]) + b[j],
                       ErrorSum(x[i], w[j], xq.scale, wq.scale) + 0.5 * StepOf(xq, wq));
    }
  }

  /**
   Requantizing does not hide a wrap either, as long as the output step is at most k
   accumulator steps: then the whole bound holds iff the sum of products fits int32.
   */
  lemma EmulatedLayerErrorIff(x: Tensor, w: Tensor, b: seq<real>, dim: nat, xBits: nat, wBits: nat, outBits: nat,
                              i: nat, j: nat, k: nat)
    requires xBits >= 2 && wBits >= 2 && outBits >= 2 && WrapShows(dim, xBits, wBits, k)
    requires Rectangular(x, dim) && Rectangular(w, dim) && |b| == |w| && i < |x| && j < |w|
    ensures var xq, wq := QuantizeSymmetric(x, xBits, None), QuantizeSymmetric(w, wBits, None);
            && StepOf(xq, wq) > 0.0 && SameWidth(xq, wq)
            && (BiasInRange(b[j], StepOf(xq, wq))
                && LinearEmulate(xq, wq, b, outBits).scale <= Times(k as real, StepOf(xq, wq)) ==>
                  (EmulatedWithin(x, w, xq, wq, b, outBits, i, j) <==> IsI32(IntDot(xq.data[i], wq.data[j]))))
  {
    hide QuantizeSymmetric, BiasInRange, IntDot, Dot, ErrorSum, Dequantized, LayerOutput, StepOf, WrapShows, Times;
    var xq, wq := QuantizeSymmetric(x, xBits, None), QuantizeSymmetric(w, wBits, None);
    EmulatedLayerError(x, w, b, dim, xBits, wBits, outBits, i, j);
    var y := seq(|xq.data|, i requires 0 <= i < |xq.data| => OutputRow(xq, wq, b, i));
    var yq := LinearEmulate(xq, wq, b, outBits);
    assert y[i][j] == LayerOutput(xq, wq, b, i, j);
    RequantizedError(y, outBits, i, j, y[i][j], 0.0);
    CalibratedWrapIsFar(x, w, b, dim, xBits, wBits, i, j, k, yq.scale);
  }
}

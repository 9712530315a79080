/**
 Folding the feature normalization into the first layer leaves the network's function
 unchanged, over the reals.
 */
module NormFold {
  import opened Reals

  const STD_EPSILON := 0.000_000_01

  datatype Layer = Layer(w: seq<seq<real>>, b: seq<real>)

  predicate Shaped(l: Layer, dim: nat) {
    |l.w| == |l.b| && forall h :: 0 <= h < |l.w| ==> |l.w[h]| == dim
  }

  function InvStd(std: seq<real>): (inv: seq<real>)
    requires forall i :: 0 <= i < |std| ==> std[i] + STD_EPSILON != 0.0
    ensures |inv| == |std|
  {
    seq(|std|, i requires 0 <= i < |std| => Over(1.0, std[i] + STD_EPSILON))
  }

  function Scaled(w: seq<real>, inv: seq<real>): (v: seq<real>)
    requires |w| == |inv|
    ensures |v| == |w|
  {
    seq(|w|, i requires 0 <= i < |w| => Times(w[i], inv[i]))
  }

  function Fold(l: Layer, mean: seq<real>, std: seq<real>): (r: Layer)
    requires Shaped(l, |mean|) && |mean| == |std|
    requires forall i :: 0 <= i < |std| ==> std[i] + STD_EPSILON != 0.0
    ensures Shaped(r, |mean|) && |r.w| == |l.w|
  {
    var inv := InvStd(std);
    Layer(seq(|l.w|, h requires 0 <= h < |l.w| => Scaled(l.w[h], inv)),
          seq(|l.b|, h requires 0 <= h < |l.b| => l.b[h] - Dot(l.w[h], Scaled(mean, inv))))
  }

  function Apply(l: Layer, x: seq<real>): (y: seq<real>)
    requires Shaped(l, |x|)
    ensures |y| == |l.w|
  {
    seq(|l.w|, h requires 0 <= h < |l.w| => Dot(l.w[h], x) + l.b[h])
  }

  /** (x - mean) / (std + 1e-8) */
  function Normalize(x: seq<real>, mean: seq<real>, std: seq<real>): (z: seq<real>)
    requires |x| == |mean| == |std|
    requires forall i :: 0 <= i < |std| ==> std[i] + STD_EPSILON != 0.0
    ensures |z| == |x|
  {
    seq(|x|, i requires 0 <= i < |x| => Over(x[i] - mean[i], std[i] + STD_EPSILON))
  }

  /** Normalizing subtracts the mean and divides by the deviation plus 1e-8. */
  lemma NormalizeMeaning(x: seq<real>, mean: seq<real>, std: seq<real>, i: nat)
    requires i < |x| == |mean| == |std|
    requires forall k :: 0 <= k < |std| ==> std[k] + STD_EPSILON != 0.0
    ensures Normalize(x, mean, std)[i] * (std[i] + 0.000_000_01) == x[i] - mean[i]
  {
  }

  /** w/s · x - w · (m/s) = w · ((x - m)/s) */
  lemma FoldedTerm(w: real, x: real, m: real, s: real)
    requires s != 0.0
    ensures Times(Times(w, Over(1.0, s)), x) - Times(w, Times(m, Over(1.0, s))) == Times(w, Over(x - m, s))
  {
  }

  lemma Prefixes(w: seq<real>, mean: seq<real>, std: seq<real>, x: seq<real>, n: nat)
    requires |w| == |x| == |mean| == |std| && n <= |w|
    requires forall i :: 0 <= i < |std| ==> std[i] + STD_EPSILON != 0.0
    ensures Scaled(w[..n], InvStd(std[..n])) == Scaled(w, InvStd(std))[..n]
    ensures Scaled(mean[..n], InvStd(std[..n])) == Scaled(mean, InvStd(std))[..n]
    ensures Normalize(x[..n], mean[..n], std[..n]) == Normalize(x, mean, std)[..n]
  {
  }

  lemma LastTerms(w: seq<real>, mean: seq<real>, std: seq<real>, x: seq<real>, n: nat)
    requires |w| == |x| == |mean| == |std| && n < |w|
    requires forall i :: 0 <= i < |std| ==> std[i] + STD_EPSILON != 0.0
    ensures var inv := Over(1.0, std[n] + STD_EPSILON);
            && Scaled(w, InvStd(std))[n] == Times(w[n], inv)
            && Scaled(mean, InvStd(std))[n] == Times(mean[n], inv)
            && Normalize(x, mean, std)[n] == Over(x[n] - mean[n], std[n] + STD_EPSILON)
  {
  }

  lemma {:induction false} FoldedRow(w: seq<real>, x: seq<real>, mean: seq<real>, std: seq<real>)
    requires |w| == |x| == |mean| == |std|
    requires forall i :: 0 <= i < |std| ==> std[i] + STD_EPSILON != 0.0
    ensures Dot(Scaled(w, InvStd(std)), x) - Dot(w, Scaled(mean, InvStd(std))) == Dot(w, Normalize(x, mean, std))
  {
    hide Times, Over, InvStd, Scaled, Normalize;
    if w == [] {
    } else {
      var n := |w| - 1;
      Prefixes(w, mean, std, x, n);
      LastTerms(w, mean, std, x, n);
      FoldedRow(w[..n], x[..n], mean[..n], std[..n]);
      FoldedTerm(w[n], x[n], mean[n], std[n] + STD_EPSILON);
    }
  }

  /** For every input, the folded layer on x equals the layer on the normalized x. */
  lemma FoldPreservesMeaning(l: Layer, mean: seq<real>, std: seq<real>, x: seq<real>)
    requires Shaped(l, |x|) && |x| == |mean| == |std|
    requires forall i :: 0 <= i < |std| ==> std[i] + STD_EPSILON != 0.0
    ensures Apply(Fold(l, mean, std), x) == Apply(l, Normalize(x, mean, std))
  {
    forall h | 0 <= h < |l.w|
      ensures Apply(Fold(l, mean, std), x)[h] == Apply(l, Normalize(x, mean, std))[h]
    {
      FoldedRow(l.w[h], x, mean, std);
    }
  }
}

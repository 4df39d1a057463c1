/** Price series as fetched from the upstream price service, and the
    arithmetic (sums, extremes) shared by the average and the correlation. */
module Series {
  import opened Wrappers

  /** One observation. `lastUpdatedAt` is the timestamp in milliseconds that
      `new Date(dateString).getTime()` yields, or None where the date string
      does not parse (the source then computes with NaN). */
  datatype PricePoint = PricePoint(price: real, lastUpdatedAt: Option<int>)

  /** The `price` field of every entry, in order (`data.map(d => d.price)`). */
  function Prices(data: seq<PricePoint>): (p: seq<real>)
    ensures |p| == |data|
    ensures forall i :: 0 <= i < |data| ==> p[i] == data[i].price
  {
    seq(|data|, i requires 0 <= i < |data| => data[i].price)
  }

  /** Left fold with `+` starting at 0, as `reduce((a, b) => a + b, 0)`. */
  function Sum(s: seq<real>): real
  {
    if s == [] then 0.0 else Sum(s[..|s| - 1]) + s[|s| - 1]
  }

  /** Arithmetic mean of a non-empty sequence. */
  function Mean(s: seq<real>): (m: real)
    requires |s| > 0
    ensures m * (|s| as real) == Sum(s)
  {
    Sum(s) / (|s| as real)
  }

  /** The smallest element of a non-empty sequence. */
  function MinOf(s: seq<real>): (m: real)
    requires |s| > 0
    ensures m in s
    ensures forall i :: 0 <= i < |s| ==> m <= s[i]
  {
    if |s| == 1 then s[0]
    else
      var rest := MinOf(s[..|s| - 1]);
      if s[|s| - 1] < rest then s[|s| - 1] else rest
  }

  /** The largest element of a non-empty sequence. */
  function MaxOf(s: seq<real>): (m: real)
    requires |s| > 0
    ensures m in s
    ensures forall i :: 0 <= i < |s| ==> s[i] <= m
  {
    if |s| == 1 then s[0]
    else
      var rest := MaxOf(s[..|s| - 1]);
      if s[|s| - 1] > rest then s[|s| - 1] else rest
  }

  /** A sum of values between lo and hi lies between |s|*lo and |s|*hi. */
  lemma {:induction false} SumBounds(s: seq<real>, lo: real, hi: real)
    requires forall i :: 0 <= i < |s| ==> lo <= s[i] <= hi
    ensures (|s| as real) * lo <= Sum(s) <= (|s| as real) * hi
  {
    if s != [] {
      SumBounds(s[..|s| - 1], lo, hi);
    }
  }

  /** The mean of values between lo and hi lies between lo and hi. */
  lemma MeanBounds(s: seq<real>, lo: real, hi: real)
    requires |s| > 0
    requires forall i :: 0 <= i < |s| ==> lo <= s[i] <= hi
    ensures lo <= Mean(s) <= hi
  {
    var n, m := |s| as real, Mean(s);
    SumBounds(s, lo, hi);
    assert m - lo == (Sum(s) - n * lo) / n;
    assert hi - m == (n * hi - Sum(s)) / n;
  }

  /** Summing an affine image: Σ (alpha + beta*p_i) == n*alpha + beta*Σ p_i. */
  lemma {:induction false} SumAffine(p: seq<real>, q: seq<real>, alpha: real, beta: real)
    requires |p| == |q|
    requires forall i :: 0 <= i < |p| ==> q[i] == alpha + beta * p[i]
    ensures Sum(q) == (|p| as real) * alpha + beta * Sum(p)
  {
    if p != [] {
      var n := |p| - 1;
      SumAffine(p[..n], q[..n], alpha, beta);
      assert Sum(q) == Sum(q[..n]) + q[n];
      assert Sum(p) == Sum(p[..n]) + p[n];
    }
  }

  /** The mean of an affine image is the affine image of the mean. */
  lemma MeanAffine(p: seq<real>, q: seq<real>, alpha: real, beta: real)
    requires |p| == |q| > 0
    requires forall i :: 0 <= i < |p| ==> q[i] == alpha + beta * p[i]
    ensures Mean(q) == alpha + beta * Mean(p)
  {
    SumAffine(p, q, alpha, beta);
    AffineQuotient(Mean(p), Mean(q), Sum(p), Sum(q), |p| as real, alpha, beta);
  }

  /** Dividing sq == n*alpha + beta*sp by n > 0. */
  lemma AffineQuotient(mp: real, mq: real, sp: real, sq: real, n: real, alpha: real, beta: real)
    requires 0.0 < n && mp * n == sp && mq * n == sq
    requires sq == n * alpha + beta * sp
    ensures mq == alpha + beta * mp
  {
    assert (alpha + beta * mp) * n == n * alpha + beta * (mp * n);
    assert (mq - (alpha + beta * mp)) * n == 0.0;
  }

  /** Every element of a sequence is equal to the first one. */
  predicate Constant(s: seq<real>)
  {
    forall i :: 0 <= i < |s| ==> s[i] == s[0]
  }

  /** A constant sequence has its common value as its mean. */
  lemma MeanOfConstant(s: seq<real>)
    requires |s| > 0 && Constant(s)
    ensures Mean(s) == s[0]
  {
    SumAffine(s, s, s[0], 0.0);
  }
}

/** Pearson correlation of two price series paired by position:
    `pearsonCorrelation`.

    Dafny's reals have no square root, so the coefficient is returned as the
    three accumulators the source divides: the value it stands for is
    numerator / (sqrt(denom1) * sqrt(denom2)), which `Denotes` pins down
    without a square root. */
module Correlation {
  import opened Series

  /** The result of `pearsonCorrelation`: Neutral where the source returns
      0 early (fewer than two pairs, or a zero denominator), otherwise the
      co-deviation sum and the two squared-deviation sums. */
  datatype Coefficient = Neutral | Ratio(numerator: real, denom1: real, denom2: real)

  /** r is the number the coefficient stands for:
      0 for Neutral, and numerator / sqrt(denom1 * denom2) for a Ratio,
      that is r*r*(denom1*denom2) == numerator*numerator with r of the sign
      of the numerator. */
  predicate Denotes(c: Coefficient, r: real)
  {
    match c
    case Neutral => r == 0.0
    case Ratio(num, d1, d2) => r * r * (d1 * d2) == num * num && (0.0 <= r <==> 0.0 <= num)
  }

  /** Sum of products of paired elements (Σ u_i * v_i), accumulated from
      the front as the source's loop does. */
  function Dot(u: seq<real>, v: seq<real>): real
    requires |u| == |v|
  {
    if |u| == 0 then 0.0 else Dot(u[..|u| - 1], v[..|v| - 1]) + u[|u| - 1] * v[|u| - 1]
  }

  /** Each value minus m. */
  function Deviations(xs: seq<real>, m: real): (d: seq<real>)
    ensures |d| == |xs|
    ensures forall i :: 0 <= i < |xs| ==> d[i] == xs[i] - m
  {
    seq(|xs|, i requires 0 <= i < |xs| => xs[i] - m)
  }

  /** min(|a|, |b|): the number of positional pairs. */
  function PairedLength(a: seq<PricePoint>, b: seq<PricePoint>): (n: nat)
    ensures n <= |a| && n <= |b| && (n == |a| || n == |b|)
  {
    if |a| <= |b| then |a| else |b|
  }

  /** Deviations from their mean of the first n prices of a series. */
  function Spread(a: seq<PricePoint>, n: nat): (d: seq<real>)
    requires 0 < n <= |a|
    ensures |d| == n
  {
    var p := Prices(a[..n]);
    Deviations(p, Mean(p))
  }

  /** The coefficient `pearsonCorrelation(a, b)` computes, over exact reals. */
  function CorrelationOf(a: seq<PricePoint>, b: seq<PricePoint>): Coefficient
  {
    var n := PairedLength(a, b);
    if n < 2 then Neutral
    else
      var u, v := Spread(a, n), Spread(b, n);
      var d1, d2 := Dot(u, u), Dot(v, v);
      if d1 == 0.0 || d2 == 0.0 then Neutral else Ratio(Dot(u, v), d1, d2)
  }

  /** `pearsonCorrelation`: pairs the series by position, returns Neutral
      for fewer than two pairs, accumulates the three sums and returns
      Neutral when the denominator vanishes. */
  method PearsonCorrelation(stockData1: seq<PricePoint>, stockData2: seq<PricePoint>) returns (c: Coefficient)
    ensures c == CorrelationOf(stockData1, stockData2)
    ensures c.Ratio? ==> 0.0 < c.denom1 && 0.0 < c.denom2 && c.numerator * c.numerator <= c.denom1 * c.denom2
  {
    var length := if |stockData1| <= |stockData2| then |stockData1| else |stockData2|;
    if length < 2 {
      return Neutral;
    }
    var prices1 := Prices(stockData1[..length]);
    var prices2 := Prices(stockData2[..length]);
    var mean1 := Mean(prices1);
    var mean2 := Mean(prices2);
    var numerator, denom1, denom2 := AccumulateDeviations(prices1, prices2, mean1, mean2);
    CorrelationFromSums(stockData1, stockData2, length);
    if denom1 == 0.0 || denom2 == 0.0 {
      c := Neutral;
    } else {
      c := Ratio(numerator, denom1, denom2);
    }
    CorrelationBounded(stockData1, stockData2);
  }

  /** The three sums of the loop, over the first n pairs, are the dot
      products that CorrelationOf compares. */
  lemma CorrelationFromSums(a: seq<PricePoint>, b: seq<PricePoint>, n: nat)
    requires n == PairedLength(a, b) && n >= 2
    ensures var xs, ys := Prices(a[..n]), Prices(b[..n]);
      var mx, my := Mean(xs), Mean(ys);
      var num, d1, d2 := CoDeviation(xs, ys, mx, my), CoDeviation(xs, xs, mx, mx), CoDeviation(ys, ys, my, my);
      CorrelationOf(a, b) == if d1 == 0.0 || d2 == 0.0 then Neutral else Ratio(num, d1, d2)
  {
    var xs, ys := Prices(a[..n]), Prices(b[..n]);
    var mx, my := Mean(xs), Mean(ys);
    CoDeviationIsDot(xs, ys, mx, my);
    CoDeviationIsDot(xs, xs, mx, mx);
    CoDeviationIsDot(ys, ys, my, my);
  }

  /** Σ (x_i - mx) * (y_i - my) over the pairs, in the order of the loop.
      It is the same sum as Dot of the two deviation sequences
      (CoDeviationIsDot); the loop is stated over this form because it needs
      no deviation sequence to be built. */
  function CoDeviation(xs: seq<real>, ys: seq<real>, mx: real, my: real): real
    requires |xs| == |ys|
  {
    if |xs| == 0 then 0.0
    else
      var n := |xs| - 1;
      CoDeviation(xs[..n], ys[..n], mx, my) + (xs[n] - mx) * (ys[n] - my)
  }

  /** The source's `for` loop over the pairs: after i rounds the three
      accumulators hold the co-deviation sum and the two squared-deviation
      sums of the first i pairs; the latter two are sums of squares and so
      never negative. */
  method AccumulateDeviations(prices1: seq<real>, prices2: seq<real>, mean1: real, mean2: real)
    returns (numerator: real, denom1: real, denom2: real)
    requires |prices1| == |prices2|
    ensures numerator == CoDeviation(prices1, prices2, mean1, mean2)
    ensures denom1 == CoDeviation(prices1, prices1, mean1, mean1) && 0.0 <= denom1
    ensures denom2 == CoDeviation(prices2, prices2, mean2, mean2) && 0.0 <= denom2
  {
    numerator, denom1, denom2 := 0.0, 0.0, 0.0;
    for i := 0 to |prices1|
      invariant numerator == CoDeviation(prices1[..i], prices2[..i], mean1, mean2)
      invariant denom1 == CoDeviation(prices1[..i], prices1[..i], mean1, mean1)
      invariant denom2 == CoDeviation(prices2[..i], prices2[..i], mean2, mean2)
    {
      var diff1 := prices1[i] - mean1;
      var diff2 := prices2[i] - mean2;
      CoDeviationSnoc(prices1, prices2, mean1, mean2, i, diff1, diff2);
      CoDeviationSnoc(prices1, prices1, mean1, mean1, i, diff1, diff1);
      CoDeviationSnoc(prices2, prices2, mean2, mean2, i, diff2, diff2);
      numerator := numerator + diff1 * diff2;
      denom1 := denom1 + diff1 * diff1;
      denom2 := denom2 + diff2 * diff2;
    }
    assert prices1[..|prices1|] == prices1 && prices2[..|prices2|] == prices2;
    CoDeviationSelfNonNegative(prices1, mean1);
    CoDeviationSelfNonNegative(prices2, mean2);
  }

  /** One more pair adds its product of deviations. */
  lemma CoDeviationSnoc(xs: seq<real>, ys: seq<real>, mx: real, my: real, i: nat, dx: real, dy: real)
    requires |xs| == |ys| && i < |xs|
    requires dx == xs[i] - mx && dy == ys[i] - my
    ensures CoDeviation(xs[..i + 1], ys[..i + 1], mx, my) == CoDeviation(xs[..i], ys[..i], mx, my) + dx * dy
  {
    assert xs[..i + 1][..i] == xs[..i] && ys[..i + 1][..i] == ys[..i];
  }

  /** A sum of squared deviations is never negative. */
  lemma {:induction false} CoDeviationSelfNonNegative(xs: seq<real>, m: real)
    ensures 0.0 <= CoDeviation(xs, xs, m, m)
  {
    if |xs| > 0 {
      var n := |xs| - 1;
      CoDeviationSelfNonNegative(xs[..n], m);
      SquareNonNegative(xs[n] - m);
    }
  }

  /** The loop's sum is the sum of products of the two deviation sequences. */
  lemma {:induction false} CoDeviationIsDot(xs: seq<real>, ys: seq<real>, mx: real, my: real)
    requires |xs| == |ys|
    ensures CoDeviation(xs, ys, mx, my) == Dot(Deviations(xs, mx), Deviations(ys, my))
  {
    if |xs| > 0 {
      var n := |xs| - 1;
      CoDeviationIsDot(xs[..n], ys[..n], mx, my);
      assert Deviations(xs, mx)[..n] == Deviations(xs[..n], mx);
      assert Deviations(ys, my)[..n] == Deviations(ys[..n], my);
    }
  }

  // ----- real arithmetic -----

  lemma ProductZero(x: real, y: real)
    ensures x * y == 0.0 ==> x == 0.0 || y == 0.0
  {
  }

  lemma SquareNonNegative(x: real)
    ensures 0.0 <= x * x
  {
  }

  lemma ScaledNonZero(beta: real, d: real, e: real)
    requires beta != 0.0 && d != 0.0 && e == beta * beta * d
    ensures e != 0.0
  {
    ProductZero(beta, beta);
    ProductZero(beta * beta, d);
  }

  lemma PositiveProduct(x: real, y: real)
    requires 0.0 < x && 0.0 < y
    ensures 0.0 < x * y
  {
  }

  lemma NonNegativeFactor(x: real, d: real)
    requires 0.0 < d && 0.0 <= x * d
    ensures 0.0 <= x
  {
  }

  lemma SquareAtMostOne(r: real)
    requires r * r <= 1.0
    ensures -1.0 <= r <= 1.0
  {
  }

  /** Two numbers of the same sign with equal squares are equal. */
  lemma SameSignSquares(x: real, y: real)
    requires x * x == y * y && (0.0 <= x <==> 0.0 <= y)
    ensures x == y
  {
    assert (x - y) * (x + y) == x * x - y * y;
    ProductZero(x - y, x + y);
  }

  // ----- facts about Dot -----

  lemma {:induction false} DotSelfNonNegative(u: seq<real>)
    ensures 0.0 <= Dot(u, u)
  {
    if |u| > 0 {
      DotSelfNonNegative(u[..|u| - 1]);
    }
  }

  /** A sum of squares is zero only when every term is. */
  lemma {:induction false} DotSelfZero(u: seq<real>)
    requires Dot(u, u) == 0.0
    ensures forall i :: 0 <= i < |u| ==> u[i] == 0.0
  {
    if |u| > 0 {
      var init, x := u[..|u| - 1], u[|u| - 1];
      DotSelfNonNegative(init);
      assert Dot(init, init) + x * x == 0.0;
      assert x * x == 0.0;
      ProductZero(x, x);
      DotSelfZero(init);
      assert forall i :: 0 <= i < |init| ==> u[i] == init[i];
    }
  }

  lemma {:induction false} DotZeroLeft(u: seq<real>, v: seq<real>)
    requires |u| == |v|
    requires forall i :: 0 <= i < |u| ==> u[i] == 0.0
    ensures Dot(u, v) == 0.0
  {
    if |u| > 0 {
      DotZeroLeft(u[..|u| - 1], v[..|v| - 1]);
    }
  }

  lemma {:induction false} DotSymmetric(u: seq<real>, v: seq<real>)
    requires |u| == |v|
    ensures Dot(u, v) == Dot(v, u)
  {
    if |u| > 0 {
      DotSymmetric(u[..|u| - 1], v[..|v| - 1]);
    }
  }

  /** Scaling the right-hand factor scales the sum. */
  lemma {:induction false} DotScaledRight(u: seq<real>, v: seq<real>, w: seq<real>, beta: real)
    requires |u| == |v| == |w|
    requires forall i :: 0 <= i < |v| ==> w[i] == beta * v[i]
    ensures Dot(u, w) == beta * Dot(u, v)
  {
    if |u| > 0 {
      var n := |u| - 1;
      DotScaledRight(u[..n], v[..n], w[..n], beta);
      assert u[n] * w[n] == beta * (u[n] * v[n]);
    }
  }

  /** Scaling both sides by beta scales a self dot product by beta^2. */
  lemma {:induction false} DotScaledBoth(u: seq<real>, v: seq<real>, beta: real)
    requires |u| == |v|
    requires forall i :: 0 <= i < |u| ==> v[i] == beta * u[i]
    ensures Dot(v, v) == beta * beta * Dot(u, u)
  {
    if |u| > 0 {
      var n := |u| - 1;
      DotScaledBoth(u[..n], v[..n], beta);
      assert v[n] * v[n] == beta * beta * (u[n] * u[n]);
    }
  }

  /** Cauchy–Schwarz: (Σ u_i v_i)^2 <= Σ u_i^2 * Σ v_i^2, by induction on
      the number of pairs. */
  lemma {:induction false} CauchySchwarz(u: seq<real>, v: seq<real>)
    requires |u| == |v|
    ensures Dot(u, v) * Dot(u, v) <= Dot(u, u) * Dot(v, v)
  {
    if |u| == 0 {
      NoPairs(Dot(u, u), Dot(u, v), Dot(v, v));
    } else {
      var n := |u| - 1;
      CauchySchwarz(u[..n], v[..n]);
      DotSelfNonNegative(u[..n]);
      DotSelfNonNegative(v[..n]);
      CauchySchwarzStep(Dot(u[..n], u[..n]), Dot(u[..n], v[..n]), Dot(v[..n], v[..n]),
        Dot(u, u), Dot(u, v), Dot(v, v), u[n], v[n]);
    }
  }

  /** With no pairs all three sums are zero and B^2 <= A*C holds trivially. */
  lemma NoPairs(A: real, B: real, C: real)
    requires A == 0.0 && B == 0.0 && C == 0.0
    ensures B * B <= A * C
  {
  }

  /** One more pair (x, y) keeps B^2 <= A*C for the running sums
      A = Σ u_i^2, B = Σ u_i v_i, C = Σ v_i^2. */
  lemma CauchySchwarzStep(A0: real, B0: real, C0: real, A: real, B: real, C: real, x: real, y: real)
    requires 0.0 <= A0 && 0.0 <= C0 && B0 * B0 <= A0 * C0
    requires A == A0 + x * x && B == B0 + x * y && C == C0 + y * y
    ensures B * B <= A * C
  {
    CrossTermBound(A0, B0, C0, x, y);
    assert B * B == B0 * B0 + 2.0 * B0 * (x * y) + (x * y) * (x * y);
    assert A * C == A0 * C0 + A0 * (y * y) + C0 * (x * x) + (x * x) * (y * y);
    assert (x * y) * (x * y) == (x * x) * (y * y);
  }

  /** 2*B*x*y <= A*y^2 + C*x^2 whenever B^2 <= A*C with A, C non-negative:
      for A > 0, A times the difference is (A*y - B*x)^2 + (A*C - B^2)*x^2. */
  lemma CrossTermBound(A: real, B: real, C: real, x: real, y: real)
    requires 0.0 <= A && 0.0 <= C && B * B <= A * C
    ensures 2.0 * B * (x * y) <= A * (y * y) + C * (x * x)
  {
    SquareNonNegative(x);
    SquareNonNegative(y);
    if A == 0.0 {
      SquareNonNegative(B);
      ProductZero(B, B);
    } else {
      var d := A * y - B * x;
      assert 0.0 <= d * d;
      assert d * d == A * A * (y * y) - 2.0 * A * B * (x * y) + B * B * (x * x);
      assert B * B * (x * x) <= A * C * (x * x);
      assert A * (2.0 * B * (x * y)) <= A * (A * (y * y) + C * (x * x));
    }
  }

  // ----- properties of the coefficient -----

  /** A Ratio always has positive squared-deviation sums and satisfies
      Cauchy–Schwarz, numerator^2 <= denom1 * denom2. */
  lemma CorrelationBounded(a: seq<PricePoint>, b: seq<PricePoint>)
    ensures CorrelationOf(a, b).Ratio? ==>
      var c := CorrelationOf(a, b);
      0.0 < c.denom1 && 0.0 < c.denom2 && c.numerator * c.numerator <= c.denom1 * c.denom2
  {
    var n := PairedLength(a, b);
    if n >= 2 {
      var u, v := Spread(a, n), Spread(b, n);
      DotSelfNonNegative(u);
      DotSelfNonNegative(v);
      CauchySchwarz(u, v);
    }
  }

  /** The number a coefficient stands for lies in [-1, 1]. */
  lemma DenotedInRange(a: seq<PricePoint>, b: seq<PricePoint>, r: real)
    requires Denotes(CorrelationOf(a, b), r)
    ensures -1.0 <= r <= 1.0
  {
    var c := CorrelationOf(a, b);
    if c.Ratio? {
      CorrelationBounded(a, b);
      var D := c.denom1 * c.denom2;
      PositiveProduct(c.denom1, c.denom2);
      assert (1.0 - r * r) * D == D - c.numerator * c.numerator;
      NonNegativeFactor(1.0 - r * r, D);
      SquareAtMostOne(r);
    }
  }

  /** A coefficient of CorrelationOf stands for at most one number. */
  lemma DenotesUnique(a: seq<PricePoint>, b: seq<PricePoint>, r1: real, r2: real)
    requires Denotes(CorrelationOf(a, b), r1) && Denotes(CorrelationOf(a, b), r2)
    ensures r1 == r2
  {
    var c := CorrelationOf(a, b);
    if c.Ratio? {
      CorrelationBounded(a, b);
      var D := c.denom1 * c.denom2;
      PositiveProduct(c.denom1, c.denom2);
      assert (r1 * r1 - r2 * r2) * D == 0.0;
      ProductZero(r1 * r1 - r2 * r2, D);
      SameSignSquares(r1, r2);
    }
  }

  /** Fewer than two pairs: the source returns 0 before any arithmetic. */
  lemma ShortSeriesNeutral(a: seq<PricePoint>, b: seq<PricePoint>)
    requires |a| < 2 || |b| < 2
    ensures CorrelationOf(a, b) == Neutral
    ensures forall r :: Denotes(CorrelationOf(a, b), r) <==> r == 0.0
  {
  }

  /** Only the first min(|a|, |b|) entries of each series matter. */
  lemma CorrelationDependsOnPrefix(a: seq<PricePoint>, b: seq<PricePoint>, a2: seq<PricePoint>, b2: seq<PricePoint>)
    requires PairedLength(a, b) == PairedLength(a2, b2)
    requires a[..PairedLength(a, b)] == a2[..PairedLength(a, b)]
    requires b[..PairedLength(a, b)] == b2[..PairedLength(a, b)]
    ensures CorrelationOf(a, b) == CorrelationOf(a2, b2)
  {
    var n := PairedLength(a, b);
    if n >= 2 {
      assert a[..n][..n] == a2[..n][..n];
      assert Spread(a, n) == Spread(a2, n);
      assert Spread(b, n) == Spread(b2, n);
    }
  }

  /** Truncating both series to the paired length changes nothing. */
  lemma CorrelationTruncated(a: seq<PricePoint>, b: seq<PricePoint>)
    ensures CorrelationOf(a, b) == CorrelationOf(a[..PairedLength(a, b)], b[..PairedLength(a, b)])
  {
    var n := PairedLength(a, b);
    assert a[..n][..n] == a[..n] && b[..n][..n] == b[..n];
    CorrelationDependsOnPrefix(a, b, a[..n], b[..n]);
  }

  /** Appending to the longer series changes nothing. */
  lemma CorrelationExtendLonger(a: seq<PricePoint>, b: seq<PricePoint>, extra: seq<PricePoint>)
    ensures |a| <= |b| ==> CorrelationOf(a, b + extra) == CorrelationOf(a, b)
    ensures |b| <= |a| ==> CorrelationOf(a + extra, b) == CorrelationOf(a, b)
  {
    if |a| <= |b| {
      var n := |a|;
      assert (b + extra)[..n] == b[..n];
      CorrelationDependsOnPrefix(a, b + extra, a, b);
    }
    if |b| <= |a| {
      var n := |b|;
      assert (a + extra)[..n] == a[..n];
      CorrelationDependsOnPrefix(a + extra, b, a, b);
    }
  }

  /** Swapping the arguments keeps the co-deviation sum and swaps the two
      squared-deviation sums. */
  lemma CorrelationSwapped(a: seq<PricePoint>, b: seq<PricePoint>)
    ensures CorrelationOf(b, a) == match CorrelationOf(a, b)
      case Neutral => Neutral
      case Ratio(num, d1, d2) => Ratio(num, d2, d1)
  {
    var n := PairedLength(a, b);
    if n >= 2 {
      DotSymmetric(Spread(a, n), Spread(b, n));
    }
  }

  /** Both orders of the arguments stand for the same number. */
  lemma CorrelationSymmetric(a: seq<PricePoint>, b: seq<PricePoint>, r: real)
    ensures Denotes(CorrelationOf(a, b), r) <==> Denotes(CorrelationOf(b, a), r)
  {
    CorrelationSwapped(a, b);
    match CorrelationOf(a, b)
    case Neutral =>
    case Ratio(num, d1, d2) => DenotesSwap(num, d1, d2, r);
  }

  /** The two denominators play symmetric roles in Denotes. */
  lemma DenotesSwap(num: real, d1: real, d2: real, r: real)
    ensures Denotes(Ratio(num, d1, d2), r) <==> Denotes(Ratio(num, d2, d1), r)
  {
    assert d1 * d2 == d2 * d1;
  }

  /** Both directions of the zero-variance rule: with at least two pairs the
      result is Neutral exactly when one of the truncated series is
      constant. */
  lemma NeutralIffConstant(a: seq<PricePoint>, b: seq<PricePoint>)
    requires PairedLength(a, b) >= 2
    ensures CorrelationOf(a, b) == Neutral <==>
      Constant(Prices(a[..PairedLength(a, b)])) || Constant(Prices(b[..PairedLength(a, b)]))
  {
    var n := PairedLength(a, b);
    ZeroSpreadIffConstant(a, n);
    ZeroSpreadIffConstant(b, n);
  }

  /** The squared deviations of a prefix sum to zero exactly when that prefix
      is constant. */
  lemma ZeroSpreadIffConstant(a: seq<PricePoint>, n: nat)
    requires 0 < n <= |a|
    ensures Dot(Spread(a, n), Spread(a, n)) == 0.0 <==> Constant(Prices(a[..n]))
  {
    var p := Prices(a[..n]);
    var u := Spread(a, n);
    if Constant(p) {
      MeanOfConstant(p);
      DotZeroLeft(u, u);
    }
    if Dot(u, u) == 0.0 {
      DotSelfZero(u);
      assert forall i :: 0 <= i < n ==> p[i] == Mean(p);
    }
  }

  /** The deviations of an affine image are the scaled deviations. */
  lemma SpreadAffine(a: seq<PricePoint>, b: seq<PricePoint>, alpha: real, beta: real)
    requires 0 < |a| == |b|
    requires forall k :: 0 <= k < |a| ==> b[k].price == alpha + beta * a[k].price
    ensures forall k :: 0 <= k < |a| ==> Spread(b, |b|)[k] == beta * Spread(a, |a|)[k]
  {
    SpreadWhole(a);
    SpreadWhole(b);
    DeviationsAffine(Prices(a), Prices(b), alpha, beta);
  }

  /** The spread of a whole series. */
  lemma SpreadWhole(a: seq<PricePoint>)
    requires 0 < |a|
    ensures Spread(a, |a|) == Deviations(Prices(a), Mean(Prices(a)))
  {
    assert a[..|a|] == a;
  }

  lemma DeviationsAffine(p: seq<real>, q: seq<real>, alpha: real, beta: real)
    requires 0 < |p| == |q|
    requires forall k :: 0 <= k < |p| ==> q[k] == alpha + beta * p[k]
    ensures forall k :: 0 <= k < |p| ==> Deviations(q, Mean(q))[k] == beta * Deviations(p, Mean(p))[k]
  {
    MeanAffine(p, q, alpha, beta);
    forall k | 0 <= k < |p|
      ensures Deviations(q, Mean(q))[k] == beta * Deviations(p, Mean(p))[k]
    {
      AffineDifference(p[k], q[k], Mean(p), Mean(q), alpha, beta);
    }
  }

  /** Differences of two affine images are the scaled differences. */
  lemma AffineDifference(x: real, y: real, mx: real, my: real, alpha: real, beta: real)
    requires y == alpha + beta * x && my == alpha + beta * mx
    ensures y - my == beta * (x - mx)
  {
  }

  /** The coefficient of an exactly (anti)proportional pair denotes +1 or -1. */
  lemma DenotesUnit(num: real, d1: real, d2: real, beta: real)
    requires 0.0 < d1 && beta != 0.0
    requires num == beta * d1 && d2 == beta * beta * d1
    ensures d2 != 0.0
    ensures Denotes(Ratio(num, d1, d2), if beta > 0.0 then 1.0 else -1.0)
  {
    ScaledNonZero(beta, d1, d2);
    var r := if beta > 0.0 then 1.0 else -1.0;
    assert r * r == 1.0;
    assert d1 * d2 == num * num;
    if beta > 0.0 {
      PositiveProduct(beta, d1);
    } else {
      PositiveProduct(-beta, d1);
    }
  }

  /** The three sums for a pair whose deviations are proportional, v = beta*u. */
  lemma ProportionalDots(u: seq<real>, v: seq<real>, beta: real)
    requires |u| == |v|
    requires forall k :: 0 <= k < |u| ==> v[k] == beta * u[k]
    ensures Dot(u, v) == beta * Dot(u, u)
    ensures Dot(v, v) == beta * beta * Dot(u, u)
  {
    DotScaledRight(u, u, v, beta);
    DotScaledBoth(u, v, beta);
  }

  /** With at least two pairs and both squared-deviation sums nonzero the
      coefficient carries the three sums. */
  lemma CorrelationOfRatio(a: seq<PricePoint>, b: seq<PricePoint>)
    requires |a| == |b| >= 2
    requires Dot(Spread(a, |a|), Spread(a, |a|)) != 0.0
    requires Dot(Spread(b, |b|), Spread(b, |b|)) != 0.0
    ensures CorrelationOf(a, b) ==
      Ratio(Dot(Spread(a, |a|), Spread(b, |b|)), Dot(Spread(a, |a|), Spread(a, |a|)), Dot(Spread(b, |b|), Spread(b, |b|)))
  {
  }

  /** A series with two different prices has a positive squared-deviation sum. */
  lemma NonConstantSpreadPositive(a: seq<PricePoint>, i: nat, j: nat)
    requires i < |a| && j < |a| && a[i].price != a[j].price
    ensures 0.0 < Dot(Spread(a, |a|), Spread(a, |a|))
  {
    var n := |a|;
    DotSelfNonNegative(Spread(a, n));
    ZeroSpreadIffConstant(a, n);
    assert a[..n] == a;
    assert Prices(a)[i] != Prices(a)[j];
  }

  /** The deviations of a series and of its affine image (scaled by
      beta != 0), the first not all zero, give a coefficient with both
      denominators nonzero that denotes +1 or -1. */
  lemma AffineUnit(a: seq<PricePoint>, b: seq<PricePoint>, alpha: real, beta: real)
    requires 0 < |a| == |b| && beta != 0.0
    requires forall k :: 0 <= k < |a| ==> b[k].price == alpha + beta * a[k].price
    requires 0.0 < Dot(Spread(a, |a|), Spread(a, |a|))
    ensures Dot(Spread(b, |b|), Spread(b, |b|)) != 0.0
    ensures Denotes(Ratio(Dot(Spread(a, |a|), Spread(b, |b|)), Dot(Spread(a, |a|), Spread(a, |a|)),
      Dot(Spread(b, |b|), Spread(b, |b|))), if beta > 0.0 then 1.0 else -1.0)
  {
    var u, v := Spread(a, |a|), Spread(b, |b|);
    SpreadAffine(a, b, alpha, beta);
    ProportionalDots(u, v, beta);
    DenotesUnit(Dot(u, v), Dot(u, u), Dot(v, v), beta);
  }

  /** A series against an affine image of itself (b_i = alpha + beta*a_i,
      beta != 0) that is not constant correlates perfectly: +1 for
      beta > 0 (identical series), -1 for beta < 0 (the negated series). */
  lemma AffineCorrelation(a: seq<PricePoint>, b: seq<PricePoint>, alpha: real, beta: real, i: nat, j: nat)
    requires |a| == |b|
    requires forall k :: 0 <= k < |a| ==> b[k].price == alpha + beta * a[k].price
    requires beta != 0.0
    requires i < |a| && j < |a| && a[i].price != a[j].price
    ensures Denotes(CorrelationOf(a, b), if beta > 0.0 then 1.0 else -1.0)
  {
    NonConstantSpreadPositive(a, i, j);
    AffineUnit(a, b, alpha, beta);
    CorrelationOfRatio(a, b);
  }
}

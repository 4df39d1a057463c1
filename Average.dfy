/** The average price of a (filtered) series: `computeAveragePrice`. */
module Average {
  import opened Wrappers
  import opened Series

  /** 0 for an empty series, otherwise the sum of the prices over the count. */
  function AveragePrice(data: seq<PricePoint>): (avg: real)
    ensures |data| == 0 ==> avg == 0.0
    ensures |data| > 0 ==> avg * (|data| as real) == Sum(Prices(data))
  {
    if |data| == 0 then 0.0 else Sum(Prices(data)) / (|data| as real)
  }

  /** A non-empty series averages to a value between its cheapest and its
      dearest price. */
  lemma AverageWithinRange(data: seq<PricePoint>)
    requires |data| > 0
    ensures MinOf(Prices(data)) <= AveragePrice(data) <= MaxOf(Prices(data))
  {
    var p := Prices(data);
    MeanBounds(p, MinOf(p), MaxOf(p));
  }

  /** Scaling every price by beta and shifting it by alpha does the same to
      the average; in particular the average of a constant series is that
      constant. */
  lemma AverageAffine(data: seq<PricePoint>, moved: seq<PricePoint>, alpha: real, beta: real)
    requires |data| == |moved| > 0
    requires forall i :: 0 <= i < |data| ==> moved[i].price == alpha + beta * data[i].price
    ensures AveragePrice(moved) == alpha + beta * AveragePrice(data)
  {
    MeanAffine(Prices(data), Prices(moved), alpha, beta);
  }

  /** The worked examples: [] gives 0, [10] gives 10, [10, 20] gives 15. */
  lemma AverageExamples(t: Option<int>)
    ensures AveragePrice([]) == 0.0
    ensures AveragePrice([PricePoint(10.0, t)]) == 10.0
    ensures AveragePrice([PricePoint(10.0, t), PricePoint(20.0, t)]) == 15.0
  {
    var one := [PricePoint(10.0, t)];
    var two := [PricePoint(10.0, t), PricePoint(20.0, t)];
    assert Prices(one) == [10.0];
    assert Prices(two) == [10.0, 20.0];
    assert Prices(two)[..1] == [10.0];
    assert [10.0][..0] == [];
  }
}

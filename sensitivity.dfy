/**
 * components/SensitivityChart.tsx: the implied growth rate re-evaluated at 21
 * evenly spaced prices spanning plus and minus 50% of the current price, with
 * the cost of equity and the cash flow held fixed.
 */
module SensitivityChart {
  import opened Wrappers
  import opened Types
  import opened Valuation

  const Range: real := 0.5   // +/- 50%
  const Steps: nat := 20

  /**
   * One chart point. The growth is in percent; None where the sample price is 0,
   * at which the source divides by zero (NaN or an infinity).
   */
  datatype ChartPoint = ChartPoint(price: real, growth: Option<real>)

  /** `startPrice + i * stepSize`: it is the price scaled by (10 + i) / 20. */
  function SamplePrice(currentPrice: real, i: nat): (p: real)
    ensures p == currentPrice * ((10 + i) as real) / 20.0
  {
    var stepSize := (currentPrice * Range * 2.0) / (Steps as real);
    var startPrice := currentPrice * (1.0 - Range);
    startPrice + (i as real) * stepSize
  }

  /** The i-th point: the growth `costOfEquity - fcfPerShare / p`, times 100. */
  function PointAt(data: StockData, results: CalculationResult, i: nat): ChartPoint {
    var p := SamplePrice(data.price, i);
    ChartPoint(p, if p == 0.0 then None else Some((results.costOfEquity - data.fcfPerShare / p) * 100.0))
  }

  /** The `chartData` loop: i runs from 0 to `steps` inclusive, pushing one point each time. */
  method ChartData(data: StockData, results: CalculationResult) returns (points: seq<ChartPoint>)
    ensures |points| == Steps + 1
    ensures forall i :: 0 <= i < |points| ==> points[i] == PointAt(data, results, i)
  {
    var currentPrice := data.price;
    var stepSize := (currentPrice * Range * 2.0) / (Steps as real);
    var startPrice := currentPrice * (1.0 - Range);
    points := [];
    for i := 0 to Steps + 1
      invariant |points| == i
      invariant forall k :: 0 <= k < i ==> points[k] == PointAt(data, results, k)
    {
      var p := startPrice + (i as real) * stepSize;
      var impliedG := if p == 0.0 then None else Some((results.costOfEquity - data.fcfPerShare / p) * 100.0);
      points := points + [ChartPoint(p, impliedG)];
    }
  }

  /** The sweep runs from half the price to one and a half times it, through the price itself. */
  lemma SweepEnds(currentPrice: real)
    ensures SamplePrice(currentPrice, 0) == 0.5 * currentPrice
    ensures SamplePrice(currentPrice, Steps) == 1.5 * currentPrice
    ensures SamplePrice(currentPrice, 10) == currentPrice
  {
  }

  /** Consecutive samples are one twentieth of the price apart. */
  lemma EvenSpacing(currentPrice: real, i: nat)
    ensures SamplePrice(currentPrice, i + 1) - SamplePrice(currentPrice, i) == currentPrice / 20.0
  {
  }

  /** For a positive price the samples strictly increase. */
  lemma {:induction false} SamplesIncrease(currentPrice: real, i: nat, j: nat)
    requires currentPrice > 0.0 && i < j
    ensures SamplePrice(currentPrice, i) < SamplePrice(currentPrice, j)
    decreases j - i
  {
    EvenSpacing(currentPrice, i);
    if i + 1 < j {
      SamplesIncrease(currentPrice, i + 1, j);
    }
  }

  /** For a non-zero price no sample is 0, so every point has a finite growth. */
  lemma NoZeroSample(data: StockData, results: CalculationResult, i: nat)
    requires data.price != 0.0
    ensures SamplePrice(data.price, i) != 0.0
    ensures PointAt(data, results, i).growth.Some?
  {
    var f := ((10 + i) as real) / 20.0;
    assert f > 0.0;
    assert SamplePrice(data.price, i) == data.price * f;
  }

  /**
   * With the results of the valuation engine, the middle point is the current
   * price and its growth is the engine's implied growth, in percent.
   */
  lemma MiddlePointMatchesValuation(data: StockData)
    requires data.price != 0.0
    ensures PointAt(data, CalculateResults(data), 10)
         == ChartPoint(data.price, Some(CalculateResults(data).implicitGrowth * 100.0))
  {
    SweepEnds(data.price);
    var r := CalculateResults(data);
    assert r.fcfYield == data.fcfPerShare / data.price by {
      assert r.fcfYield * data.price == data.fcfPerShare;
    }
  }
}

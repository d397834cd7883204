/**
 * The valuation engine of App.tsx: the Capital Asset Pricing Model gives the cost
 * of equity, and the reverse discounted-cash-flow (Gordon growth) relation
 * P = FCF / (Ke - g) is solved for the growth rate g the price implies.
 */
module Valuation {
  import opened Types

  /** The record the calculator starts with and returns to on reset. */
  const DefaultData: StockData := StockData(
    ticker := "EXAMPLE",
    price := 150.00,
    fcfPerShare := 7.50,
    beta := 1.10,
    riskFreeRate := 0.042,
    marketRiskPremium := 0.055,
    currency := "USD")

  /**
   * calculateResults: Ke = Rf + beta * MRP; the yield is FCF / P, or 0 when the
   * price is 0; the implied growth is what is left of Ke after the yield.
   */
  function CalculateResults(d: StockData): (r: CalculationResult)
    ensures r.costOfEquity == d.riskFreeRate + d.beta * d.marketRiskPremium
    ensures d.price == 0.0 ==> r.fcfYield == 0.0
    ensures d.price != 0.0 ==> r.fcfYield * d.price == d.fcfPerShare
    ensures r.implicitGrowth + r.fcfYield == r.costOfEquity
  {
    var costOfEquity := d.riskFreeRate + (d.beta * d.marketRiskPremium);
    var fcfYield := if d.price != 0.0 then d.fcfPerShare / d.price else 0.0;
    var implicitGrowth := costOfEquity - fcfYield;
    CalculationResult(costOfEquity, implicitGrowth, fcfYield)
  }

  /** The default record: Ke = 0.042 + 1.10 * 0.055 = 0.1025, yield = 7.50 / 150 = 0.05, g = 0.0525. */
  lemma DefaultResults()
    ensures CalculateResults(DefaultData) == CalculationResult(0.1025, 0.0525, 0.05)
  {
    var r := CalculateResults(DefaultData);
    assert r.costOfEquity == 0.1025;
    assert r.fcfYield * 150.0 == 7.5;
    assert r.fcfYield == 0.05;
  }

  /**
   * The result solves the Gordon growth model: with a non-zero price and cash flow,
   * discounting the cash flow at Ke - g gives back the price.
   */
  lemma {:induction false} GordonRoundTrip(d: StockData)
    requires d.price != 0.0 && d.fcfPerShare != 0.0
    ensures CalculateResults(d).costOfEquity != CalculateResults(d).implicitGrowth
    ensures d.price == d.fcfPerShare / (CalculateResults(d).costOfEquity - CalculateResults(d).implicitGrowth)
  {
    var r := CalculateResults(d);
    assert r.costOfEquity - r.implicitGrowth == r.fcfYield;
    assert r.fcfYield != 0.0;
    assert d.fcfPerShare / r.fcfYield == d.price by {
      assert r.fcfYield * d.price == d.fcfPerShare;
    }
  }

  /**
   * With a positive cash flow a higher price implies a higher growth rate, the
   * shape the sensitivity chart draws.
   */
  lemma {:induction false} GrowthIncreasesWithPrice(d: StockData, higher: real)
    requires d.fcfPerShare > 0.0 && 0.0 < d.price < higher
    ensures CalculateResults(d).implicitGrowth < CalculateResults(d.(price := higher)).implicitGrowth
  {
    var y1 := d.fcfPerShare / d.price;
    var y2 := d.fcfPerShare / higher;
    assert y1 * d.price == d.fcfPerShare;
    assert y2 * higher == d.fcfPerShare;
    assert y2 > 0.0;
    assert y2 * d.price < y2 * higher;
    assert y2 < y1;
  }
}

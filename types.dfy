/** The record shapes of types.ts. Numbers are mathematical reals (no IEEE-754). */
module Types {
  import opened Wrappers

  /** The five financial inputs, the ticker and the currency code. */
  datatype StockData = StockData(
    ticker: string,
    price: real,
    fcfPerShare: real,
    beta: real,
    riskFreeRate: real,        // a decimal fraction, 0.045 for 4.5%
    marketRiskPremium: real,   // a decimal fraction
    currency: string)

  /** One citation of the search that produced the data. */
  datatype GroundingSource = GroundingSource(title: string, uri: string)

  /** The derived valuation, recomputed from a StockData on every read. */
  datatype CalculationResult = CalculationResult(
    costOfEquity: real,
    implicitGrowth: real,
    fcfYield: real)

  /** What a fetch returns: the data (null when none was usable), the citations and the raw text. */
  datatype SearchResult = SearchResult(
    data: Option<StockData>,
    sources: seq<GroundingSource>,
    rawText: Option<string>)
}

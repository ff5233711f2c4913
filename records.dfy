/** Record shapes the pages receive from the server (src/types/stock.ts),
    with amounts as exact reals and timestamps already split into
    calendar fields. */
module Records {

  /** A value that may not have arrived yet (a query still loading) or a
      field that may be missing. */
  datatype Option<+T> = None | Some(value: T)

  /** The currency a page renders amounts in: won, or dollars as stored. */
  datatype Currency = Krw | Usd

  /** A timestamp as the pages read it: getFullYear(), getMonth() + 1
      (so 1-based) and getDate(). */
  datatype Date = Date(year: int, month: int, day: int)

  /** IStock: one row of the watch list. */
  datatype Stock = Stock(
    id: int, ticker: string, name: string,
    price: real, per: real, pbr: real,
    lowPriceYear: real, highPriceYear: real)

  /** IPortfolio: one holding, with its average purchase price and share
      count next to the current price. */
  datatype Position = Position(
    ticker: string, name: string,
    avgPrice: real, shares: real, price: real,
    pbr: real, per: real)

  /** IPick: a bookmarked ticker with the price at bookmark time. */
  datatype Pick = Pick(ticker: string, pickPrice: real, price: real, pbr: real, created: Date)

  /** IRealizedProfit: one realized profit or loss, in won. */
  datatype ProfitEntry = ProfitEntry(id: int, ticker: string, sellPrice: real, created: Date)

  /** IMonthTargetPrice: the current monthly profit goal, in won. */
  datatype MonthTarget = MonthTarget(id: int, targetPrice: real)

  /** `x || 0` on a number that may be missing. */
  function OrZero(x: Option<real>): real
  {
    match x
    case Some(v) => v
    case None => 0.0
  }
}

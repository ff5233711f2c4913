/** The Portfolio page: aggregate totals in won or dollars, the figures of
    each holding, and the average-down calculator. */
module Portfolio {
  import opened Records
  import opened Valuation

  /** The four figures the page shows for the whole portfolio or for one
      holding; the return rate is missing where the source divides by a
      zero investment. */
  datatype Totals = Totals(investment: real, marketValue: real, profit: real, returnRate: Option<real>)

  /** What the aggregate block computes from the holdings, the selected
      currency and the exchange rate (0 while it is missing): profit is
      market value minus investment exactly, and the return rate exists
      exactly when the investment is not zero, as profit * 100 / investment. */
  function TotalsOf(ps: seq<Position>, currency: Currency, rate: Option<real>): (t: Totals)
    ensures t.profit == t.marketValue - t.investment
    ensures t.returnRate.Some? <==> t.investment != 0.0
    ensures t.returnRate.Some? ==> t.returnRate.value * t.investment == t.profit * 100.0
  {
    var f := Factor(currency, rate);
    var investment := Investment(ps, f);
    var marketValue := MarketValue(ps, f);
    Totals(investment, marketValue, marketValue - investment, Percent(marketValue - investment, investment))
  }

  /** The aggregate block: nothing until the holdings arrive, then the loop
      over them and the derived profit and return rate. */
  method PortfolioTotals(data: Option<seq<Position>>, currency: Currency, rate: Option<real>)
    returns (t: Option<Totals>)
    ensures data.None? ==> t.None?
    ensures data.Some? ==> t == Some(TotalsOf(data.value, currency, rate))
  {
    if data.None? {
      return None;
    }
    var investment, marketValue := Accumulate(data.value, Factor(currency, rate));
    var profit := marketValue - investment;
    t := Some(Totals(investment, marketValue, profit, Percent(profit, investment)));
  }

  /** An empty portfolio has zero totals and no return rate. */
  lemma EmptyTotals(currency: Currency, rate: Option<real>)
    ensures TotalsOf([], currency, rate) == Totals(0.0, 0.0, 0.0, None)
  {
  }

  /** The won totals are the dollar totals times the exchange rate (0 when
      the rate is missing), and the return rate does not depend on the
      currency as long as the rate is not zero. */
  lemma WonTotalsAreDollarTotalsTimesRate(ps: seq<Position>, rate: Option<real>)
    ensures var won := TotalsOf(ps, Krw, rate);
      var usd := TotalsOf(ps, Usd, rate);
      && won.investment == usd.investment * OrZero(rate)
      && won.marketValue == usd.marketValue * OrZero(rate)
      && won.profit == usd.profit * OrZero(rate)
      && (OrZero(rate) != 0.0 ==> won.returnRate == usd.returnRate)
  {
    var r := OrZero(rate);
    InvestmentScales(ps, r);
    MarketValueScales(ps, r);
    var won := TotalsOf(ps, Krw, rate);
    var usd := TotalsOf(ps, Usd, rate);
    if r != 0.0 && usd.investment != 0.0 {
      assert won.investment == usd.investment * r;
      assert won.profit == usd.profit * r;
      calc {
        won.returnRate.value;
        (usd.profit * r) / (usd.investment * r) * 100.0;
        { assert (usd.profit * r) / (usd.investment * r) == usd.profit / usd.investment; }
        usd.returnRate.value;
      }
    }
  }

  /** The figures of one holding (PortfolioStock): the page hands it the
      rate already defaulted to 0. */
  function PositionFigures(stock: Position, currency: Currency, exchangeRate: real): (t: Totals)
    ensures t.profit == t.marketValue - t.investment
    ensures t.returnRate.Some? <==> t.investment != 0.0
    ensures t.returnRate.Some? ==> t.returnRate.value * t.investment == t.profit * 100.0
  {
    var f := if currency == Krw then exchangeRate else 1.0;
    var marketValue := stock.price * stock.shares * f;
    var investment := stock.avgPrice * stock.shares * f;
    Totals(investment, marketValue, marketValue - investment, Percent(marketValue - investment, investment))
  }

  /** One holding's figures are the aggregate figures of a one-holding
      portfolio. */
  lemma PositionIsSingletonPortfolio(stock: Position, currency: Currency, rate: Option<real>)
    ensures PositionFigures(stock, currency, OrZero(rate)) == TotalsOf([stock], currency, rate)
  {
    var f := Factor(currency, rate);
    assert [stock][..0] == [];
    assert Investment([stock], f) == stock.avgPrice * stock.shares * f;
    assert MarketValue([stock], f) == stock.price * stock.shares * f;
  }

  /** The list of holdings, one PortfolioStock per holding, in order. */
  function PositionList(ps: seq<Position>, currency: Currency, exchangeRate: real): (rows: seq<Totals>)
    ensures |rows| == |ps|
    ensures forall i :: 0 <= i < |ps| ==> rows[i] == PositionFigures(ps[i], currency, exchangeRate)
    decreases |ps|
  {
    if ps == [] then []
    else PositionList(ps[..|ps| - 1], currency, exchangeRate) + [PositionFigures(ps[|ps| - 1], currency, exchangeRate)]
  }

  /** Sum of the investment column of a list of figures. */
  function SumInvestment(rows: seq<Totals>): real
    decreases |rows|
  {
    if rows == [] then 0.0 else SumInvestment(rows[..|rows| - 1]) + rows[|rows| - 1].investment
  }

  /** Sum of the market-value column of a list of figures. */
  function SumMarketValue(rows: seq<Totals>): real
    decreases |rows|
  {
    if rows == [] then 0.0 else SumMarketValue(rows[..|rows| - 1]) + rows[|rows| - 1].marketValue
  }

  /** Adding up the per-holding investment and market value gives back the
      aggregate totals in the same currency. */
  lemma {:induction false} PositionsAddUpToTotals(ps: seq<Position>, currency: Currency, rate: Option<real>)
    ensures var rows := PositionList(ps, currency, OrZero(rate));
      && SumInvestment(rows) == TotalsOf(ps, currency, rate).investment
      && SumMarketValue(rows) == TotalsOf(ps, currency, rate).marketValue
    decreases |ps|
  {
    var rows := PositionList(ps, currency, OrZero(rate));
    if ps != [] {
      var init := ps[..|ps| - 1];
      PositionsAddUpToTotals(init, currency, rate);
      assert rows[..|rows| - 1] == PositionList(init, currency, OrZero(rate));
    }
  }

  /** The average-down projection: the money converted to dollars, the
      whole shares it buys and the resulting average price. */
  datatype Projection = Projection(addMoney: real, canBuy: int, newAvgPrice: real)

  /** Whole shares at any non-zero price: floor(money / price) is at most
      the quotient and more than the quotient minus one. At a positive price
      those shares cost at most the money and one more would cost more; at a
      negative price the inequalities turn round. */
  lemma FloorShares(money: real, price: real)
    requires price != 0.0
    ensures (money / price).Floor as real <= money / price < (money / price).Floor as real + 1.0
    ensures price > 0.0 ==> (money / price).Floor as real * price <= money
    ensures price > 0.0 ==> money < ((money / price).Floor + 1) as real * price
    ensures price < 0.0 ==> money <= (money / price).Floor as real * price
    ensures price < 0.0 ==> ((money / price).Floor + 1) as real * price < money
  {
    var q := money / price;
    var k := q.Floor as real;
    var k1 := (q.Floor + 1) as real;
    assert k <= q < k1;
    assert q * price == money;
    assert k1 == ((money / price).Floor + 1) as real;
    if price > 0.0 {
      assert k * price <= money;
      assert money < k1 * price;
    } else {
      assert (q - k) * price <= 0.0;
      assert money <= k * price;
      assert (k1 - q) * price < 0.0;
      assert k1 * price < money;
    }
  }

  /** The calculator as written: it divides the converted money by the
      holding's current price, not by the price the user typed in. A zero
      rate or zero resulting shares, where the source divides by zero, and
      a zero price have no value here. */
  function AverageDown(stock: Position, addMoney: real, exchangeRate: real): (r: Option<Projection>)
    ensures r.Some? ==> exchangeRate != 0.0 && stock.price != 0.0
    ensures r.Some? ==> stock.shares + r.value.canBuy as real != 0.0
    ensures (exchangeRate != 0.0 && stock.price != 0.0
             && stock.shares + (addMoney / exchangeRate / stock.price).Floor as real != 0.0) ==> r.Some?
    ensures r.Some? ==> r.value.addMoney * exchangeRate == addMoney
    ensures r.Some? ==>
      r.value.canBuy as real <= r.value.addMoney / stock.price < r.value.canBuy as real + 1.0
    ensures r.Some? && stock.price > 0.0 ==>
      r.value.canBuy as real * stock.price <= r.value.addMoney < (r.value.canBuy + 1) as real * stock.price
    ensures r.Some? && stock.price < 0.0 ==>
      (r.value.canBuy + 1) as real * stock.price < r.value.addMoney <= r.value.canBuy as real * stock.price
    ensures r.Some? ==> r.value.newAvgPrice * (stock.shares + r.value.canBuy as real)
                        == stock.avgPrice * stock.shares + r.value.addMoney
  {
    if exchangeRate == 0.0 || stock.price == 0.0 then None
    else
      var money := addMoney / exchangeRate;
      var canBuy := (money / stock.price).Floor;
      FloorShares(money, stock.price);
      if stock.shares + canBuy as real == 0.0 then None
      else Some(Projection(money, canBuy, (stock.avgPrice * stock.shares + money) / (stock.shares + canBuy as real)))
  }

  /** The calculator with the divisor its input field evidently meant: the
      purchase price the user entered. A purchase price that is not
      positive buys nothing, so it gives no projection. */
  function AverageDownAt(stock: Position, addTargetPrice: real, addMoney: real, exchangeRate: real): (r: Option<Projection>)
    ensures r.Some? ==> exchangeRate != 0.0 && addTargetPrice > 0.0
    ensures r.Some? ==> stock.shares + r.value.canBuy as real != 0.0
    ensures (exchangeRate != 0.0 && addTargetPrice > 0.0
             && stock.shares + (addMoney / exchangeRate / addTargetPrice).Floor as real != 0.0) ==> r.Some?
    ensures r.Some? ==> r.value.addMoney * exchangeRate == addMoney
    ensures r.Some? ==>
      r.value.canBuy as real <= r.value.addMoney / addTargetPrice < r.value.canBuy as real + 1.0
    ensures r.Some? ==>
      r.value.canBuy as real * addTargetPrice <= r.value.addMoney < (r.value.canBuy + 1) as real * addTargetPrice
    ensures r.Some? ==> r.value.newAvgPrice * (stock.shares + r.value.canBuy as real)
                        == stock.avgPrice * stock.shares + r.value.addMoney
  {
    if exchangeRate == 0.0 || addTargetPrice <= 0.0 then None
    else
      var money := addMoney / exchangeRate;
      var canBuy := (money / addTargetPrice).Floor;
      FloorShares(money, addTargetPrice);
      if stock.shares + canBuy as real == 0.0 then None
      else Some(Projection(money, canBuy, (stock.avgPrice * stock.shares + money) / (stock.shares + canBuy as real)))
  }

  /** The two agree while the purchase-price field still holds its initial
      value, the current price, as long as that price is positive. */
  lemma AverageDownAtCurrentPrice(stock: Position, addMoney: real, exchangeRate: real)
    ensures stock.price > 0.0 ==>
      AverageDown(stock, addMoney, exchangeRate) == AverageDownAt(stock, stock.price, addMoney, exchangeRate)
  {
  }

  /** Once the user types a different purchase price the as-written
      calculator ignores it: average price 10 on 100 shares, current price
      10, purchase price 8, 8000 won at 1000 won per dollar buys one share
      at 8 dollars, yet the projection counts none. */
  lemma AverageDownIgnoresTargetPrice()
    ensures var stock := Position("T", "T", 10.0, 100.0, 10.0, 0.0, 0.0);
      && AverageDown(stock, 8000.0, 1000.0) == Some(Projection(8.0, 0, 10.08))
      && AverageDownAt(stock, 8.0, 8000.0, 1000.0) == Some(Projection(8.0, 1, 1008.0 / 101.0))
  {
    var stock := Position("T", "T", 10.0, 100.0, 10.0, 0.0, 0.0);
    assert 8000.0 / 1000.0 == 8.0;
    assert (8.0 / 10.0).Floor == 0;
    assert (8.0 / 8.0).Floor == 1;
    assert (10.0 * 100.0 + 8.0) / (100.0 + 0.0) == 10.08;
    assert (10.0 * 100.0 + 8.0) / (100.0 + 1.0) == 1008.0 / 101.0;
    assert AverageDown(stock, 8000.0, 1000.0).Some?;
    assert AverageDown(stock, 8000.0, 1000.0).value.canBuy == 0;
    assert AverageDown(stock, 8000.0, 1000.0).value.addMoney == 8.0;
    assert AverageDown(stock, 8000.0, 1000.0).value.newAvgPrice == 10.08;
    assert AverageDownAt(stock, 8.0, 8000.0, 1000.0).value.canBuy == 1;
    assert AverageDownAt(stock, 8.0, 8000.0, 1000.0).value.newAvgPrice == 1008.0 / 101.0;
  }

  /** Adding no money leaves the average price where it was. */
  lemma AverageDownWithNoMoney(stock: Position, exchangeRate: real)
    requires stock.shares > 0.0 && stock.price != 0.0 && exchangeRate != 0.0
    ensures AverageDown(stock, 0.0, exchangeRate) == Some(Projection(0.0, 0, stock.avgPrice))
  {
    assert 0.0 / exchangeRate == 0.0;
    assert 0.0 / stock.price == 0.0;
    assert (0.0 / stock.price).Floor == 0;
    var r := AverageDown(stock, 0.0, exchangeRate);
    assert r.Some? && r.value.addMoney == 0.0 && r.value.canBuy == 0;
    assert r.value.newAvgPrice * stock.shares == stock.avgPrice * stock.shares;
  }

  /** With a positive price and rate and non-negative money, a projection
      never buys a negative number of shares, and what it buys costs at most
      the converted money. */
  lemma AverageDownBuysWholeShares(stock: Position, addMoney: real, exchangeRate: real)
    requires stock.price > 0.0 && exchangeRate > 0.0 && addMoney >= 0.0
    ensures var r := AverageDown(stock, addMoney, exchangeRate);
      r.Some? ==> 0 <= r.value.canBuy && r.value.canBuy as real * stock.price <= addMoney / exchangeRate
  {
    var money := addMoney / exchangeRate;
    assert money >= 0.0;
    assert money / stock.price >= 0.0;
  }

  /** A holding with shares always gets a projection when the price and
      the rate are positive and the money is not negative. */
  lemma AverageDownExistsForHeldShares(stock: Position, addMoney: real, exchangeRate: real)
    requires stock.price > 0.0 && exchangeRate > 0.0 && addMoney >= 0.0 && stock.shares > 0.0
    ensures AverageDown(stock, addMoney, exchangeRate).Some?
  {
    var money := addMoney / exchangeRate;
    assert money >= 0.0;
    assert money / stock.price >= 0.0;
    assert (money / stock.price).Floor >= 0;
  }
}

/** The arithmetic the Portfolio page, the Header badge and the
    realized-profit target line share: the sums of cost basis and market
    value over a list of holdings, the currency factor, and the percentage
    that the source leaves as NaN or Infinity when its divisor is zero. */
module Valuation {
  import opened Records

  /** The multiplier applied to every dollar amount: the exchange rate (0
      when it has not arrived) for won, 1 for dollars. */
  function Factor(currency: Currency, rate: Option<real>): (r: real)
    ensures currency == Usd ==> r == 1.0
    ensures currency == Krw && rate.Some? ==> r == rate.value
    ensures currency == Krw && rate.None? ==> r == 0.0
  {
    if currency == Krw then OrZero(rate) else 1.0
  }

  /** Sum of avg_price * shares * f over the holdings, accumulated front to
      back as the source's loops do. */
  function Investment(ps: seq<Position>, f: real): real
    decreases |ps|
  {
    if ps == [] then 0.0
    else
      var last := ps[|ps| - 1];
      Investment(ps[..|ps| - 1], f) + last.avgPrice * last.shares * f
  }

  /** Sum of price * shares * f over the holdings. */
  function MarketValue(ps: seq<Position>, f: real): real
    decreases |ps|
  {
    if ps == [] then 0.0
    else
      var last := ps[|ps| - 1];
      MarketValue(ps[..|ps| - 1], f) + last.price * last.shares * f
  }

  /** `part / whole * 100`, which is NaN or +-Infinity in the source when
      whole is 0; here that case has no value. */
  function Percent(part: real, whole: real): (r: Option<real>)
    ensures r.Some? <==> whole != 0.0
    ensures r.Some? ==> r.value * whole == part * 100.0
  {
    if whole == 0.0 then None else Some(part / whole * 100.0)
  }

  /** The accumulator loop: totalInvestment and totalMarketValue start at
      0 and each holding adds its share, scaled by f. */
  method Accumulate(ps: seq<Position>, f: real) returns (investment: real, marketValue: real)
    ensures investment == Investment(ps, f)
    ensures marketValue == MarketValue(ps, f)
  {
    investment, marketValue := 0.0, 0.0;
    var i := 0;
    while i < |ps|
      invariant 0 <= i <= |ps|
      invariant investment == Investment(ps[..i], f)
      invariant marketValue == MarketValue(ps[..i], f)
    {
      var stock := ps[i];
      assert ps[..i + 1][..i] == ps[..i];
      investment := investment + stock.avgPrice * stock.shares * f;
      marketValue := marketValue + stock.price * stock.shares * f;
      i := i + 1;
    }
    assert ps[..i] == ps;
  }

  /** Scaling every term by f scales the whole cost-basis sum by f: the won
      totals are the dollar totals times the rate. */
  lemma {:induction false} InvestmentScales(ps: seq<Position>, f: real)
    ensures Investment(ps, f) == Investment(ps, 1.0) * f
    decreases |ps|
  {
    if ps != [] {
      var last := ps[|ps| - 1];
      InvestmentScales(ps[..|ps| - 1], f);
      calc {
        Investment(ps, f);
        Investment(ps[..|ps| - 1], 1.0) * f + last.avgPrice * last.shares * f;
        (Investment(ps[..|ps| - 1], 1.0) + last.avgPrice * last.shares * 1.0) * f;
      }
    }
  }

  /** The same for the market-value sum. */
  lemma {:induction false} MarketValueScales(ps: seq<Position>, f: real)
    ensures MarketValue(ps, f) == MarketValue(ps, 1.0) * f
    decreases |ps|
  {
    if ps != [] {
      var last := ps[|ps| - 1];
      MarketValueScales(ps[..|ps| - 1], f);
      calc {
        MarketValue(ps, f);
        MarketValue(ps[..|ps| - 1], 1.0) * f + last.price * last.shares * f;
        (MarketValue(ps[..|ps| - 1], 1.0) + last.price * last.shares * 1.0) * f;
      }
    }
  }

  /** Profit, market value minus cost basis, also scales by f. */
  lemma ProfitScales(ps: seq<Position>, f: real)
    ensures MarketValue(ps, f) - Investment(ps, f)
         == (MarketValue(ps, 1.0) - Investment(ps, 1.0)) * f
  {
    InvestmentScales(ps, f);
    MarketValueScales(ps, f);
  }
}

/** The header badge: the unrealized profit of the whole portfolio,
    computed in dollars and shown in won with a '+' for a gain. */
module Header {
  import opened Records
  import opened Valuation
  import Portfolio

  /** What the badge shows: whether the '+' sign is printed, and the amount
      in won (before display rounding). */
  datatype Badge = Badge(plus: bool, amount: real)

  /** The sign is decided on the dollar profit, before the conversion: with
      a positive rate the '+' appears exactly when the won amount is not
      negative; while the rate is missing the amount is 0 whatever the sign,
      so a loss shows as an unsigned 0. */
  function BadgeOf(ps: seq<Position>, rate: Option<real>): (b: Badge)
    ensures OrZero(rate) > 0.0 ==> (b.plus <==> b.amount >= 0.0)
    ensures rate.None? ==> b.amount == 0.0
  {
    var profit := MarketValue(ps, 1.0) - Investment(ps, 1.0);
    SignOfProduct(profit, OrZero(rate));
    Badge(profit >= 0.0, profit * OrZero(rate))
  }

  /** A positive factor keeps the sign of a number. */
  lemma SignOfProduct(x: real, r: real)
    ensures r > 0.0 ==> (x >= 0.0 <==> x * r >= 0.0)
  {
    if r > 0.0 {
      if x >= 0.0 {
        assert x * r >= 0.0;
      } else {
        assert x * r < 0.0;
      }
    }
  }

  /** The badge block: nothing until the holdings arrive, then the dollar
      totals loop and the conversion. */
  method HeaderBadge(data: Option<seq<Position>>, rate: Option<real>) returns (b: Option<Badge>)
    ensures b.Some? <==> data.Some?
    ensures data.Some? ==> b.value == BadgeOf(data.value, rate)
  {
    if data.None? {
      return None;
    }
    var investment, marketValue := Accumulate(data.value, 1.0);
    var profit := marketValue - investment;
    b := Some(Badge(profit >= 0.0, profit * OrZero(rate)));
  }

  /** The badge amount is the Portfolio page's won profit, and its sign is
      that of the Portfolio page's dollar profit. */
  lemma BadgeMatchesPortfolio(ps: seq<Position>, rate: Option<real>)
    ensures BadgeOf(ps, rate).amount == Portfolio.TotalsOf(ps, Krw, rate).profit
    ensures BadgeOf(ps, rate).plus <==> Portfolio.TotalsOf(ps, Usd, rate).profit >= 0.0
  {
    var f := OrZero(rate);
    assert Factor(Krw, rate) == f && Factor(Usd, rate) == 1.0;
    ProfitScales(ps, f);
    var won := Portfolio.TotalsOf(ps, Krw, rate);
    assert won.profit == MarketValue(ps, f) - Investment(ps, f);
  }

  /** An empty portfolio shows "+0". */
  lemma EmptyBadge(rate: Option<real>)
    ensures BadgeOf([], rate) == Badge(true, 0.0)
  {
  }
}

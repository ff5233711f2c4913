/** The Pick page: one row per bookmarked ticker with its change since it
    was bookmarked. */
module PickPage {
  import opened Records
  import opened Valuation

  /** The change in percent from the bookmark price to the current price;
      the source prints NaN or Infinity for a zero bookmark price, which
      has no value here. */
  function ChangeRate(p: Pick): (r: Option<real>)
    ensures r.Some? <==> p.pickPrice != 0.0
  {
    Percent(p.price - p.pickPrice, p.pickPrice)
  }

  /** The rate is 0 exactly when the price has not moved. */
  lemma ChangeRateZero(p: Pick)
    requires p.pickPrice != 0.0
    ensures ChangeRate(p).value == 0.0 <==> p.price == p.pickPrice
  {
    var r := ChangeRate(p).value;
    assert r * p.pickPrice == (p.price - p.pickPrice) * 100.0;
  }

  /** For a positive bookmark price the rate has the sign of the move. */
  lemma ChangeRateSign(p: Pick)
    requires p.pickPrice > 0.0
    ensures ChangeRate(p).value > 0.0 <==> p.price > p.pickPrice
    ensures ChangeRate(p).value < 0.0 <==> p.price < p.pickPrice
  {
    var r := ChangeRate(p).value;
    assert r == (p.price - p.pickPrice) / p.pickPrice * 100.0;
    if p.price > p.pickPrice {
      assert (p.price - p.pickPrice) / p.pickPrice > 0.0;
    } else if p.price < p.pickPrice {
      assert (p.price - p.pickPrice) / p.pickPrice < 0.0;
    } else {
      assert r == 0.0;
    }
  }

  /** Applying the rate to the bookmark price gives back the current price. */
  lemma ChangeRateRecoversPrice(p: Pick)
    requires p.pickPrice != 0.0
    ensures p.pickPrice * (1.0 + ChangeRate(p).value / 100.0) == p.price
  {
    var r := ChangeRate(p).value;
    assert r * p.pickPrice == (p.price - p.pickPrice) * 100.0;
    calc {
      p.pickPrice * (1.0 + r / 100.0);
      p.pickPrice + r * p.pickPrice / 100.0;
      p.pickPrice + (p.price - p.pickPrice);
    }
  }

  /** One table row: the columns the page prints. */
  datatype PickRow = PickRow(ticker: string, pickPrice: real, price: real, pbr: real, changeRate: Option<real>)

  /** The table body: `data?.map`, one row per pick in the order received. */
  function PickRows(picks: seq<Pick>): (rows: seq<PickRow>)
    ensures |rows| == |picks|
    ensures forall i :: 0 <= i < |picks| ==>
      rows[i] == PickRow(picks[i].ticker, picks[i].pickPrice, picks[i].price, picks[i].pbr, ChangeRate(picks[i]))
    decreases |picks|
  {
    if picks == [] then []
    else
      var p := picks[0];
      [PickRow(p.ticker, p.pickPrice, p.price, p.pbr, ChangeRate(p))] + PickRows(picks[1..])
  }
}

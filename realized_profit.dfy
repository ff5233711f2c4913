/** The realized-profit page: the month view's grouping of entries into
    month buckets, the running total of all entries, and the line that
    says how far this month stands from the monthly target. */
module RealizedProfit {
  import opened Records
  import opened Valuation
  import Header

  /** One row of the month view: a calendar month and the sum of the
      entries merged into it. */
  datatype MonthBucket = MonthBucket(year: int, month: int, price: real)

  /** The bucket is for the calendar month of the date. */
  predicate InMonth(b: MonthBucket, d: Date)
  {
    b.year == d.year && b.month == d.month
  }

  /** Strictly earlier calendar month. */
  predicate MonthBefore(y1: int, m1: int, y2: int, m2: int)
  {
    y1 < y2 || (y1 == y2 && m1 < m2)
  }

  /** Not-later date, comparing year, then month, then day. */
  predicate DateAtMost(a: Date, b: Date)
  {
    a.year < b.year
    || (a.year == b.year && a.month < b.month)
    || (a.year == b.year && a.month == b.month && a.day <= b.day)
  }

  /** Entries in ascending date order, as the server is expected to send
      them. */
  ghost predicate SortedByDate(entries: seq<ProfitEntry>)
  {
    forall i, j :: 0 <= i < j < |entries| ==> DateAtMost(entries[i].created, entries[j].created)
  }

  /** Each bucket's month is strictly earlier than the next ones'. */
  ghost predicate StrictlyAscending(buckets: seq<MonthBucket>)
  {
    forall i, j :: 0 <= i < j < |buckets| ==>
      MonthBefore(buckets[i].year, buckets[i].month, buckets[j].year, buckets[j].month)
  }

  /** No two neighbouring buckets are for the same month. */
  ghost predicate NoAdjacentRepeats(buckets: seq<MonthBucket>)
  {
    forall i :: 0 <= i < |buckets| - 1 ==>
      !(buckets[i].year == buckets[i + 1].year && buckets[i].month == buckets[i + 1].month)
  }

  /** One step of the forEach: add the entry to the last bucket when that
      bucket is for the entry's month, otherwise push a new bucket. Either
      way there is at most one bucket more and the last one is for the
      entry's month; a push keeps the old buckets and starts the new one at
      the entry's sell price. */
  function Absorb(buckets: seq<MonthBucket>, item: ProfitEntry): (r: seq<MonthBucket>)
    ensures |r| == |buckets| || |r| == |buckets| + 1
    ensures |r| > 0 && InMonth(r[|r| - 1], item.created)
    ensures |r| == |buckets| + 1 ==> r[|buckets|].price == item.sellPrice
    ensures |r| == |buckets| + 1 ==> r[..|buckets|] == buckets
  {
    if |buckets| > 0 && InMonth(buckets[|buckets| - 1], item.created) then
      var lastData := buckets[|buckets| - 1];
      buckets[|buckets| - 1 := lastData.(price := lastData.price + item.sellPrice)]
    else
      buckets + [MonthBucket(item.created.year, item.created.month, item.sellPrice)]
  }

  /** The month buckets of a list of entries, built front to back: no more
      buckets than entries, none for no entries, and the last bucket is for
      the last entry's month. */
  function MonthBuckets(entries: seq<ProfitEntry>): (r: seq<MonthBucket>)
    ensures |r| <= |entries|
    ensures |r| == 0 <==> entries == []
    ensures entries != [] ==> InMonth(r[|r| - 1], entries[|entries| - 1].created)
    decreases |entries|
  {
    if entries == [] then []
    else Absorb(MonthBuckets(entries[..|entries| - 1]), entries[|entries| - 1])
  }

  /** The effect that rebuilds the month view: nothing happens until the
      entries arrive; then one pass over them merges each entry into the
      last bucket or pushes a new one. */
  method GroupByMonth(data: Option<seq<ProfitEntry>>, current: seq<MonthBucket>)
    returns (monthData: seq<MonthBucket>)
    ensures data.None? ==> monthData == current
    ensures data.Some? ==> monthData == MonthBuckets(data.value)
  {
    if data.None? {
      return current;
    }
    var entries := data.value;
    var newMonthData: seq<MonthBucket> := [];
    var i := 0;
    while i < |entries|
      invariant 0 <= i <= |entries|
      invariant newMonthData == MonthBuckets(entries[..i])
    {
      var item := entries[i];
      MonthBucketsStep(entries, i);
      if |newMonthData| > 0
         && newMonthData[|newMonthData| - 1].year == item.created.year
         && newMonthData[|newMonthData| - 1].month == item.created.month
      {
        var lastData := newMonthData[|newMonthData| - 1];
        newMonthData := newMonthData[|newMonthData| - 1 := lastData.(price := lastData.price + item.sellPrice)];
      } else {
        newMonthData := newMonthData + [MonthBucket(item.created.year, item.created.month, item.sellPrice)];
      }
      i := i + 1;
    }
    assert entries[..i] == entries;
    monthData := newMonthData;
  }

  /** Absorbing an entry keeps the month of every bucket there was, and
      every bucket but the last unchanged. */
  lemma AbsorbKeepsEarlierBuckets(buckets: seq<MonthBucket>, item: ProfitEntry)
    ensures var r := Absorb(buckets, item);
      && (forall i :: 0 <= i < |buckets| ==> r[i].year == buckets[i].year && r[i].month == buckets[i].month)
      && (forall i :: 0 <= i < |buckets| - 1 ==> r[i] == buckets[i])
  {
  }

  /** The buckets of one more entry are the buckets so far with that entry
      absorbed. */
  lemma MonthBucketsStep(entries: seq<ProfitEntry>, i: int)
    requires 0 <= i < |entries|
    ensures MonthBuckets(entries[..i + 1]) == Absorb(MonthBuckets(entries[..i]), entries[i])
  {
    assert entries[..i + 1][..i] == entries[..i];
  }

  /** Every entry's month has a bucket, whatever the order of the entries:
      a bucket is only ever added for an entry's month, and later steps
      change its price but never its month. */
  lemma {:induction false} EveryEntryHasABucket(entries: seq<ProfitEntry>)
    ensures forall k :: 0 <= k < |entries| ==>
      exists i :: 0 <= i < |MonthBuckets(entries)| && InMonth(MonthBuckets(entries)[i], entries[k].created)
    decreases |entries|
  {
    if entries != [] {
      var init := entries[..|entries| - 1];
      EveryEntryHasABucket(init);
      var before := MonthBuckets(init);
      var after := MonthBuckets(entries);
      forall k | 0 <= k < |entries|
        ensures exists i :: 0 <= i < |after| && InMonth(after[i], entries[k].created)
      {
        if k == |entries| - 1 {
          assert InMonth(after[|after| - 1], entries[k].created);
        } else {
          assert entries[k] == init[k];
          var i :| 0 <= i < |before| && InMonth(before[i], init[k].created);
          assert InMonth(after[i], entries[k].created);
        }
      }
      assert after == MonthBuckets(entries);
    }
  }

  /** Every bucket is for the month of some entry, whatever the order of
      the entries: no bucket is invented. */
  lemma {:induction false} EveryBucketHasAnEntry(entries: seq<ProfitEntry>)
    ensures forall i :: 0 <= i < |MonthBuckets(entries)| ==>
      exists k :: 0 <= k < |entries| && InMonth(MonthBuckets(entries)[i], entries[k].created)
    decreases |entries|
  {
    if entries != [] {
      var init := entries[..|entries| - 1];
      var item := entries[|entries| - 1];
      EveryBucketHasAnEntry(init);
      var before := MonthBuckets(init);
      var after := MonthBuckets(entries);
      AbsorbKeepsEarlierBuckets(before, item);
      forall i | 0 <= i < |after|
        ensures exists k :: 0 <= k < |entries| && InMonth(after[i], entries[k].created)
      {
        if i == |after| - 1 {
          assert InMonth(after[i], entries[|entries| - 1].created);
        } else {
          assert i < |before|;
          var k :| 0 <= k < |init| && InMonth(before[i], init[k].created);
          assert entries[k] == init[k];
          assert InMonth(after[i], entries[k].created);
        }
      }
      assert after == MonthBuckets(entries);
    } else {
      assert MonthBuckets(entries) == [];
    }
  }

  /** The month view never shows the same month on two neighbouring rows. */
  lemma {:induction false} BucketsHaveNoAdjacentRepeats(entries: seq<ProfitEntry>)
    ensures NoAdjacentRepeats(MonthBuckets(entries))
    decreases |entries|
  {
    if entries != [] {
      var init := entries[..|entries| - 1];
      BucketsHaveNoAdjacentRepeats(init);
      var before := MonthBuckets(init);
      var after := MonthBuckets(entries);
      if |before| > 0 && InMonth(before[|before| - 1], entries[|entries| - 1].created) {
        assert forall i :: 0 <= i < |after| ==> after[i].year == before[i].year && after[i].month == before[i].month;
      } else {
        assert forall i :: 0 <= i < |before| ==> after[i] == before[i];
      }
    }
  }

  /** Sum of the entries' sell prices, accumulated front to back as the
      running total's reduce does. */
  function SumSellPrices(entries: seq<ProfitEntry>): real
    decreases |entries|
  {
    if entries == [] then 0.0 else SumSellPrices(entries[..|entries| - 1]) + entries[|entries| - 1].sellPrice
  }

  /** Sum of the buckets' prices. */
  function SumBuckets(buckets: seq<MonthBucket>): real
    decreases |buckets|
  {
    if buckets == [] then 0.0 else SumBuckets(buckets[..|buckets| - 1]) + buckets[|buckets| - 1].price
  }

  /** Grouping neither loses nor invents money: the buckets add up to the
      entries. */
  lemma {:induction false} BucketsKeepTotal(entries: seq<ProfitEntry>)
    ensures SumBuckets(MonthBuckets(entries)) == SumSellPrices(entries)
    decreases |entries|
  {
    if entries != [] {
      var init := entries[..|entries| - 1];
      BucketsKeepTotal(init);
      AbsorbAddsSellPrice(MonthBuckets(init), entries[|entries| - 1]);
    }
  }

  /** One step of the induction above: absorbing an entry adds its sell
      price to the buckets' sum. */
  lemma AbsorbAddsSellPrice(buckets: seq<MonthBucket>, item: ProfitEntry)
    ensures SumBuckets(Absorb(buckets, item)) == SumBuckets(buckets) + item.sellPrice
  {
    var r := Absorb(buckets, item);
    if |buckets| > 0 && InMonth(buckets[|buckets| - 1], item.created) {
      assert r[..|r| - 1] == buckets[..|buckets| - 1];
    } else {
      assert r[..|buckets|] == buckets;
    }
  }

  /** The total line: 0 until the entries arrive, then the sum of every
      entry's sell price (not only the current view's), which is the sum of
      the month view's rows. */
  function RunningTotal(data: Option<seq<ProfitEntry>>): (r: real)
    ensures data.None? ==> r == 0.0
    ensures data.Some? ==> r == SumBuckets(MonthBuckets(data.value))
  {
    if data.None? then 0.0
    else
      BucketsKeepTotal(data.value);
      SumSellPrices(data.value)
  }

  /** The total line shows a '+' exactly when the total is not negative. */
  function SignPrefix(total: real): (s: string)
    ensures s == "+" <==> total >= 0.0
    ensures s == "" <==> total < 0.0
  {
    if total >= 0.0 then "+" else ""
  }

  /** On date-ordered entries every bucket is for a later month than the
      one before it, so each month appears at most once. */
  lemma {:induction false} SortedGivesAscendingMonths(entries: seq<ProfitEntry>)
    requires SortedByDate(entries)
    ensures StrictlyAscending(MonthBuckets(entries))
    decreases |entries|
  {
    if entries != [] {
      var init := entries[..|entries| - 1];
      var item := entries[|entries| - 1];
      assert SortedByDate(init);
      SortedGivesAscendingMonths(init);
      if init != [] {
        assert DateAtMost(init[|init| - 1].created, item.created);
      }
      AbsorbKeepsAscending(MonthBuckets(init), item);
    }
  }

  /** One step of the induction above: an entry whose month is not earlier
      than the last bucket's keeps the buckets strictly ascending. */
  lemma AbsorbKeepsAscending(before: seq<MonthBucket>, item: ProfitEntry)
    requires StrictlyAscending(before)
    requires |before| > 0 ==>
      !MonthBefore(item.created.year, item.created.month, before[|before| - 1].year, before[|before| - 1].month)
    ensures StrictlyAscending(Absorb(before, item))
  {
    AbsorbKeepsEarlierBuckets(before, item);
    var after := Absorb(before, item);
    if |before| > 0 && !InMonth(before[|before| - 1], item.created) {
      var n := |before|;
      assert MonthBefore(before[n - 1].year, before[n - 1].month, after[n].year, after[n].month);
      forall i | 0 <= i < n
        ensures MonthBefore(after[i].year, after[i].month, after[n].year, after[n].month)
      {
        assert after[i] == before[i];
      }
    }
  }

  /** Entries in any other order can put the same month on two rows: only
      neighbouring entries are merged. */
  lemma UnsortedInputRepeatsAMonth()
    ensures var entries := [
        ProfitEntry(1, "A", 100.0, Date(2024, 1, 5)),
        ProfitEntry(2, "B", 30.0, Date(2024, 2, 3)),
        ProfitEntry(3, "C", 50.0, Date(2024, 1, 20))];
      MonthBuckets(entries)
        == [MonthBucket(2024, 1, 100.0), MonthBucket(2024, 2, 30.0), MonthBucket(2024, 1, 50.0)]
  {
    var entries := [
        ProfitEntry(1, "A", 100.0, Date(2024, 1, 5)),
        ProfitEntry(2, "B", 30.0, Date(2024, 2, 3)),
        ProfitEntry(3, "C", 50.0, Date(2024, 1, 20))];
    assert entries[..1] == [entries[0]];
    assert entries[..2] == [entries[0], entries[1]];
    assert [entries[0]][..0] == [];
    assert [entries[0], entries[1]][..1] == [entries[0]];
    assert MonthBuckets(entries[..1]) == [MonthBucket(2024, 1, 100.0)];
    assert MonthBuckets(entries[..2]) == [MonthBucket(2024, 1, 100.0), MonthBucket(2024, 2, 30.0)];
    assert entries[..|entries| - 1] == entries[..2];
  }

  /** Sum of the sell prices of the entries dated in the given month: the
      group-by the month view stands for. */
  function MonthTotal(entries: seq<ProfitEntry>, year: int, month: int): real
    decreases |entries|
  {
    if entries == [] then 0.0
    else
      var item := entries[|entries| - 1];
      MonthTotal(entries[..|entries| - 1], year, month)
        + (if item.created.year == year && item.created.month == month then item.sellPrice else 0.0)
  }

  /** On date-ordered entries a bucket for a month holds the total of that
      month's entries, and a month without a bucket has a total of 0; with
      EveryEntryHasABucket (every entry's month has a bucket),
      EveryBucketHasAnEntry (every bucket's month has an entry) and
      SortedGivesAscendingMonths (no month twice) this makes the single pass
      a group-by. */
  lemma {:induction false} SortedBucketsAreMonthTotals(entries: seq<ProfitEntry>, year: int, month: int)
    requires SortedByDate(entries)
    ensures forall i :: 0 <= i < |MonthBuckets(entries)| && MonthBuckets(entries)[i].year == year
              && MonthBuckets(entries)[i].month == month
              ==> MonthBuckets(entries)[i].price == MonthTotal(entries, year, month)
    ensures (forall i :: 0 <= i < |MonthBuckets(entries)| ==>
               !(MonthBuckets(entries)[i].year == year && MonthBuckets(entries)[i].month == month))
            ==> MonthTotal(entries, year, month) == 0.0
    decreases |entries|
  {
    if entries != [] {
      var init := entries[..|entries| - 1];
      var item := entries[|entries| - 1];
      assert SortedByDate(init);
      SortedBucketsAreMonthTotals(init, year, month);
      SortedGivesAscendingMonths(entries);
      AbsorbKeepsMonthTotals(MonthBuckets(init), item, MonthTotal(init, year, month), year, month);
    }
  }

  /** One step of the induction above: if the buckets so far hold the month
      total and the new last bucket's month comes after every other, the
      buckets after absorbing an entry hold the month total with that
      entry. */
  lemma AbsorbKeepsMonthTotals(before: seq<MonthBucket>, item: ProfitEntry, total: real, year: int, month: int)
    requires forall i :: 0 <= i < |before| && before[i].year == year && before[i].month == month
               ==> before[i].price == total
    requires (forall i :: 0 <= i < |before| ==> !(before[i].year == year && before[i].month == month))
             ==> total == 0.0
    requires var after := Absorb(before, item);
      forall i :: 0 <= i < |after| - 1 ==>
        MonthBefore(after[i].year, after[i].month, after[|after| - 1].year, after[|after| - 1].month)
    ensures var after := Absorb(before, item);
      var total' := total + (if item.created.year == year && item.created.month == month then item.sellPrice else 0.0);
      && (forall i :: 0 <= i < |after| && after[i].year == year && after[i].month == month ==> after[i].price == total')
      && ((forall i :: 0 <= i < |after| ==> !(after[i].year == year && after[i].month == month)) ==> total' == 0.0)
  {
    AbsorbKeepsEarlierBuckets(before, item);
    var after := Absorb(before, item);
    var n := |after|;
    var itemHere := item.created.year == year && item.created.month == month;
    if |before| > 0 && InMonth(before[|before| - 1], item.created) {
      assert n == |before|;
    } else {
      assert n == |before| + 1;
      if itemHere {
        assert forall i :: 0 <= i < |before| ==> !(before[i].year == year && before[i].month == month);
      }
    }
  }

  /** The position of the first bucket for the month, or the length when
      there is none: Array.prototype.find. */
  function FindMonth(buckets: seq<MonthBucket>, year: int, month: int): (k: nat)
    ensures k <= |buckets|
    ensures k < |buckets| ==> buckets[k].year == year && buckets[k].month == month
    ensures forall j :: 0 <= j < k ==> !(buckets[j].year == year && buckets[j].month == month)
    decreases |buckets|
  {
    if buckets == [] then 0
    else if buckets[0].year == year && buckets[0].month == month then 0
    else 1 + FindMonth(buckets[1..], year, month)
  }

  /** `thisMonth?.price || 0`: the price of the first bucket for the month,
      or 0 when no bucket is for it. */
  function ThisMonthPrice(buckets: seq<MonthBucket>, year: int, month: int): (r: real)
    ensures (forall i :: 0 <= i < |buckets| ==> !(buckets[i].year == year && buckets[i].month == month))
            ==> r == 0.0
    ensures forall k :: 0 <= k < |buckets| && buckets[k].year == year && buckets[k].month == month
              && (forall j :: 0 <= j < k ==> !(buckets[j].year == year && buckets[j].month == month))
              ==> r == buckets[k].price
  {
    var k := FindMonth(buckets, year, month);
    if k < |buckets| then buckets[k].price else 0.0
  }

  /** On date-ordered entries the price the target line starts from is the
      total of the current month's entries. */
  lemma ThisMonthPriceIsMonthTotal(entries: seq<ProfitEntry>, year: int, month: int)
    requires SortedByDate(entries)
    ensures ThisMonthPrice(MonthBuckets(entries), year, month) == MonthTotal(entries, year, month)
  {
    SortedBucketsAreMonthTotals(entries, year, month);
    var buckets := MonthBuckets(entries);
    var k := FindMonth(buckets, year, month);
    if k < |buckets| {
      assert ThisMonthPrice(buckets, year, month) == buckets[k].price;
    }
  }

  /** The figure in parentheses on the target line: this month's realized
      profit plus the portfolio's unrealized profit in won, minus the
      target (0 when it is missing), rounded down. It is not negative
      exactly when realized plus unrealized profit (the header badge's
      amount) reaches the target, and it lies within one won below the exact
      difference. */
  function TargetDelta(buckets: seq<MonthBucket>, portfolio: seq<Position>, exchangeRate: real,
                       target: Option<MonthTarget>, today: Date): (d: int)
    ensures var targetPrice := if target.Some? then target.value.targetPrice else 0.0;
      var reached := ThisMonthPrice(buckets, today.year, today.month)
                     + Header.BadgeOf(portfolio, Some(exchangeRate)).amount;
      && (d >= 0 <==> reached >= targetPrice)
      && d as real <= reached - targetPrice < d as real + 1.0
  {
    var targetPrice := if target.Some? then target.value.targetPrice else 0.0;
    var totalProfit := MarketValue(portfolio, 1.0) - Investment(portfolio, 1.0);
    assert Header.BadgeOf(portfolio, Some(exchangeRate)).amount == totalProfit * exchangeRate;
    (ThisMonthPrice(buckets, today.year, today.month) + totalProfit * exchangeRate - targetPrice).Floor
  }

  /** The target line: nothing until the holdings and the exchange rate
      arrive; then the dollar totals loop and the rounded delta. */
  method MonthTargetDelta(monthData: seq<MonthBucket>, portfolio: Option<seq<Position>>,
                          exchangeRate: Option<real>, monthTargetPrice: Option<MonthTarget>, today: Date)
    returns (delta: Option<int>)
    ensures delta.Some? <==> portfolio.Some? && exchangeRate.Some?
    ensures delta.Some? ==>
      delta.value == TargetDelta(monthData, portfolio.value, exchangeRate.value, monthTargetPrice, today)
  {
    if portfolio.None? || exchangeRate.None? {
      return None;
    }
    var k := FindMonth(monthData, today.year, today.month);
    var thisMonthPrice := if k < |monthData| then monthData[k].price else 0.0;
    var totalInvestment, totalMarketValue := Accumulate(portfolio.value, 1.0);
    var totalProfit := totalMarketValue - totalInvestment;
    var targetPrice := if monthTargetPrice.Some? then monthTargetPrice.value.targetPrice else 0.0;
    delta := Some((thisMonthPrice + totalProfit * exchangeRate.value - targetPrice).Floor);
  }
}

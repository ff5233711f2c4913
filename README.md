# stock-searcher-front: valuation and aggregation engine

A Dafny model of the arithmetic and list logic inside the pages of a
personal stock-tracking front end. The pages show a watch list, bookmarked
tickers ("picks"), a portfolio of holdings, and a log of realized profit.
The logic sits in render closures and event handlers. Here it is pulled out
into modules, one per page:

- `Records` (records.dfy): the record shapes of `src/types/stock.ts`.
  Amounts are exact `real`s. Timestamps are given as (year, 1-based month,
  day).
- `Valuation` (valuation.dfy): the shared cost-basis and market-value sums,
  the currency factor and the percentage. It also holds the accumulator
  loop that the Portfolio page, the Header and the realized-profit target
  line each contain.
- `Portfolio` (portfolio.dfy): aggregate and per-holding figures in won or
  dollars, and the average-down calculator.
- `Header` (header.dfy): the profit badge. It holds the dollar profit
  converted to won, with a '+' sign decided before the conversion.
- `PickPage` (pick.dfy): the change rate of each pick since it was
  bookmarked.
- `RealizedProfit` (realized_profit.dfy): the month view's single-pass
  grouping, the running total, and the month-to-date delta against the
  monthly target.
- `ProfitLabels` (profit_labels.dfy): the `YYYY-MM-DD` and `YYYY-MM` labels.
- `MainPage` (main_page.dfy): the checked-ticker list, held as a class whose
  handlers reassign its `seq` field. It also holds the in-place sort of the
  stock array by PBR.

Where the source produces NaN or Infinity, the model returns `None`. This
covers a zero investment, a zero bookmark price, and a zero rate or a zero
resulting share count in the calculator. A zero current price also gives
`None`; with a non-zero rate and non-zero money the source then shows 0
(see Left out). A missing `exchange_rate` or `target_price` reads as 0, as `|| 0`
does.

The month grouping merges only neighbouring entries of the same month.
Every entry's month gets a bucket, and every bucket is for some entry's
month, whatever the order (`EveryEntryHasABucket`,
`EveryBucketHasAnEntry`). On entries sorted by date, each month has at
most one bucket (`SortedGivesAscendingMonths`) and that bucket holds the
month's total (`SortedBucketsAreMonthTotals`, `ThisMonthPriceIsMonthTotal`);
together these make the pass a group-by. On other input it can show a
month twice: `UnsortedInputRepeatsAMonth`. The model
keeps the code's behaviour and states sortedness as a hypothesis of those
lemmas only.

The calculator has a purchase-price field, `addTargetPrice`. It starts as
the holding's current price (Portfolio.tsx:161) and is updated by its input
(248-251), but the projection never reads it: the whole shares are
`floor(ADD_MONEY / stock.price)` (267). `AverageDown` models the code as
written. `AverageDownAt` divides by the entered price instead, and gives no
projection for a purchase price that is not positive, since such a price
buys nothing (see Findings).

## Model

| member | source | states |
|---|---|---|
| Valuation.Factor | src/pages/Portfolio/Portfolio.tsx:43 | 1 for dollars; for won the exchange rate, or 0 while it is missing |
| Valuation.Percent | src/pages/Portfolio/Portfolio.tsx:48 | the percentage exists exactly when the divisor is non-zero, and then percentage × divisor = part × 100 |
| Valuation.Accumulate | src/pages/Portfolio/Portfolio.tsx:39-46 | the loop ends with the two accumulators equal to Σ avg_price·shares·f and Σ price·shares·f |
| Valuation.InvestmentScales | src/pages/Portfolio/Portfolio.tsx:42-43 | the cost-basis sum scaled per term by f equals the unscaled sum times f |
| Valuation.MarketValueScales | src/pages/Portfolio/Portfolio.tsx:44-45 | the market-value sum scaled per term by f equals the unscaled sum times f |
| Valuation.ProfitScales | src/pages/Portfolio/Portfolio.tsx:39-47 | market value minus investment scales by f in the same way |
| Portfolio.PortfolioTotals | src/pages/Portfolio/Portfolio.tsx:37-48 | nothing until holdings arrive; otherwise the totals of the holdings under the selected currency's factor |
| Portfolio.TotalsOf | src/pages/Portfolio/Portfolio.tsx:39-48 | profit = market value − investment exactly; a return rate exists iff investment ≠ 0, and then rate × investment = profit × 100 |
| Portfolio.EmptyTotals | src/pages/Portfolio/Portfolio.tsx:39-48 | an empty portfolio has all-zero totals and no return rate |
| Portfolio.WonTotalsAreDollarTotalsTimesRate | src/pages/Portfolio/Portfolio.tsx:41-48 | won investment, market value and profit are the dollar ones times the rate (0 if missing); the return rate is the same in both currencies when the rate is non-zero |
| Portfolio.PositionFigures | src/pages/Portfolio/Portfolio.tsx:156-158 | one holding's profit = market value − investment; its return rate exists iff its investment ≠ 0, and then rate × investment = profit × 100 |
| Portfolio.PositionIsSingletonPortfolio | src/pages/Portfolio/Portfolio.tsx:156-158 | one holding's figures are the totals of a one-holding portfolio |
| Portfolio.PositionList | src/pages/Portfolio/Portfolio.tsx:69-81 | one figure set per holding, in order |
| Portfolio.PositionsAddUpToTotals | src/pages/Portfolio/Portfolio.tsx:156-157 | the per-holding investments and market values add up to the aggregate totals in the same currency |
| Portfolio.FloorShares | src/pages/Portfolio/Portfolio.tsx:267 | for any non-zero price, floor(money / price) ≤ money / price < floor + 1; at a positive price those shares cost at most the money and one more costs more, and at a negative price the inequalities turn round |
| Portfolio.AverageDown | src/pages/Portfolio/Portfolio.tsx:265-270 | as written: a projection exists iff the rate, the current price and shares + bought are all non-zero; converted money × rate = addMoney; whole shares bought ≤ converted money / current price < bought + 1, for any non-zero price; new average × (shares + bought) = old cost + all the converted money, remainder included |
| Portfolio.AverageDownAt | src/pages/Portfolio/Portfolio.tsx:247-268 | the same projection with the entered purchase price as the divisor, shares bought ≤ money / purchase price < bought + 1; it exists iff the rate is non-zero, the purchase price is positive and shares + bought is non-zero |
| Portfolio.AverageDownAtCurrentPrice | src/pages/Portfolio/Portfolio.tsx:161 | both calculators agree while the purchase-price field holds its initial value, a positive current price |
| Portfolio.AverageDownIgnoresTargetPrice | src/pages/Portfolio/Portfolio.tsx:248-267 | with price 10 and purchase price 8, the as-written projection buys 0 shares (average 10.08) where the corrected one buys 1 (average 1008/101) |
| Portfolio.AverageDownWithNoMoney | src/pages/Portfolio/Portfolio.tsx:268 | adding no money leaves the average price unchanged when shares > 0 and the current price and the rate are non-zero |
| Portfolio.AverageDownBuysWholeShares | src/pages/Portfolio/Portfolio.tsx:266-267 | with positive price and rate and non-negative money, any projection buys a non-negative number of shares it can afford |
| Portfolio.AverageDownExistsForHeldShares | src/pages/Portfolio/Portfolio.tsx:266-268 | with positive price and rate, non-negative money and shares held, a projection exists |
| Header.HeaderBadge | src/components/Header/Header.tsx:21-32 | nothing until holdings arrive; otherwise the badge of the dollar profit converted to won |
| Header.BadgeMatchesPortfolio | src/components/Header/Header.tsx:22-32 | the badge amount equals the Portfolio page's won profit; the '+' shows iff the Portfolio page's dollar profit is ≥ 0 |
| Header.BadgeOf | src/components/Header/Header.tsx:22-32 | with a positive rate, '+' iff the won amount is ≥ 0; with the rate missing the amount is 0 |
| Header.EmptyBadge | src/components/Header/Header.tsx:22-31 | an empty portfolio shows +0 |
| PickPage.ChangeRate | src/pages/Pick/Pick.tsx:60 | the change rate exists exactly when the bookmark price is non-zero |
| PickPage.ChangeRateZero | src/pages/Pick/Pick.tsx:60 | the rate is 0 iff the price has not moved |
| PickPage.ChangeRateSign | src/pages/Pick/Pick.tsx:60 | for a positive bookmark price the rate is positive iff the price rose and negative iff it fell |
| PickPage.ChangeRateRecoversPrice | src/pages/Pick/Pick.tsx:60 | bookmark price × (1 + rate/100) is the current price |
| PickPage.PickRows | src/pages/Pick/Pick.tsx:40-62 | one row per pick, in the order received, each with that pick's fields and change rate |
| RealizedProfit.GroupByMonth | src/pages/RealizedProfit/RealizedProfit.tsx:44-63 | no change until the entries arrive; otherwise the loop's buckets are the month buckets of the entries |
| RealizedProfit.Absorb | src/pages/RealizedProfit/RealizedProfit.tsx:55-60 | at most one bucket more, the last one for the entry's month; a push keeps the old buckets and starts the new one at the entry's sell price |
| RealizedProfit.AbsorbKeepsEarlierBuckets | src/pages/RealizedProfit/RealizedProfit.tsx:55-60 | every existing bucket keeps its month, and all but the last are unchanged |
| RealizedProfit.MonthBuckets | src/pages/RealizedProfit/RealizedProfit.tsx:51-60 | no more buckets than entries, none iff no entries, and the last bucket is for the last entry's month |
| RealizedProfit.EveryEntryHasABucket | src/pages/RealizedProfit/RealizedProfit.tsx:51-60 | for any order of entries, every entry's month has a bucket |
| RealizedProfit.EveryBucketHasAnEntry | src/pages/RealizedProfit/RealizedProfit.tsx:51-60 | for any order of entries, every bucket is for the month of some entry |
| RealizedProfit.BucketsHaveNoAdjacentRepeats | src/pages/RealizedProfit/RealizedProfit.tsx:55-59 | no two neighbouring buckets are for the same month |
| RealizedProfit.BucketsKeepTotal | src/pages/RealizedProfit/RealizedProfit.tsx:57-59 | the bucket prices add up to the entries' sell prices |
| RealizedProfit.AbsorbAddsSellPrice | src/pages/RealizedProfit/RealizedProfit.tsx:56-59 | absorbing an entry adds exactly its sell price to the buckets' sum |
| RealizedProfit.SignPrefix | src/pages/RealizedProfit/RealizedProfit.tsx:91 | the prefix is '+' iff the total is ≥ 0, and empty iff it is negative |
| RealizedProfit.RunningTotal | src/pages/RealizedProfit/RealizedProfit.tsx:90 | the running total is 0 without data, and otherwise the sum of the month view's rows |
| RealizedProfit.SortedGivesAscendingMonths | src/pages/RealizedProfit/RealizedProfit.tsx:56 | on date-sorted entries the buckets are strictly ascending by (year, month), so each month appears at most once |
| RealizedProfit.AbsorbKeepsAscending | src/pages/RealizedProfit/RealizedProfit.tsx:55-60 | an entry whose month is not earlier than the last bucket's keeps the buckets strictly ascending |
| RealizedProfit.UnsortedInputRepeatsAMonth | src/pages/RealizedProfit/RealizedProfit.tsx:55-60 | entries in January, February, January give three buckets with January twice |
| RealizedProfit.SortedBucketsAreMonthTotals | src/pages/RealizedProfit/RealizedProfit.tsx:51-60 | on date-sorted entries a bucket's price is the total of its month's entries, and a month without a bucket has total 0 |
| RealizedProfit.AbsorbKeepsMonthTotals | src/pages/RealizedProfit/RealizedProfit.tsx:55-60 | if the buckets hold a month's total and the new last bucket is the latest month, absorbing an entry keeps them holding that month's total |
| RealizedProfit.FindMonth | src/pages/RealizedProfit/RealizedProfit.tsx:105-107 | the index found is the first bucket for the month, or the length when none is |
| RealizedProfit.ThisMonthPrice | src/pages/RealizedProfit/RealizedProfit.tsx:105-108 | the price of the first bucket for the month, or 0 when no bucket is for it |
| RealizedProfit.ThisMonthPriceIsMonthTotal | src/pages/RealizedProfit/RealizedProfit.tsx:105-108 | on date-sorted entries the month-to-date price is the total of this month's entries |
| RealizedProfit.MonthTargetDelta | src/pages/RealizedProfit/RealizedProfit.tsx:96-122 | nothing until holdings and the rate arrive; otherwise floor(this month's price + dollar profit × rate − target, missing target as 0) |
| RealizedProfit.TargetDelta | src/pages/RealizedProfit/RealizedProfit.tsx:118-122 | the delta is ≥ 0 iff realized plus the header's unrealized profit reaches the target, and it lies within one won below the exact difference |
| ProfitLabels.NatToStringRoundTrip | src/pages/RealizedProfit/RealizedProfit.tsx:167 | a printed number is a non-empty digit string that reads back as the number |
| ProfitLabels.IntToStringRoundTrip | src/pages/RealizedProfit/RealizedProfit.tsx:167 | a printed year reads back as the year |
| ProfitLabels.Pad2 | src/pages/RealizedProfit/RealizedProfit.tsx:168-169 | a month or day from 0 to 99 pads to exactly two digits that read back as it |
| ProfitLabels.SmallNumbers | src/pages/RealizedProfit/RealizedProfit.tsx:168-169 | 0 to 9 with a '0' before it, and 10 to 99 as printed, are two digits that read back as the number |
| ProfitLabels.SliceLast2 | src/pages/RealizedProfit/RealizedProfit.tsx:194 | the result is the string's suffix of length two, or the whole string when it is shorter |
| ProfitLabels.MonthPaddingsAgree | src/pages/RealizedProfit/RealizedProfit.tsx:194 | the month view's `('0'+m).slice(-2)` equals the day view's padding for months 0 to 99 |
| ProfitLabels.DayLabel | src/pages/RealizedProfit/RealizedProfit.tsx:166-169 | for a month and a day from 0 to 99, the year followed by two two-character fields, each after a '-' |
| ProfitLabels.MonthLabel | src/pages/RealizedProfit/RealizedProfit.tsx:194 | for a month from 0 to 99, the year, a '-' and the month padded as the day view pads it |
| ProfitLabels.DayLabelRoundTrip | src/pages/RealizedProfit/RealizedProfit.tsx:166-169 | the day label reads back as the date it was made from, so it determines the date |
| ProfitLabels.MonthLabelIsDayLabelPrefix | src/pages/RealizedProfit/RealizedProfit.tsx:194 | a month row's label is its entries' day label without the day |
| ProfitLabels.DayRows | src/pages/RealizedProfit/RealizedProfit.tsx:161-173 | one day-view row per entry, in order, with its date label, ticker and sell price |
| ProfitLabels.MonthRows | src/pages/RealizedProfit/RealizedProfit.tsx:191-196 | one month-view row per bucket, in order, with its month label and price |
| MainPage.Without | src/pages/Main/Main.tsx:97 | a ticker is kept iff it was there and is not the removed one; never longer |
| MainPage.WithoutDistributes | src/pages/Main/Main.tsx:97 | filtering a concatenation filters each part, so kept tickers keep their relative order |
| MainPage.WithoutAbsent | src/pages/Main/Main.tsx:97 | filtering out an absent ticker changes nothing |
| MainPage.WithoutKeepsOthers | src/pages/Main/Main.tsx:97 | every other ticker keeps its number of occurrences |
| MainPage.WithoutNoDuplicates | src/pages/Main/Main.tsx:97 | filtering never creates a duplicate |
| MainPage.Toggled | src/pages/Main/Main.tsx:95-100 | the ticker is checked afterwards iff it was not before; every other ticker is checked iff it was |
| MainPage.ToggleFlipsOnlyTicker | src/pages/Main/Main.tsx:95-100 | a present ticker is removed entirely, an absent one appended at the end; every other ticker keeps its count |
| MainPage.ToggleTwiceRestores | src/pages/Main/Main.tsx:95-100 | toggling an absent ticker twice restores the list exactly |
| MainPage.ToggleNoDuplicates | src/pages/Main/Main.tsx:95-100 | a list without duplicates stays without duplicates |
| MainPage.CheckedList.constructor | src/pages/Main/Main.tsx:29 | the page starts from the stored list |
| MainPage.CheckedList.Toggle | src/pages/Main/Main.tsx:95-101 | the new state is the toggled old state |
| MainPage.CheckedList.StockClick | src/pages/Main/Main.tsx:15-17 | the stored copy contains the ticker, extends the list by at most that ticker at the end, equals it when the ticker was present, and creates no duplicate |
| MainPage.CheckedList.CancelAll | src/pages/Main/Main.tsx:23-25 | after confirmation the list is empty, otherwise unchanged |
| MainPage.Rows | src/pages/Main/Main.tsx:79-88 | one row per stock in order, marked checked iff its ticker is in the checked list |
| MainPage.SortByPbr | src/pages/Main/Main.tsx:80 | the array ends ascending by PBR and is a permutation of what it held |

## Left out

- Network I/O: every `useQuery`/`useMutation` fetch and write, and the add, update and delete modals and handlers built on them (including `handlePick`). The server's data comes in as parameters, `None` while loading.
- Browser storage: the `stockList` and `cachedStockList` keys and the `pageshow` listener. Only the list value is modelled: `StockClick` returns the copy the page stores, and the constructor takes the list storage held.
- Navigation (`window.location.href`), `alert`, modals, `ModalPortal`, `ModalContainer`, the router and the query-client setup. `window.confirm` before "cancel all" becomes a boolean parameter.
- Display rounding (`toFixed`, `toLocaleString`) and IEEE-754 arithmetic: amounts are exact reals. NaN and Infinity become `None`. A NaN or zero in a field that the source reads with `|| 0` is not modelled separately from a missing field.
- `new Date(created_at)` parsing and local-time `getMonth`/`getDate`: each entry carries its (year, month, day) as given.
- The clock: "today" for the target line is a parameter.
- Form state: `useState` setters and `Number(...)` parsing of inputs.
- RealizedProfit.GroupByMonth: the in-place `lastData.price +=` on the last pushed object is modelled as replacing the last element of a `seq`. Every bucket is freshly pushed, so no alias of it is observable.
- MainPage.SortByPbr: does not state that stocks with equal PBR keep their order, which the engine's stable sort gives; only sortedness and permutation are proved.
- ProfitLabels.DayLabelRoundTrip: proved for months and days from 0 to 99, which covers every value `getMonth() + 1` and `getDate()` return.
- Portfolio.AverageDown: with a zero current price, a non-zero rate and non-zero money, the source divides by `shares ± Infinity` and shows 0.0000; the model gives no projection there, since the share count it would rest on is infinite and `canBuy` is an integer.
- Serializing records and reading them back: the front end has no serializer of its own, so there is no round-trip to state.

## Findings

| source | as written | input that shows it | evidently intended | confidence | as-written member | corrected member |
|---|---|---|---|---|---|---|
| src/pages/Portfolio/Portfolio.tsx:267 | the whole shares bought are `floor(ADD_MONEY / stock.price)`; the purchase price the user types (`addTargetPrice`, lines 161 and 248-251) is never read by the projection (265-270) | average 10 on 100 shares, current price 10, purchase price 8, 8000 won at 1000 won per dollar: 0 shares, new average 10.08 | divide by `addTargetPrice`: 1 share, new average 1008/101 | likely; not executed | Portfolio.AverageDown, Portfolio.AverageDownIgnoresTargetPrice | Portfolio.AverageDownAt |

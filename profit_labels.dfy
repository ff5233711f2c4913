/** The date labels of the realized-profit tables: `YYYY-MM-DD` on the day
    view and `YYYY-MM` on the month view, built from numbers the way the
    page's template strings do. */
module ProfitLabels {
  import opened Records
  import RealizedProfit

  /** The character of a decimal digit. */
  function DigitChar(d: int): char
    requires 0 <= d < 10
  {
    ('0' as int + d) as char
  }

  predicate IsDigit(c: char)
  {
    '0' <= c <= '9'
  }

  /** A non-negative number as JavaScript prints it: decimal digits, no
      leading zeros. */
  function NatToString(n: nat): string
    decreases n
  {
    if n < 10 then [DigitChar(n)] else NatToString(n / 10) + [DigitChar(n % 10)]
  }

  /** Any integer as JavaScript prints it: a minus sign before negatives. */
  function IntToString(i: int): string
  {
    if i < 0 then "-" + NatToString(-i) else NatToString(i)
  }

  /** The number a string of decimal digits denotes. */
  function DigitsValue(s: string): int
    decreases |s|
  {
    if s == [] then 0 else DigitsValue(s[..|s| - 1]) * 10 + (s[|s| - 1] as int - '0' as int)
  }

  /** The number a printed integer denotes. */
  function ParseInt(s: string): int
  {
    if |s| > 0 && s[0] == '-' then -DigitsValue(s[1..]) else DigitsValue(s)
  }

  /** Printing a number gives a non-empty run of digits that reads back as
      the number. */
  lemma {:induction false} NatToStringRoundTrip(n: nat)
    ensures |NatToString(n)| >= 1
    ensures forall i :: 0 <= i < |NatToString(n)| ==> IsDigit(NatToString(n)[i])
    ensures DigitsValue(NatToString(n)) == n
    decreases n
  {
    var s := NatToString(n);
    if n >= 10 {
      NatToStringRoundTrip(n / 10);
      assert s[..|s| - 1] == NatToString(n / 10);
    } else {
      assert s[..0] == [];
    }
  }

  /** Printing any integer reads back as the integer. */
  lemma IntToStringRoundTrip(i: int)
    ensures |IntToString(i)| >= 1
    ensures ParseInt(IntToString(i)) == i
  {
    if i < 0 {
      NatToStringRoundTrip(-i);
      assert IntToString(i)[1..] == NatToString(-i);
    } else {
      NatToStringRoundTrip(i);
    }
  }

  /** The day view's padding, `n < 10 ? '0' + n : n`: a field from 0 to 99
      pads to exactly two digits that read back as the field. */
  function Pad2(n: int): (r: string)
    ensures 0 <= n < 100 ==> |r| == 2 && IsDigit(r[0]) && IsDigit(r[1]) && DigitsValue(r) == n
  {
    SmallNumbers(n);
    if n < 10 then "0" + IntToString(n) else IntToString(n)
  }

  /** A number from 0 to 9 prints as one digit, and with a '0' before it
      reads back as itself; a number from 10 to 99 prints as two digits
      that read back as itself. */
  lemma SmallNumbers(n: int)
    ensures 0 <= n < 10 ==>
      var r := "0" + IntToString(n);
      |r| == 2 && IsDigit(r[0]) && IsDigit(r[1]) && DigitsValue(r) == n
    ensures 10 <= n < 100 ==>
      var r := IntToString(n);
      |r| == 2 && IsDigit(r[0]) && IsDigit(r[1]) && DigitsValue(r) == n
  {
    if 0 <= n < 10 {
      NatToStringRoundTrip(n);
      assert NatToString(n) == [DigitChar(n)];
      var r := "0" + IntToString(n);
      assert r[..1] == "0";
    } else if 10 <= n < 100 {
      NatToStringRoundTrip(n);
      assert NatToString(n / 10) == [DigitChar(n / 10)];
    }
  }

  /** `slice(-2)`: the last two characters, or the whole string when it is
      shorter. */
  function SliceLast2(s: string): (r: string)
    ensures |r| == if |s| < 2 then |s| else 2
    ensures r == s[|s| - |r|..]
  {
    if |s| <= 2 then s else s[|s| - 2..]
  }

  /** The day view's label of an entry's date: with a month and a day from
      0 to 99, the year followed by two fields of two characters, each after
      a '-'. */
  function DayLabel(d: Date): (r: string)
    ensures 0 <= d.month < 100 && 0 <= d.day < 100 ==>
      |r| == |IntToString(d.year)| + 6 && r[..|r| - 6] == IntToString(d.year)
      && r[|r| - 6] == '-' && r[|r| - 3] == '-'
  {
    IntToString(d.year) + "-" + Pad2(d.month) + "-" + Pad2(d.day)
  }

  /** The month view's label of a bucket: for a month from 0 to 99, the
      year and the month padded as the day view pads it. */
  function MonthLabel(b: RealizedProfit.MonthBucket): (r: string)
    ensures 0 <= b.month < 100 ==> r == IntToString(b.year) + "-" + Pad2(b.month)
  {
    MonthPaddingsAgree(b.month);
    IntToString(b.year) + "-" + SliceLast2("0" + IntToString(b.month))
  }

  /** The two paddings the page uses agree on every month from 0 to 99. */
  lemma MonthPaddingsAgree(m: int)
    ensures 0 <= m < 100 ==> SliceLast2("0" + IntToString(m)) == Pad2(m)
  {
    if m >= 10 {
      assert ("0" + IntToString(m))[1..] == IntToString(m);
    }
  }

  /** Reads a day label back: the year before the last six characters,
      then two two-digit fields each after a '-'. */
  function ParseDayLabel(s: string): Option<Date>
  {
    if |s| >= 7 && s[|s| - 6] == '-' && s[|s| - 3] == '-' then
      Some(Date(ParseInt(s[..|s| - 6]), DigitsValue(s[|s| - 5..|s| - 3]), DigitsValue(s[|s| - 2..])))
    else None
  }

  /** A day label with a month and a day from 0 to 99 determines the date:
      reading it back gives the date it was made from. */
  lemma DayLabelRoundTrip(d: Date)
    requires 0 <= d.month < 100 && 0 <= d.day < 100
    ensures ParseDayLabel(DayLabel(d)) == Some(d)
  {
    var y, m, dd := IntToString(d.year), Pad2(d.month), Pad2(d.day);
    IntToStringRoundTrip(d.year);
    var s := DayLabel(d);
    assert s == y + "-" + m + "-" + dd;
    assert |s| == |y| + 6;
    assert s[..|s| - 6] == y;
    assert s[|s| - 5..|s| - 3] == m;
    assert s[|s| - 2..] == dd;
  }

  /** The month view's label of a date's month is the day view's label of
      that date without its day. */
  lemma MonthLabelIsDayLabelPrefix(d: Date, price: real)
    requires 0 <= d.month < 100 && 0 <= d.day < 100
    ensures var day := DayLabel(d);
      MonthLabel(RealizedProfit.MonthBucket(d.year, d.month, price)) == day[..|day| - 3]
  {
    var y, m, dd := IntToString(d.year), Pad2(d.month), Pad2(d.day);
    var monthPart := y + "-" + m;
    assert MonthLabel(RealizedProfit.MonthBucket(d.year, d.month, price)) == monthPart;
    assert DayLabel(d) == monthPart + ("-" + dd);
    DropSuffix(monthPart, "-" + dd);
  }

  /** Cutting a suffix's length off a concatenation leaves the prefix. */
  lemma DropSuffix(a: string, b: string)
    ensures (a + b)[..|a + b| - |b|] == a
  {
    assert |a + b| - |b| == |a|;
  }

  /** One row of the day view: the entries as received, each with its date
      label. */
  datatype DayRow = DayRow(date: string, ticker: string, sellPrice: real)

  function DayRows(data: seq<ProfitEntry>): (rows: seq<DayRow>)
    ensures |rows| == |data|
    ensures forall i :: 0 <= i < |data| ==>
      rows[i] == DayRow(DayLabel(data[i].created), data[i].ticker, data[i].sellPrice)
    decreases |data|
  {
    if data == [] then []
    else [DayRow(DayLabel(data[0].created), data[0].ticker, data[0].sellPrice)] + DayRows(data[1..])
  }

  /** One row of the month view: a bucket with its month label. */
  datatype MonthRow = MonthRow(month: string, price: real)

  function MonthRows(buckets: seq<RealizedProfit.MonthBucket>): (rows: seq<MonthRow>)
    ensures |rows| == |buckets|
    ensures forall i :: 0 <= i < |buckets| ==> rows[i] == MonthRow(MonthLabel(buckets[i]), buckets[i].price)
    decreases |buckets|
  {
    if buckets == [] then []
    else [MonthRow(MonthLabel(buckets[0]), buckets[0].price)] + MonthRows(buckets[1..])
  }
}

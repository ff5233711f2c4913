/** The watch-list page: the list of checked tickers the user marks rows
    with, and the table of stocks ordered by PBR. */
module MainPage {
  import opened Records

  /** `filter((ticker) => ticker !== t)`: every occurrence of t removed. */
  function Without(s: seq<string>, t: string): (r: seq<string>)
    ensures forall x :: x in r <==> x in s && x != t
    ensures |r| <= |s|
    decreases |s|
  {
    if s == [] then []
    else Without(s[..|s| - 1], t) + (if s[|s| - 1] == t then [] else [s[|s| - 1]])
  }

  /** Filtering a concatenation filters each part: what stays keeps its
      relative order. */
  lemma {:induction false} WithoutDistributes(a: seq<string>, b: seq<string>, t: string)
    ensures Without(a + b, t) == Without(a, t) + Without(b, t)
    decreases |b|
  {
    if b == [] {
      assert a + b == a;
    } else {
      var b' := b[..|b| - 1];
      WithoutDistributes(a, b', t);
      assert (a + b)[..|a + b| - 1] == a + b';
    }
  }

  /** Filtering out a ticker that is not there changes nothing. */
  lemma {:induction false} WithoutAbsent(s: seq<string>, t: string)
    requires t !in s
    ensures Without(s, t) == s
    decreases |s|
  {
    if s != [] {
      WithoutAbsent(s[..|s| - 1], t);
      assert s[..|s| - 1] + [s[|s| - 1]] == s;
    }
  }

  /** Filtering keeps every other ticker as many times as it occurred. */
  lemma {:induction false} WithoutKeepsOthers(s: seq<string>, t: string, x: string)
    requires x != t
    ensures multiset(Without(s, t))[x] == multiset(s)[x]
    decreases |s|
  {
    if s != [] {
      var init := s[..|s| - 1];
      WithoutKeepsOthers(init, t, x);
      assert s == init + [s[|s| - 1]];
    }
  }

  /** No ticker occurs twice. */
  ghost predicate NoDuplicates(s: seq<string>)
  {
    forall i, j :: 0 <= i < j < |s| ==> s[i] != s[j]
  }

  /** Filtering never creates a duplicate. */
  lemma {:induction false} WithoutNoDuplicates(s: seq<string>, t: string)
    requires NoDuplicates(s)
    ensures NoDuplicates(Without(s, t))
    decreases |s|
  {
    if s != [] {
      var init := s[..|s| - 1];
      assert NoDuplicates(init);
      WithoutNoDuplicates(init, t);
      var last := s[|s| - 1];
      if last != t {
        assert last !in init;
        assert last !in Without(init, t);
      }
    }
  }

  /** The ticker-name click handler's new list: drop the ticker if it is
      checked, append it otherwise. The ticker is then checked exactly when
      it was not, and every other ticker exactly when it was. */
  function Toggled(s: seq<string>, t: string): (r: seq<string>)
    ensures t in r <==> t !in s
    ensures forall x :: x != t ==> (x in r <==> x in s)
  {
    if t in s then Without(s, t) else s + [t]
  }

  /** After a toggle every other ticker occurs as often as before, and in
      the same order: the list is filtered or appended to. */
  lemma ToggleFlipsOnlyTicker(s: seq<string>, t: string)
    ensures forall x :: x != t ==> multiset(Toggled(s, t))[x] == multiset(s)[x]
    ensures t in s ==> Toggled(s, t) == Without(s, t)
    ensures t !in s ==> Toggled(s, t) == s + [t]
  {
    forall x | x != t
      ensures multiset(Toggled(s, t))[x] == multiset(s)[x]
    {
      if t in s {
        WithoutKeepsOthers(s, t, x);
      }
    }
  }

  /** Checking an unchecked ticker and unchecking it again restores the
      list exactly. */
  lemma ToggleTwiceRestores(s: seq<string>, t: string)
    requires t !in s
    ensures Toggled(Toggled(s, t), t) == s
  {
    WithoutDistributes(s, [t], t);
    WithoutAbsent(s, t);
    assert Without([t], t) == [];
  }

  /** A list without duplicates stays without duplicates. */
  lemma ToggleNoDuplicates(s: seq<string>, t: string)
    requires NoDuplicates(s)
    ensures NoDuplicates(Toggled(s, t))
  {
    if t in s {
      WithoutNoDuplicates(s, t);
    }
  }

  /** The checked tickers, restored from browser storage when the page
      loads and updated by the handlers. */
  class CheckedList {
    var tickers: seq<string>

    /** The list the page starts from: what storage held. */
    constructor (stored: seq<string>)
      ensures tickers == stored
    {
      tickers := stored;
    }

    /** Clicking a ticker name: copy the list, remove or push, and replace
        the state with the copy. */
    method Toggle(ticker: string)
      modifies this
      ensures tickers == Toggled(old(tickers), ticker)
    {
      var newList := tickers;
      if ticker in newList {
        newList := Without(newList, ticker);
      } else {
        newList := newList + [ticker];
      }
      tickers := newList;
    }

    /** Clicking a row: copy the list and push the ticker if absent. The
        copy goes to storage for when the user comes back; the page's own
        list is left alone because the page is left. */
    method StockClick(ticker: string) returns (storage: seq<string>)
      ensures ticker in storage
      ensures |tickers| <= |storage| <= |tickers| + 1 && storage[..|tickers|] == tickers
      ensures ticker in tickers ==> storage == tickers
      ensures ticker !in tickers ==> storage == tickers + [ticker]
      ensures NoDuplicates(tickers) ==> NoDuplicates(storage)
    {
      storage := tickers;
      if ticker !in storage {
        storage := storage + [ticker];
      }
    }

    /** "Cancel all", after the user confirms: the list becomes empty. */
    method CancelAll(confirmed: bool)
      modifies this
      ensures tickers == if confirmed then [] else old(tickers)
    {
      if !confirmed {
        return;
      }
      tickers := [];
    }
  }

  /** One table row: the stock, and whether it is highlighted as checked. */
  datatype Row = Row(stock: Stock, checked: bool)

  /** The table body: one row per stock in the given order, highlighted
      exactly when its ticker is in the checked list. */
  function Rows(stocks: seq<Stock>, checked: seq<string>): (rows: seq<Row>)
    ensures |rows| == |stocks|
    ensures forall i :: 0 <= i < |stocks| ==> rows[i].stock == stocks[i]
    ensures forall i :: 0 <= i < |stocks| ==> (rows[i].checked <==> stocks[i].ticker in checked)
    decreases |stocks|
  {
    if stocks == [] then []
    else [Row(stocks[0], stocks[0].ticker in checked)] + Rows(stocks[1..], checked)
  }

  /** Ascending PBR from left to right. */
  ghost predicate SortedByPbr(s: seq<Stock>)
  {
    forall i, j :: 0 <= i < j < |s| ==> s[i].pbr <= s[j].pbr
  }

  /** `data.sort((a, b) => a.pbr - b.pbr)`: sorts the fetched stock list in
      place, by insertion. */
  method SortByPbr(a: array<Stock>)
    modifies a
    ensures SortedByPbr(a[..])
    ensures multiset(a[..]) == old(multiset(a[..]))
  {
    if a.Length == 0 {
      return;
    }
    var i := 1;
    while i < a.Length
      invariant 1 <= i <= a.Length
      invariant SortedByPbr(a[..i])
      invariant multiset(a[..]) == old(multiset(a[..]))
    {
      InsertIntoSorted(a, i);
      i := i + 1;
    }
    assert a[..i] == a[..];
  }

  /** One insertion step: a[i] moves left past the larger elements of the
      sorted prefix a[..i]; what lies beyond i is untouched. */
  method InsertIntoSorted(a: array<Stock>, i: int)
    requires 0 < i < a.Length
    requires SortedByPbr(a[..i])
    modifies a
    ensures SortedByPbr(a[..i + 1])
    ensures multiset(a[..]) == old(multiset(a[..]))
    ensures a[i + 1..] == old(a[i + 1..])
  {
    var j := i;
    while j > 0 && a[j - 1].pbr > a[j].pbr
      invariant 0 <= j <= i
      invariant forall k, l :: 0 <= k < l <= i && k != j && l != j ==> a[k].pbr <= a[l].pbr
      invariant forall l :: j < l <= i ==> a[j].pbr <= a[l].pbr
      invariant multiset(a[..]) == old(multiset(a[..]))
      invariant a[i + 1..] == old(a[i + 1..])
    {
      SwapAdjacent(a, j);
      j := j - 1;
    }
  }

  /** Exchanges a[j - 1] and a[j]. */
  method SwapAdjacent(a: array<Stock>, j: int)
    requires 0 < j < a.Length
    modifies a
    ensures a[..] == old(a[..])[j - 1 := old(a[j])][j := old(a[j - 1])]
    ensures multiset(a[..]) == old(multiset(a[..]))
  {
    a[j - 1], a[j] := a[j], a[j - 1];
  }
}

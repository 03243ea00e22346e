/** The currency window of ApiCSV.py and ApiCSVConvert.py (the two copies
    are the same here): which currencies occur often enough to need rates,
    the oldest and newest vacancies in such a currency, and the months
    between them for which the bank is asked. */
module CurrencyWindow {
  import opened Wrappers
  import opened Text
  import opened Numbers
  import opened Dicts
  import opened Ranking
  import opened Timestamp
  import opened Analysis

  /** The currencies `get_count_amount` counts, in order: those that are
      neither NaN nor "RUR". */
  function ForeignCodes(cs: seq<Option<string>>): (r: seq<string>)
    ensures forall c :: c in r <==> Some(c) in cs && c != "RUR"
  {
    if |cs| == 0 then []
    else
      var last := cs[|cs| - 1];
      assert forall x :: x in cs <==> x in cs[..|cs| - 1] || x == last;
      ForeignCodes(cs[..|cs| - 1]) + (if last.Some? && last.value != "RUR" then [last.value] else [])
  }

  lemma {:induction false} ForeignCodesSnoc(cs: seq<Option<string>>, x: nat)
    requires x < |cs|
    ensures ForeignCodes(cs[..x + 1]) == ForeignCodes(cs[..x]) + (if cs[x].Some? && cs[x].value != "RUR" then [cs[x].value] else [])
  {
    assert cs[..x + 1][..x] == cs[..x];
  }

  /** One step of the counting loop over `cs`: row `x` adds one to its
      code's count, or leaves the count alone when it is NaN or RUR. */
  lemma CountStep(cs: seq<Option<string>>, x: nat)
    requires x < |cs|
    ensures cs[x].Some? && cs[x].value != "RUR" ==>
      Counted(ForeignCodes(cs[..x + 1])) == Bump(Counted(ForeignCodes(cs[..x])), cs[x].value)
    ensures !(cs[x].Some? && cs[x].value != "RUR") ==>
      Counted(ForeignCodes(cs[..x + 1])) == Counted(ForeignCodes(cs[..x]))
  {
    ForeignCodesSnoc(cs, x);
    if cs[x].Some? && cs[x].value != "RUR" {
      CountIntoSnoc(Empty(), ForeignCodes(cs[..x]), cs[x].value);
    } else {
      assert ForeignCodes(cs[..x + 1]) == ForeignCodes(cs[..x]);
    }
  }

  /** `[x for x in d.items() if x[1] > n]`. */
  function Above(items: seq<(string, nat)>, n: int): (r: seq<(string, nat)>)
    ensures forall p :: p in r <==> p in items && p.1 > n
    ensures Distinct(Firsts(items)) ==> Distinct(Firsts(r))
  {
    if |items| == 0 then []
    else
      var front, last := items[..|items| - 1], items[|items| - 1];
      assert forall p :: p in items <==> p in front || p == last;
      assert Firsts(front) == Firsts(items)[..|items| - 1];
      Above(front, n) + (if last.1 > n then [last] else [])
  }

  /** The sort key of a (code, count) item: the code. */
  function ByCode(p: (string, nat)): Key
  {
    Str(p.0)
  }

  /** The dict `get_count_amount` leaves: the counts above 5000, sorted by
      code. */
  function Amounts(cs: seq<Option<string>>): (d: Dict<string, nat>)
    ensures d.Valid()
  {
    var frequent := OfItems(Above(Items(Counted(ForeignCodes(cs))), 5000));
    OfItems(StableSort(Items(frequent), ByCode, false))
  }

  /** `dict([x for x in d.items() if x[1] > n])` keeps the keys whose value
      is above `n`, with their values. */
  lemma AboveOfDict(d: Dict<string, nat>, n: int)
    requires d.Valid()
    ensures forall c :: c in OfItems(Above(Items(d), n)).values <==> c in d.values && d.values[c] > n
    ensures forall c :: c in OfItems(Above(Items(d), n)).values ==> OfItems(Above(Items(d), n)).values[c] == d.values[c]
  {
    ItemsMembers(d);
    assert Firsts(Items(d)) == d.keys;
    var above := Above(Items(d), n);
    OfDistinctItems(above);
    var r := OfItems(above);
    forall c | c in r.values ensures c in d.values && d.values[c] > n && r.values[c] == d.values[c] {
      var i :| 0 <= i < |r.keys| && r.keys[i] == c;
      assert above[i] in above;
    }
    forall c | c in d.values && d.values[c] > n ensures c in r.values {
      assert (c, d.values[c]) in above;
    }
  }

  /** `get_count_amount` keeps exactly the currencies other than NaN and
      RUR that occur more than 5000 times, each with its count. */
  lemma AmountsMembers(cs: seq<Option<string>>)
    ensures forall c :: c in Amounts(cs).values <==> c != "RUR" && Occurrences(ForeignCodes(cs), c) > 5000
    ensures forall c :: c in Amounts(cs).values ==> Amounts(cs).values[c] == Occurrences(ForeignCodes(cs), c)
  {
    var codes := ForeignCodes(cs);
    var tally := Counted(codes);
    CountedIsOccurrences(codes);
    AboveOfDict(tally, 5000);
    var frequent := OfItems(Above(Items(tally), 5000));
    SortedDictValues(frequent, ByCode, false);
    forall c | Occurrences(codes, c) > 0 ensures c in codes {
      if c !in codes {
        OccurrencesAbsent(codes, c);
      }
    }
  }

  /** The kept currencies come in strictly ascending order of code. */
  lemma AmountsOrder(cs: seq<Option<string>>)
    ensures var d := Amounts(cs);
      forall i, j :: 0 <= i < j < |d.keys| ==> LexLe(d.keys[i], d.keys[j]) && d.keys[i] != d.keys[j]
  {
    var frequent := OfItems(Above(Items(Counted(ForeignCodes(cs))), 5000));
    var sorted := StableSort(Items(frequent), ByCode, false);
    SortedItemsOrder(frequent, ByCode, false);
    OfDistinctItems(sorted);
    var d := Amounts(cs);
    forall i, j | 0 <= i < j < |d.keys| ensures LexLe(d.keys[i], d.keys[j]) && d.keys[i] != d.keys[j] {
      assert d.keys[i] == Firsts(sorted)[i] == sorted[i].0;
      assert d.keys[j] == Firsts(sorted)[j] == sorted[j].0;
      assert Le(ByCode(sorted[i]), ByCode(sorted[j]), false);
    }
  }

  /** The row at `x` of the sorted frame has a currency that
      `dict_of_amount` kept (a NaN currency is never a key). */
  predicate KeptAt(currencies: seq<Option<string>>, kept: Dict<string, nat>, x: int)
  {
    0 <= x < |currencies| && currencies[x].Some? && currencies[x].value in kept.values
  }

  /** The position in `order` of the first row whose currency was kept. */
  function FirstKept(currencies: seq<Option<string>>, kept: Dict<string, nat>, order: seq<int>): (r: Option<nat>)
    ensures r.Some? ==> r.value < |order| && KeptAt(currencies, kept, order[r.value])
    ensures r.Some? ==> forall j :: 0 <= j < r.value ==> !KeptAt(currencies, kept, order[j])
    ensures r.None? ==> forall j :: 0 <= j < |order| ==> !KeptAt(currencies, kept, order[j])
  {
    if |order| == 0 then None
    else if KeptAt(currencies, kept, order[0]) then Some(0)
    else
      match FirstKept(currencies, kept, order[1..])
      case None => None
      case Some(k) => Some(k + 1)
  }

  /** `range(n)`, the order of `older_date`. */
  function Ascending(n: nat): (r: seq<int>)
    ensures |r| == n && forall i :: 0 <= i < n ==> r[i] == i
  {
    seq(n, i => i)
  }

  /** `range(n - 1, -1, -1)`, the order of `newest_date`. */
  function Descending(n: nat): (r: seq<int>)
    ensures |r| == n && forall i :: 0 <= i < n ==> r[i] == n - 1 - i
  {
    seq(n, i => n - 1 - i)
  }

  /** Both searches find a row exactly when some row is kept, and the row
      the oldest-first scan finds comes no later than the one the
      newest-first scan finds. */
  lemma SearchesMeet(currencies: seq<Option<string>>, kept: Dict<string, nat>)
    ensures var n := |currencies|;
      FirstKept(currencies, kept, Ascending(n)).Some? <==> FirstKept(currencies, kept, Descending(n)).Some?
    ensures var n := |currencies|;
      FirstKept(currencies, kept, Ascending(n)).Some? ==>
        FirstKept(currencies, kept, Ascending(n)).value <= n - 1 - FirstKept(currencies, kept, Descending(n)).value
  {
    var n := |currencies|;
    var up, down := FirstKept(currencies, kept, Ascending(n)), FirstKept(currencies, kept, Descending(n));
    if up.Some? {
      assert Descending(n)[n - 1 - up.value] == up.value;
    }
    if down.Some? {
      var b := down.value;
      assert Descending(n)[b] == n - 1 - b;
      assert Ascending(n)[n - 1 - b] == n - 1 - b;
    }
  }

  /** Dates in `sort_values` order. */
  predicate DatesSorted(publishedAt: seq<string>)
  {
    forall i, j :: 0 <= i < j < |publishedAt| ==> LexLe(publishedAt[i], publishedAt[j])
  }

  /** A row of the vacancy frame: its `salary_currency`, `None` for NaN,
      and its `published_at`. */
  type FrameRow = (Option<string>, string)

  /** `sort_values(by='published_at')` orders the rows by that text. */
  function ByPublished(row: FrameRow): Key
  {
    Str(row.1)
  }

  function CurrencyColumn(rows: seq<FrameRow>): (c: seq<Option<string>>)
    ensures |c| == |rows| && forall i :: 0 <= i < |rows| ==> c[i] == rows[i].0
  {
    seq(|rows|, i requires 0 <= i < |rows| => rows[i].0)
  }

  function DateColumn(rows: seq<FrameRow>): (c: seq<string>)
    ensures |c| == |rows| && forall i :: 0 <= i < |rows| ==> c[i] == rows[i].1
  {
    seq(|rows|, i requires 0 <= i < |rows| => rows[i].1)
  }

  /** The sorted frame holds the rows of the frame, with `published_at`
      non-decreasing. */
  lemma SortedFrame(frame: seq<FrameRow>)
    ensures var sorted := StableSort(frame, ByPublished, false);
      && multiset(sorted) == multiset(frame)
      && DatesSorted(DateColumn(sorted))
  {
    var sorted := StableSort(frame, ByPublished, false);
    SortPermutes(frame, ByPublished, false);
    SortSorts(frame, ByPublished, false);
    forall i, j | 0 <= i < j < |sorted| ensures LexLe(DateColumn(sorted)[i], DateColumn(sorted)[j]) {
      assert Le(ByPublished(sorted[i]), ByPublished(sorted[j]), false);
    }
  }

  /** What `get_date_in_format` returns when it scans the rows in `order`:
      the date of the first row whose currency was kept, `None` when there
      is none, or the row whose `published_at` `strptime` rejects. */
  function DateFound(currencies: seq<Option<string>>, publishedAt: seq<string>, kept: Dict<string, nat>, order: seq<int>)
    : (r: Result<Option<DateTime>, nat>)
    requires |publishedAt| == |currencies|
    ensures r.Err? ==> exists k :: 0 <= k < |order| && order[k] == r.error && KeptAt(currencies, kept, r.error)
    ensures r == Ok(None) <==> FirstKept(currencies, kept, order).None?
  {
    match FirstKept(currencies, kept, order)
    case None => Ok(None)
    case Some(k) =>
      var x := order[k];
      if Parse(publishedAt[x]).Some? then Ok(Some(Parse(publishedAt[x]).value)) else Err(x)
  }

  /** On rows sorted by `published_at`, the oldest-first scan finds the
      earliest row whose currency was kept and the newest-first scan the
      latest: `older_date` and `newest_date` bracket every kept row. */
  lemma OldestAndNewest(currencies: seq<Option<string>>, publishedAt: seq<string>, kept: Dict<string, nat>)
    requires |publishedAt| == |currencies|
    requires DatesSorted(publishedAt)
    ensures var n, up := |currencies|, FirstKept(currencies, kept, Ascending(|currencies|));
      up.Some? ==> forall y :: KeptAt(currencies, kept, y) ==> LexLe(publishedAt[Ascending(n)[up.value]], publishedAt[y])
    ensures var n, down := |currencies|, FirstKept(currencies, kept, Descending(|currencies|));
      down.Some? ==> forall y :: KeptAt(currencies, kept, y) ==> LexLe(publishedAt[y], publishedAt[Descending(n)[down.value]])
  {
    var n := |currencies|;
    var up, down := FirstKept(currencies, kept, Ascending(n)), FirstKept(currencies, kept, Descending(n));
    if up.Some? {
      var x := up.value;
      assert Ascending(n)[x] == x;
      forall y | KeptAt(currencies, kept, y) ensures LexLe(publishedAt[x], publishedAt[y]) {
        assert x <= y by { assert Ascending(n)[y] == y; }
        if y == x {
          KeyLeReflexive(Str(publishedAt[x]));
        }
      }
    }
    if down.Some? {
      var b := down.value;
      var x := n - 1 - b;
      assert Descending(n)[b] == x;
      forall y | KeptAt(currencies, kept, y) ensures LexLe(publishedAt[y], publishedAt[x]) {
        assert y <= x by { assert Descending(n)[n - 1 - y] == y; }
        if y == x {
          KeyLeReflexive(Str(publishedAt[x]));
        }
      }
    }
  }

  /** `DataSet`: the vacancy frame sorted by `published_at`, the counts of
      `get_count_amount`, and the dates of the oldest and the newest
      vacancy in a kept currency. */
  class DataSet {
    /** `dataframe_sort['salary_currency']`, `None` for NaN. */
    const currencies: seq<Option<string>>
    /** `dataframe_sort['published_at']`. */
    const publishedAt: seq<string>
    /** `dict_of_amount`. */
    var dictOfAmount: Dict<string, nat>
    /** `older_date` and `newest_date`; an error names the row whose date
        does not parse. */
    var olderDate: Result<Option<DateTime>, nat>
    var newestDate: Result<Option<DateTime>, nat>

    ghost predicate Valid()
      reads this
    {
      |publishedAt| == |currencies| && dictOfAmount.Valid() && DatesSorted(publishedAt)
    }

    /** `__init__`: sort the frame by `published_at`, count the currencies,
        then scan for the oldest and the newest date. */
    constructor (frame: seq<FrameRow>)
      ensures Valid()
      ensures currencies == CurrencyColumn(StableSort(frame, ByPublished, false))
      ensures publishedAt == DateColumn(StableSort(frame, ByPublished, false))
      ensures dictOfAmount == Amounts(currencies)
      ensures olderDate == DateFound(currencies, publishedAt, dictOfAmount, Ascending(|currencies|))
      ensures newestDate == DateFound(currencies, publishedAt, dictOfAmount, Descending(|currencies|))
    {
      var sorted := StableSort(frame, ByPublished, false);
      SortedFrame(frame);
      currencies := CurrencyColumn(sorted);
      publishedAt := DateColumn(sorted);
      dictOfAmount := Empty();
      olderDate := Ok(None);
      newestDate := Ok(None);
      new;
      GetCountAmount();
      olderDate := GetDateInFormat(Ascending(|currencies|));
      newestDate := GetDateInFormat(Descending(|currencies|));
    }

    /** `get_count_amount`: count every currency but NaN and RUR, keep the
        counts above 5000 and sort them by code. */
    method GetCountAmount()
      requires Valid() && dictOfAmount == Empty()
      modifies this
      ensures Valid()
      ensures dictOfAmount == Amounts(currencies)
    {
      for x := 0 to |currencies|
        invariant dictOfAmount == Counted(ForeignCodes(currencies[..x]))
      {
        var key := currencies[x];
        CountStep(currencies, x);
        if key.Some? && key.value != "RUR" {
          var k := key.value;
          PutZeroThenAdd(dictOfAmount, k);
          if k !in dictOfAmount.values {
            dictOfAmount := Put(dictOfAmount, k, 0);
          }
          dictOfAmount := Put(dictOfAmount, k, dictOfAmount.values[k] + 1);
        }
      }
      assert currencies[..|currencies|] == currencies;
      dictOfAmount := OfItems(Above(Items(dictOfAmount), 5000));
      dictOfAmount := OfItems(StableSort(Items(dictOfAmount), ByCode, false));
    }

    /** `get_date_in_format`: the scan of the rows in `order`. */
    method GetDateInFormat(order: seq<int>) returns (r: Result<Option<DateTime>, nat>)
      requires Valid()
      requires forall j :: 0 <= j < |order| ==> 0 <= order[j] < |currencies|
      ensures r == DateFound(currencies, publishedAt, dictOfAmount, order)
    {
      for k := 0 to |order|
        invariant forall j :: 0 <= j < k ==> !KeptAt(currencies, dictOfAmount, order[j])
      {
        var x := order[k];
        if currencies[x].Some? && currencies[x].value in dictOfAmount.values {
          var date := Parse(publishedAt[x]);
          if date.None? {
            return Err(x);
          }
          return Ok(Some(date.value));
        }
      }
      return Ok(None);
    }
  }

  /** A month counted from January of year 0. */
  function MonthIndex(year: nat, month: nat): int
  {
    12 * year + month - 1
  }

  /** The year and the month read back from a month's index. */
  lemma MonthIndexParts(year: nat, month: nat)
    requires 1 <= month <= 12
    ensures MonthIndex(year, month) >= 0
    ensures MonthIndex(year, month) / 12 == year && MonthIndex(year, month) % 12 + 1 == month
  {
  }

  /** `strftime('%m/%Y')` of the first day of month `k`. */
  function Label(k: nat): string
  {
    Pad(k % 12 + 1, 2) + "/" + Pad(k / 12, 4)
  }

  /** The labels of the months `first` to `last`, both included: none when
      `first` comes after `last`. */
  function Interval(first: nat, last: int): (r: seq<string>)
    ensures |r| == if first <= last then last - first + 1 else 0
    ensures forall i :: 0 <= i < |r| ==> r[i] == Label(first + i)
  {
    seq(if first <= last then last - first + 1 else 0, i requires 0 <= i => Label(first + i))
  }

  /** One more month at the end of an interval is one more label. */
  lemma IntervalSnoc(first: nat, last: int)
    requires first <= last + 1
    ensures Interval(first, last + 1) == Interval(first, last) + [Label(last + 1)]
  {
    var a, b := Interval(first, last + 1), Interval(first, last) + [Label(last + 1)];
    assert |a| == |b|;
    forall i | 0 <= i < |a| ensures a[i] == b[i] {
      if i < |a| - 1 {
        assert b[i] == Interval(first, last)[i];
      }
    }
  }

  /** The interval grows by the label "MM/YYYY" of its next month. */
  lemma IntervalNext(first: nat, n: nat, year: nat, month: nat)
    requires 1 <= month <= 12 && MonthIndex(year, month) == first + n
    ensures Interval(first, first + n) == Interval(first, first + n - 1) + [Pad(month, 2) + "/" + Pad(year, 4)]
  {
    IntervalSnoc(first, first + n - 1);
    LabelOfMonth(year, month);
  }

  /** The order of `datetime.date`: year, then month, then day. */
  predicate DateBefore(y1: nat, m1: nat, d1: nat, y2: nat, m2: nat, d2: nat)
  {
    y1 < y2 || (y1 == y2 && (m1 < m2 || (m1 == m2 && d1 < d2)))
  }

  /** The label of a month's index is its "MM/YYYY". */
  lemma LabelOfMonth(year: nat, month: nat)
    requires 1 <= month <= 12
    ensures MonthIndex(year, month) >= 0
    ensures Label(MonthIndex(year, month)) == Pad(month, 2) + "/" + Pad(year, 4)
  {
    MonthIndexParts(year, month);
  }

  /** The month after December is January of the next year. */
  lemma NextMonth(year: nat, month: nat)
    requires 1 <= month <= 12
    ensures month == 12 ==> MonthIndex(year + 1, 1) == MonthIndex(year, month) + 1
    ensures month < 12 ==> MonthIndex(year, month + 1) == MonthIndex(year, month) + 1
  {
  }

  /** Comparing the first of one month with the 28th of another is
      comparing the months. */
  lemma MonthBefore(y1: nat, m1: nat, y2: nat, m2: nat)
    requires 1 <= m1 <= 12 && 1 <= m2 <= 12
    ensures DateBefore(y1, m1, 1, y2, m2, 28) <==> MonthIndex(y1, m1) <= MonthIndex(y2, m2)
  {
    if y1 < y2 {
      assert 12 * y1 + 12 <= 12 * y2;
    } else if y1 > y2 {
      assert 12 * y2 + 12 <= 12 * y1;
    }
  }

  /** `get_year_interval`: from the first of the start month, one month at
      a time while the date is before the 28th of the end month, the
      labels "MM/YYYY" of every month from the start date's to the end
      date's. */
  method YearInterval(start: DateTime, end: DateTime) returns (dates: seq<string>)
    requires ValidDateTime(start) && ValidDateTime(end)
    ensures dates == Interval(MonthIndex(start.year, start.month), MonthIndex(end.year, end.month))
  {
    ghost var first, last := MonthIndex(start.year, start.month), MonthIndex(end.year, end.month);
    dates := [];
    var year, month, day := start.year, start.month, 1;
    var endYear, endMonth, endDay := end.year, end.month, 28;
    while DateBefore(year, month, day, endYear, endMonth, endDay)
      invariant 1 <= month <= 12 && day == 1
      invariant MonthIndex(year, month) == first + |dates|
      invariant |dates| > 0 ==> MonthIndex(year, month) <= last + 1
      invariant dates == Interval(first, first + |dates| - 1)
      decreases last + 1 - MonthIndex(year, month)
    {
      MonthBefore(year, month, endYear, endMonth);
      NextMonth(year, month);
      IntervalNext(first, |dates|, year, month);
      dates := dates + [Pad(month, 2) + "/" + Pad(year, 4)];
      if month == 12 {
        year, month := year + 1, 1;
      } else {
        month := month + 1;
      }
    }
    MonthBefore(year, month, endYear, endMonth);
  }

  /** A label has the month at 0..2 and the year at 3..7, and reads back to
      them. */
  lemma LabelReadsBack(k: nat)
    requires k / 12 < 10000
    ensures var l := Label(k);
      |l| == 7 && l[2] == '/'
      && DigitsAt(l, 0, 2) && NumAt(l, 0, 2) == k % 12 + 1
      && DigitsAt(l, 3, 4) && NumAt(l, 3, 4) == k / 12
  {
    var l := Label(k);
    assert Pow10(2) == 100 && Pow10(4) == 10000;
    assert l[0..2] == Pad(k % 12 + 1, 2);
    assert l[3..7] == Pad(k / 12, 4);
    PadAt(l, 0, k % 12 + 1, 2);
    PadAt(l, 3, k / 12, 4);
  }

  /** Two months of years below 10000 have the same label only when they
      are the same month. */
  lemma LabelInjective(a: nat, b: nat)
    requires a / 12 < 10000 && b / 12 < 10000
    ensures Label(a) == Label(b) <==> a == b
  {
    if Label(a) == Label(b) {
      LabelReadsBack(a);
      LabelReadsBack(b);
    }
  }

  /** The window asks for no month twice. */
  lemma IntervalDistinct(first: nat, last: int)
    requires last / 12 < 10000
    ensures Distinct(Interval(first, last))
  {
    var r := Interval(first, last);
    forall i, j | 0 <= i < j < |r| ensures r[i] != r[j] {
      LabelInjective(first + i, first + j);
    }
  }

  /** The window is empty exactly when the start month comes after the end
      month; otherwise it opens with the start month and closes with the
      end month. */
  lemma IntervalEnds(start: DateTime, end: DateTime)
    requires ValidDateTime(start) && ValidDateTime(end)
    ensures var r := Interval(MonthIndex(start.year, start.month), MonthIndex(end.year, end.month));
      (|r| == 0 <==> DateBefore(end.year, end.month, 1, start.year, start.month, 1))
      && (|r| > 0 ==>
            DigitsAt(r[0], 0, 2) && NumAt(r[0], 0, 2) == start.month
            && DigitsAt(r[0], 3, 4) && NumAt(r[0], 3, 4) == start.year
            && DigitsAt(r[|r| - 1], 0, 2) && NumAt(r[|r| - 1], 0, 2) == end.month
            && DigitsAt(r[|r| - 1], 3, 4) && NumAt(r[|r| - 1], 3, 4) == end.year)
  {
    MonthIndexParts(start.year, start.month);
    MonthIndexParts(end.year, end.month);
    LabelReadsBack(MonthIndex(start.year, start.month));
    LabelReadsBack(MonthIndex(end.year, end.month));
  }

  /** Each label of the window is the calendar month after the one before
      it. */
  lemma IntervalSteps(first: nat, last: int, i: nat)
    requires last / 12 < 10000 && i + 1 < |Interval(first, last)|
    ensures var a, b := Interval(first, last)[i], Interval(first, last)[i + 1];
      DigitsAt(a, 0, 2) && DigitsAt(a, 3, 4) && DigitsAt(b, 0, 2) && DigitsAt(b, 3, 4)
      && (NumAt(a, 0, 2) == 12 ==> NumAt(b, 0, 2) == 1 && NumAt(b, 3, 4) == NumAt(a, 3, 4) + 1)
      && (NumAt(a, 0, 2) != 12 ==> NumAt(b, 0, 2) == NumAt(a, 0, 2) + 1 && NumAt(b, 3, 4) == NumAt(a, 3, 4))
  {
    LabelReadsBack(first + i);
    LabelReadsBack(first + i + 1);
  }

  /** Every date from the start date to the end date has its month in the
      window. */
  lemma IntervalCovers(start: DateTime, end: DateTime, t: DateTime)
    requires ValidDateTime(start) && ValidDateTime(end) && ValidDateTime(t)
    requires !DateBefore(t.year, t.month, t.day, start.year, start.month, start.day)
    requires !DateBefore(end.year, end.month, end.day, t.year, t.month, t.day)
    ensures Label(MonthIndex(t.year, t.month)) in Interval(MonthIndex(start.year, start.month), MonthIndex(end.year, end.month))
  {
    var first := MonthIndex(start.year, start.month);
    var r := Interval(first, MonthIndex(end.year, end.month));
    assert r[MonthIndex(t.year, t.month) - first] == Label(MonthIndex(t.year, t.month));
  }

  /** `datetime.strptime(date, '%m/%Y').strftime('%Y-%m')`, the `date` of
      a rate row, for labels of the form "MM/YYYY". */
  function RowMonth(date: string): Option<string>
  {
    if |date| == 7 && DigitsAt(date, 0, 2) && date[2] == '/' && DigitsAt(date, 3, 4)
       && 1 <= NumAt(date, 0, 2) <= 12 && 1 <= NumAt(date, 3, 4)
    then Some(Pad(NumAt(date, 3, 4), 4) + "-" + Pad(NumAt(date, 0, 2), 2))
    else None
  }

  /** The rate row written for a vacancy's month has the key that
      `published_at[:7]` gives for that vacancy. */
  lemma RowMonthIsMonthKey(s: string)
    requires Parse(s).Some?
    ensures var t := Parse(s).value;
      RowMonth(Label(MonthIndex(t.year, t.month))) == Some(MonthKey(s))
  {
    var t := Parse(s).value;
    var k := MonthIndex(t.year, t.month);
    MonthIndexParts(t.year, t.month);
    LabelReadsBack(k);
    SlicesAgreeWithParse(s);
  }

  /** Every vacancy published between the two dates finds its month among
      the rate rows the window produces. */
  lemma WindowHasRateRow(start: DateTime, end: DateTime, s: string)
    requires ValidDateTime(start) && ValidDateTime(end) && Parse(s).Some?
    requires var t := Parse(s).value;
      !DateBefore(t.year, t.month, t.day, start.year, start.month, start.day)
      && !DateBefore(end.year, end.month, end.day, t.year, t.month, t.day)
    ensures exists date :: (date in Interval(MonthIndex(start.year, start.month), MonthIndex(end.year, end.month))
      && RowMonth(date) == Some(MonthKey(s)))
  {
    var t := Parse(s).value;
    IntervalCovers(start, end, t);
    RowMonthIsMonthKey(s);
  }
}

/** What the analyst scripts share: reading the year from the start of a
    timestamp, pandas means that skip NaN, `dict_sort` over years and the
    "ten largest values" dict. */
module Analysis {
  import opened Wrappers
  import opened Numbers
  import opened Dicts
  import opened Ranking
  import opened Timestamp
  import opened Conversion

  /** `int(".".join(date[:4].split("-")))`: a '-' among the first four
      characters becomes a '.', which `int` refuses. */
  function DottedYear(date: string): (r: Option<int>)
    ensures r.Some? ==> '-' !in YearText(date)
  {
    if '-' in YearText(date) then None else ParseInt(YearText(date))
  }

  /** `int(date[:4])`. */
  function PlainYear(date: string): Option<int>
  {
    ParseInt(YearText(date))
  }

  /** Both readings give the year of a well-formed timestamp. */
  lemma YearsOfTimestamp(date: string)
    requires Parse(date).Some?
    ensures DottedYear(date) == Some(Parse(date).value.year)
    ensures PlainYear(date) == Some(Parse(date).value.year)
  {
    SlicesAgreeWithParse(date);
    var y := YearText(date);
    assert y == date[..10][0..4];
    assert AllDigits(y);
    assert '-' !in y by {
      forall i | 0 <= i < |y| ensures y[i] != '-' {
        assert IsDigit(y[i]);
      }
    }
  }

  /** `list(dataframe["years"].unique())`: the years of the rows in order of
      first occurrence, or `None` when some row's year does not parse. */
  function YearsList(rows: seq<VacancyRow>): (r: Option<seq<int>>)
    ensures r.Some? <==> forall i :: 0 <= i < |rows| ==> DottedYear(rows[i].publishedAt).Some?
    ensures r.Some? ==> Distinct(r.value)
    ensures r.Some? ==> forall y :: y in r.value <==> exists i :: 0 <= i < |rows| && DottedYear(rows[i].publishedAt) == Some(y)
  {
    if forall i :: 0 <= i < |rows| ==> DottedYear(rows[i].publishedAt).Some? then
      var years := seq(|rows|, i requires 0 <= i < |rows| => DottedYear(rows[i].publishedAt).value);
      assert forall y :: y in years <==> exists i :: 0 <= i < |rows| && DottedYear(rows[i].publishedAt) == Some(y) by {
        forall y | y in years ensures exists i :: 0 <= i < |rows| && DottedYear(rows[i].publishedAt) == Some(y) {
          var i :| 0 <= i < |years| && years[i] == y;
          assert DottedYear(rows[i].publishedAt) == Some(y);
        }
        forall y | exists i :: 0 <= i < |rows| && DottedYear(rows[i].publishedAt) == Some(y) ensures y in years {
          var i :| 0 <= i < |rows| && DottedYear(rows[i].publishedAt) == Some(y);
          assert years[i] == y;
        }
      }
      Some(FirstOccurrences(years))
    else None
  }

  /** The salary column of some converted rows. */
  function SalariesOf(rows: seq<ConvertedRow>): seq<Option<real>>
  {
    seq(|rows|, i requires 0 <= i < |rows| => SalaryValue(rows[i].salary))
  }

  /** The numbers of a column; pandas skips NaN when it takes a mean. */
  function Present(xs: seq<Option<real>>): (r: seq<real>)
    ensures |r| <= |xs|
    ensures forall x :: x in r <==> Some(x) in xs
    ensures |r| == |xs| <==> forall i :: 0 <= i < |xs| ==> xs[i].Some?
  {
    if |xs| == 0 then []
    else Present(xs[..|xs| - 1]) + (if xs[|xs| - 1].Some? then [xs[|xs| - 1].value] else [])
  }

  lemma {:induction false} PresentEmpty(xs: seq<Option<real>>)
    ensures |Present(xs)| == 0 <==> forall i :: 0 <= i < |xs| ==> xs[i].None?
  {
    if |xs| > 0 {
      PresentEmpty(xs[..|xs| - 1]);
    }
  }

  /** `int(column.mean())`: the truncated mean of the numbers, `None` when
      there is none, where the mean is NaN and `int` raises. */
  function IntMean(xs: seq<Option<real>>): (r: Option<int>)
    ensures r.None? <==> |Present(xs)| == 0
  {
    var ys := Present(xs);
    if |ys| == 0 then None else Some(MeanTrunc(ys))
  }

  lemma {:induction false} SumRealBetween(ys: seq<real>, lo: real, hi: real)
    requires forall i :: 0 <= i < |ys| ==> lo <= ys[i] <= hi
    ensures |ys| as real * lo <= SumReal(ys) <= |ys| as real * hi
  {
    if |ys| > 0 {
      SumRealBetween(ys[..|ys| - 1], lo, hi);
    }
  }

  lemma {:induction false} PresentBetween(xs: seq<Option<real>>, lo: real, hi: real)
    requires forall i :: 0 <= i < |xs| && xs[i].Some? ==> lo <= xs[i].value <= hi
    ensures forall i :: 0 <= i < |Present(xs)| ==> lo <= Present(xs)[i] <= hi
  {
    if |xs| > 0 {
      PresentBetween(xs[..|xs| - 1], lo, hi);
    }
  }

  /** The mean of salaries between two whole amounts lies between them. */
  lemma IntMeanBetween(xs: seq<Option<real>>, lo: int, hi: int)
    requires IntMean(xs).Some?
    requires forall i :: 0 <= i < |xs| && xs[i].Some? ==> lo as real <= xs[i].value <= hi as real
    ensures lo <= IntMean(xs).value <= hi
  {
    PresentBetween(xs, lo as real, hi as real);
    MeanTruncBetween(Present(xs), lo, hi);
  }

  lemma MeanTruncBetween(ys: seq<real>, lo: int, hi: int)
    requires |ys| > 0
    requires forall i :: 0 <= i < |ys| ==> lo as real <= ys[i] <= hi as real
    ensures lo <= MeanTrunc(ys) <= hi
  {
    SumRealBetween(ys, lo as real, hi as real);
    QuotientBetween(SumReal(ys), |ys| as real, lo as real, hi as real);
  }

  lemma QuotientBetween(s: real, n: real, lo: real, hi: real)
    requires n > 0.0 && n * lo <= s <= n * hi
    ensures lo <= s / n <= hi
  {
    var m := s / n;
    assert s == n * m;
    assert n * lo <= n * m <= n * hi;
  }

  /** The sort key of a (year, value) item: the year. */
  function ByYear(p: (int, int)): Key
  {
    Num(p.0 as real)
  }

  /** `dict_sort`, `{x: d[x] for x in sorted(d)}`, and the
      `dict(sorted(d.items(), key=lambda x: x[0]))` of ConcurrentFutures.py,
      for a dict keyed by year. */
  function DictSort(d: Dict<int, int>): (r: Dict<int, int>)
    requires d.Valid()
    ensures r.Valid()
  {
    OfItems(StableSort(Items(d), ByYear, false))
  }

  /** The sorted items are ordered by the key and their keys stay
      distinct. */
  lemma SortedItemsOrder<K(!new), V>(d: Dict<K, V>, key: ((K, V)) -> Key, desc: bool)
    requires d.Valid()
    ensures Sorted(StableSort(Items(d), key, desc), key, desc)
    ensures Distinct(Firsts(StableSort(Items(d), key, desc)))
  {
    assert Firsts(Items(d)) == d.keys;
    SortSorts(Items(d), key, desc);
    SortKeepsKeys(Items(d), key, desc);
  }

  /** The sorted items are the pairs of the dict, each once. */
  lemma SortedItemsMembers<K(!new), V>(d: Dict<K, V>, key: ((K, V)) -> Key, desc: bool)
    requires d.Valid()
    ensures Distinct(Firsts(StableSort(Items(d), key, desc)))
    ensures |StableSort(Items(d), key, desc)| == |d.keys|
    ensures forall p :: p in StableSort(Items(d), key, desc) <==> p.0 in d.values && p.1 == d.values[p.0]
  {
    var items := Items(d);
    ItemsMembers(d);
    assert Firsts(items) == d.keys;
    var sorted := StableSort(items, key, desc);
    SortKeepsKeys(items, key, desc);
    SortMembers(items, key, desc);
    SortPermutes(items, key, desc);
    assert |sorted| == |items| by {
      assert |multiset(sorted)| == |multiset(items)|;
    }
  }

  /** Rebuilding a dict from its sorted items keeps every key with its
      value. */
  lemma SortedDictValues<K(!new), V>(d: Dict<K, V>, key: ((K, V)) -> Key, desc: bool)
    requires d.Valid()
    ensures OfItems(StableSort(Items(d), key, desc)).values == d.values
  {
    var sorted := StableSort(Items(d), key, desc);
    SortedItemsMembers(d, key, desc);
    OfDistinctItems(sorted);
    var r := OfItems(sorted);
    forall k | k in r.values ensures k in d.values && r.values[k] == d.values[k] {
      var i :| 0 <= i < |r.keys| && r.keys[i] == k;
      assert sorted[i] in sorted && sorted[i].0 == k;
    }
    forall k | k in d.values ensures k in r.values {
      assert (k, d.values[k]) in sorted;
      var i :| 0 <= i < |sorted| && sorted[i] == (k, d.values[k]);
      assert r.keys[i] == k;
    }
  }

  /** Sorting keeps every year with its value. */
  lemma DictSortValues(d: Dict<int, int>)
    requires d.Valid()
    ensures DictSort(d).values == d.values
  {
    SortedDictValues(d, ByYear, false);
  }

  /** The sorted dict has its years in increasing order. */
  lemma DictSortOrder(d: Dict<int, int>)
    requires d.Valid()
    ensures forall i, j :: 0 <= i < j < |DictSort(d).keys| ==> DictSort(d).keys[i] < DictSort(d).keys[j]
  {
    var sorted := StableSort(Items(d), ByYear, false);
    SortedItemsOrder(d, ByYear, false);
    OfDistinctItems(sorted);
    var r := DictSort(d);
    forall i, j | 0 <= i < j < |r.keys| ensures r.keys[i] < r.keys[j] {
      assert Le(ByYear(sorted[i]), ByYear(sorted[j]), false);
      assert r.keys[i] == Firsts(sorted)[i] == sorted[i].0;
      assert r.keys[j] == Firsts(sorted)[j] == sorted[j].0;
    }
  }

  /** `{k: v for k, v in sorted(d.items(), key=lambda item: item[1],
      reverse=True)[:10]}`: `sort_dict_area`, `get_sorted_for_area_dict` and
      the `islice(..., 10)` of ConcurrentFutures.py. */
  function TopByValue<K(!new)>(d: Dict<K, int>): (r: Dict<K, int>)
    requires d.Valid()
    ensures r.Valid()
  {
    OfItems(Take(StableSort(Items(d), ByValue, true), 10))
  }

  /** At most ten pairs: all of them when the input has no more than ten. */
  lemma TopByValueSize<K(!new)>(d: Dict<K, int>)
    requires d.Valid()
    ensures |TopByValue(d).keys| == if |d.keys| < 10 then |d.keys| else 10
  {
    SortedItemsOrder(d, ByValue, true);
    SortedItemsMembers(d, ByValue, true);
    TopPrefix(StableSort(Items(d), ByValue, true), 10);
  }

  /** Every kept pair is an input pair. */
  lemma TopByValueKept<K(!new)>(d: Dict<K, int>)
    requires d.Valid()
    ensures forall k :: k in TopByValue(d).values ==> k in d.values && TopByValue(d).values[k] == d.values[k]
  {
    var sorted := StableSort(Items(d), ByValue, true);
    SortedItemsOrder(d, ByValue, true);
    SortedTopMembers(sorted, 10);
    assert forall k :: k in OfItems(Take(sorted, 10)).values ==> (k, OfItems(Take(sorted, 10)).values[k]) in sorted;
    assert forall p :: p in sorted ==> p.0 in d.values && p.1 == d.values[p.0] by {
      SortedItemsMembers(d, ByValue, true);
    }
  }

  /** The kept values are non-increasing. */
  lemma TopByValueOrder<K(!new)>(d: Dict<K, int>)
    requires d.Valid()
    ensures var r := TopByValue(d);
      forall i, j :: 0 <= i < j < |r.keys| ==> r.values[r.keys[i]] >= r.values[r.keys[j]]
  {
    SortedItemsOrder(d, ByValue, true);
    TopPrefix(StableSort(Items(d), ByValue, true), 10);
  }

  /** A pair left out has a value no higher than any kept one, and that only
      happens once ten were kept. */
  lemma TopByValueLeftOut<K(!new)>(d: Dict<K, int>)
    requires d.Valid()
    ensures var r := TopByValue(d);
      forall k :: k in d.values && k !in r.values ==>
        |r.keys| == 10 && forall i :: 0 <= i < |r.keys| ==> d.values[k] <= r.values[r.keys[i]]
  {
    var sorted := StableSort(Items(d), ByValue, true);
    SortedItemsOrder(d, ByValue, true);
    SortedItemsMembers(d, ByValue, true);
    SortedTopLeftOut(sorted, 10);
    var r := TopByValue(d);
    forall k | k in d.values && k !in r.values
      ensures |r.keys| == 10 && forall i :: 0 <= i < |r.keys| ==> d.values[k] <= r.values[r.keys[i]]
    {
      assert (k, d.values[k]) in sorted;
    }
  }

  /** Ties keep their input order: the kept pairs with a given value are the
      first pairs of the input with that value. */
  lemma TopByValueStable<K(!new)>(d: Dict<K, int>, v: int)
    requires d.Valid()
    ensures WithKey(Items(TopByValue(d)), ByValue, Num(v as real)) <= WithKey(Items(d), ByValue, Num(v as real))
  {
    var items := Items(d);
    assert Firsts(items) == d.keys;
    var sorted := StableSort(items, ByValue, true);
    SortKeepsKeys(items, ByValue, true);
    var kept := Take(sorted, 10);
    assert Firsts(kept) == Firsts(sorted)[..|kept|];
    ItemsOfDistinct(kept);
    assert sorted == kept + sorted[|kept|..];
    WithKeyConcat(kept, sorted[|kept|..], ByValue, Num(v as real));
    SortStable(items, ByValue, true, Num(v as real));
  }

  /** A city's row count reaches one percent of all rows:
      `count >= total * 0.01`, or with `strict` `count > 0.01 * total`. */
  predicate Reaches(count: nat, total: nat, strict: bool)
  {
    if strict then 100 * count > total else 100 * count >= total
  }

  /** The cities of `cities` whose rows in `samples` (area, salary) reach
      one percent, in order. */
  function ReachingAmong(cities: seq<string>, samples: seq<(string, Option<real>)>, strict: bool): (r: seq<string>)
    ensures forall c :: c in r <==> c in cities && Reaches(Occurrences(Firsts(samples), c), |samples|, strict)
    ensures Distinct(cities) ==> Distinct(r)
  {
    if |cities| == 0 then []
    else
      var c := cities[|cities| - 1];
      assert forall x :: x in cities <==> x in cities[..|cities| - 1] || x == c;
      ReachingAmong(cities[..|cities| - 1], samples, strict)
        + (if Reaches(Occurrences(Firsts(samples), c), |samples|, strict) then [c] else [])
  }

  /** The reported cities: the distinct areas of the rows that pass the
      threshold, in order of first occurrence
      (`df[df['count'] >= ...]['area_name'].unique()`). */
  function Reaching(samples: seq<(string, Option<real>)>, strict: bool): (r: seq<string>)
    ensures Distinct(r)
  {
    ReachingAmong(FirstOccurrences(Firsts(samples)), samples, strict)
  }

  /** A city is reported exactly when it has rows and their count reaches
      one percent; the strict threshold of ConcurrentFutures.py drops just
      the cities at exactly one percent. */
  lemma ReachingSpec(samples: seq<(string, Option<real>)>, c: string)
    ensures c in Reaching(samples, false) <==> c in Firsts(samples) && 100 * Occurrences(Firsts(samples), c) >= |samples|
    ensures c in Reaching(samples, true) <==> c in Firsts(samples) && 100 * Occurrences(Firsts(samples), c) > |samples|
    ensures c in Reaching(samples, false) && c !in Reaching(samples, true) <==>
      c in Firsts(samples) && 100 * Occurrences(Firsts(samples), c) == |samples|
  {
  }

  /** Every city of `salary` carries the truncated mean of its salaries,
      and in `share` its share of all rows. */
  ghost predicate CityRows(samples: seq<(string, Option<real>)>, salary: Dict<string, int>, share: Dict<string, int>)
  {
    forall c :: c in salary.values ==>
      && Some(salary.values[c]) == IntMean(ValuesOf(samples, c))
      && |samples| > 0
      && c in share.values
      && share.values[c] == Share4(Occurrences(Firsts(samples), c), |samples|)
  }

  /** One pass of the city loop keeps `CityRows`. */
  lemma CityRowsPut(samples: seq<(string, Option<real>)>, salary: Dict<string, int>, share: Dict<string, int>, city: string, mean: int)
    requires salary.Valid() && share.Valid() && CityRows(samples, salary, share)
    requires Some(mean) == IntMean(ValuesOf(samples, city)) && |samples| > 0
    ensures CityRows(samples, Put(salary, city, mean), Put(share, city, Share4(Occurrences(Firsts(samples), city), |samples|)))
  {
    var salary2 := Put(salary, city, mean);
    var share2 := Put(share, city, Share4(Occurrences(Firsts(samples), city), |samples|));
    forall c | c in salary2.values
      ensures Some(salary2.values[c]) == IntMean(ValuesOf(samples, c)) && c in share2.values
        && share2.values[c] == Share4(Occurrences(Firsts(samples), c), |samples|)
    {
      if c != city {
        assert c in salary.values;
      }
    }
  }

  /** The loop that fills the city dicts (`area_salary` and `area_vacancy`
      in 3.4.3, `dynamics_job_salary_city` and `dynamics_job_count_city` in
      ConcurrentFutures.py): for each reported city the truncated mean of its
      salaries and its share of all rows, or the city whose salaries are all
      NaN, where `int` raises. */
  method CityStats(samples: seq<(string, Option<real>)>, strict: bool)
    returns (r: Result<(Dict<string, int>, Dict<string, int>), string>)
    ensures r.Err? <==> exists c :: c in Reaching(samples, strict) && IntMean(ValuesOf(samples, c)).None?
    ensures r.Err? ==> r.error in Reaching(samples, strict) && IntMean(ValuesOf(samples, r.error)).None?
    ensures r.Ok? ==> r.value.0.Valid() && r.value.1.Valid()
    ensures r.Ok? ==> r.value.0.keys == Reaching(samples, strict) && r.value.1.keys == Reaching(samples, strict)
    ensures r.Ok? ==> forall c :: c in r.value.0.values ==>
      && Some(r.value.0.values[c]) == IntMean(ValuesOf(samples, c))
      && |samples| > 0
      && r.value.1.values[c] == Share4(Occurrences(Firsts(samples), c), |samples|)
  {
    var cities := Reaching(samples, strict);
    var salary: Dict<string, int> := Empty();
    var share: Dict<string, int> := Empty();
    for i := 0 to |cities|
      invariant salary.Valid() && share.Valid()
      invariant salary.keys == cities[..i] && share.keys == cities[..i]
      invariant CityRows(samples, salary, share)
    {
      var city := cities[i];
      var mean := IntMean(ValuesOf(samples, city));
      if mean.None? {
        assert city in Reaching(samples, strict);
        return Err(city);
      }
      assert city in Firsts(samples) by {
        ReachingSpec(samples, city);
      }
      assert city !in cities[..i];
      assert cities[..i + 1] == cities[..i] + [city];
      var count := Share4(Occurrences(Firsts(samples), city), |samples|);
      CityRowsPut(samples, salary, share, city, mean.value);
      salary := Put(salary, city, mean.value);
      share := Put(share, city, count);
    }
    assert cities[..|cities|] == cities;
    forall c | c in cities ensures IntMean(ValuesOf(samples, c)).Some? {
      assert c in salary.values;
    }
    return Ok((salary, share));
  }
}

/** The statistics core of `PdfCreate.py`: the two accumulator classes, the
    vacancy record with its conversion to roubles, the single pass of
    `Total.get_data` and the CSV row filter. */
module PdfCreate {
  import opened Wrappers
  import opened Text
  import opened Numbers
  import opened Dicts
  import opened Ranking
  import opened Timestamp
  import opened Rows

  /** Every list of salaries is non-empty, so that its mean exists. */
  ghost predicate NonEmptyLists<K(!new)>(d: Dict<K, seq<int>>)
  {
    forall k :: k in d.values ==> |d.values[k]| > 0
  }

  /** The mean of one list, `int(mean(value))`: the quotient rounded toward
      zero. */
  function Mean(xs: seq<int>): (r: int)
    requires |xs| > 0
    ensures Sum(xs) >= 0 ==> r * |xs| <= Sum(xs) < r * |xs| + |xs|
    ensures Sum(xs) < 0 ==> r * |xs| - |xs| < Sum(xs) <= r * |xs|
  {
    MeanInt(xs)
  }

  /** The dict left by `for key, value in d.items(): acc[key] = int(mean(value))`
      after the first `n` keys. */
  function WithAverages<K(!new)>(acc: Dict<K, int>, d: Dict<K, seq<int>>, n: nat): (r: Dict<K, int>)
    requires acc.Valid() && d.Valid() && NonEmptyLists(d) && n <= |d.keys|
    ensures r.Valid()
  {
    if n == 0 then acc
    else
      var k := d.keys[n - 1];
      Put(WithAverages(acc, d, n - 1), k, Mean(d.values[k]))
  }

  /** Every one of the first `n` keys of the salary dict gets the mean of
      its list. */
  lemma {:induction false} AveragesOfKeys<K(!new)>(acc: Dict<K, int>, d: Dict<K, seq<int>>, n: nat)
    requires acc.Valid() && d.Valid() && NonEmptyLists(d) && n <= |d.keys|
    ensures forall i :: 0 <= i < n ==>
      d.keys[i] in WithAverages(acc, d, n).values
      && WithAverages(acc, d, n).values[d.keys[i]] == Mean(d.values[d.keys[i]])
  {
    if n > 0 {
      var prev, k := WithAverages(acc, d, n - 1), d.keys[n - 1];
      AveragesOfKeys(acc, d, n - 1);
      var next := WithAverages(acc, d, n).values;
      assert next == prev.values[k := Mean(d.values[k])];
      forall i | 0 <= i < n
        ensures d.keys[i] in next && next[d.keys[i]] == Mean(d.values[d.keys[i]])
      {
        if i < n - 1 {
          assert d.keys[i] != k;
          assert next[d.keys[i]] == prev.values[d.keys[i]];
        }
      }
    }
  }

  /** The other keys of `acc` keep their values, and no key comes from
      anywhere else. */
  lemma {:induction false} AveragesKeepOthers<K(!new)>(acc: Dict<K, int>, d: Dict<K, seq<int>>, n: nat)
    requires acc.Valid() && d.Valid() && NonEmptyLists(d) && n <= |d.keys|
    ensures forall k :: k in acc.values && k !in d.keys[..n] ==>
      k in WithAverages(acc, d, n).values && WithAverages(acc, d, n).values[k] == acc.values[k]
    ensures forall k :: k in WithAverages(acc, d, n).values ==> k in acc.values || k in d.keys[..n]
  {
    if n > 0 {
      AveragesKeepOthers(acc, d, n - 1);
      assert d.keys[..n] == d.keys[..n - 1] + [d.keys[n - 1]];
    }
  }

  /** Starting from an empty dict, the averages have the salary dict's keys
      in its order. */
  lemma {:induction false} AveragesKeyOrder<K(!new)>(acc: Dict<K, int>, d: Dict<K, seq<int>>, n: nat)
    requires acc.Valid() && d.Valid() && NonEmptyLists(d) && n <= |d.keys| && |acc.keys| == 0
    ensures WithAverages(acc, d, n).keys == d.keys[..n]
  {
    if n > 0 {
      AveragesKeyOrder(acc, d, n - 1);
      assert d.keys[..n] == d.keys[..n - 1] + [d.keys[n - 1]];
      assert d.keys[n - 1] !in d.keys[..n - 1];
    }
  }

  /** The items of `sorted` whose key is in `cities`, in order. */
  function InCities<K(==, !new)>(sorted: seq<(K, int)>, cities: seq<K>): (r: seq<(K, int)>)
    ensures forall p :: p in r <==> p in sorted && p.0 in cities
  {
    if |sorted| == 0 then []
    else
      var last := sorted[|sorted| - 1];
      InCities(sorted[..|sorted| - 1], cities) + (if last.0 in cities then [last] else [])
  }

  lemma {:induction false} InCitiesKeeps<K(!new)>(sorted: seq<(K, int)>, cities: seq<K>)
    requires Sorted(sorted, ByValue, true) && Distinct(Firsts(sorted))
    ensures Sorted(InCities(sorted, cities), ByValue, true) && Distinct(Firsts(InCities(sorted, cities)))
  {
    if |sorted| > 0 {
      var n := |sorted| - 1;
      var front := sorted[..n];
      assert Firsts(front) == Firsts(sorted)[..n];
      InCitiesKeeps(front, cities);
      var r := InCities(sorted, cities);
      var fr := InCities(front, cities);
      forall i | 0 <= i < |fr| ensures Le(ByValue(fr[i]), ByValue(sorted[n]), true) && fr[i].0 != sorted[n].0 {
        var j :| 0 <= j < n && front[j] == fr[i];
        assert Firsts(sorted)[j] == fr[i].0;
      }
    }
  }

  /** What `top_salary` returns for the averages `avg` and the reported
      cities: the averages sorted by value (stable, descending), kept if the
      city is reported, then the first ten. */
  function TopOf<K(!new)>(avg: Dict<K, int>, cities: seq<K>): Dict<K, int>
    requires avg.Valid()
  {
    OfItems(Take(InCities(StableSort(Items(avg), ByValue, true), cities), 10))
  }

  /** The averages of the reported cities, sorted: in non-increasing order,
      each city once, with its own average. */
  lemma RankedCities<K(!new)>(avg: Dict<K, int>, cities: seq<K>)
    requires avg.Valid()
    ensures var kept := InCities(StableSort(Items(avg), ByValue, true), cities);
      && Sorted(kept, ByValue, true) && Distinct(Firsts(kept))
      && forall p :: p in kept <==> p.0 in cities && p.0 in avg.values && p.1 == avg.values[p.0]
  {
    var items := Items(avg);
    ItemsMembers(avg);
    assert Firsts(items) == avg.keys;
    var sorted := StableSort(items, ByValue, true);
    SortSorts(items, ByValue, true);
    SortKeepsKeys(items, ByValue, true);
    SortMembers(items, ByValue, true);
    InCitiesKeeps(sorted, cities);
  }

  /** `top_salary` returns at most ten reported cities with their averages,
      in non-increasing order of average, and a reported city is left out
      only when ten cities with an average at least as high were kept. */
  lemma TopOfSpec<K(!new)>(avg: Dict<K, int>, cities: seq<K>)
    requires avg.Valid()
    ensures var r := TopOf(avg, cities);
      && |r.keys| <= 10
      && (forall k :: k in r.values ==> k in cities && k in avg.values && r.values[k] == avg.values[k])
      && (forall i, j :: 0 <= i < j < |r.keys| ==> r.values[r.keys[i]] >= r.values[r.keys[j]])
      && (forall k :: k in avg.values && k in cities && k !in r.values ==>
            |r.keys| == 10 && forall i :: 0 <= i < |r.keys| ==> avg.values[k] <= r.values[r.keys[i]])
  {
    var kept := InCities(StableSort(Items(avg), ByValue, true), cities);
    RankedCities(avg, cities);
    SortedTop(kept, 10);
    var r := TopOf(avg, cities);
    forall k | k in avg.values && k in cities && k !in r.values
      ensures |r.keys| == 10 && forall i :: 0 <= i < |r.keys| ==> avg.values[k] <= r.values[r.keys[i]]
    {
      assert (k, avg.values[k]) in kept;
    }
  }

  /** A dict of salary lists, none of them empty. */
  type Salaries<K(==, !new)> = d: Dict<K, seq<int>> | d.Valid() && NonEmptyLists(d) witness Dict([], map[])

  /** `SalaryDict`: salaries collected per key, and the dict of their
      truncated means that `average_salary` fills. */
  class SalaryDict<K(==, !new)> {
    var salaryDictionary: Salaries<K>
    var averages: ValidDict<K, int>

    constructor ()
      ensures salaryDictionary == Empty() && averages == Empty()
    {
      salaryDictionary := Empty();
      averages := Empty();
    }

    /** `add`: appends the salary to the key's list, creating `[salary]` for
        a new key; every other list is unchanged. */
    method Add(key: K, salary: int)
      modifies this
      ensures averages == old(averages)
      ensures salaryDictionary == Append(old(salaryDictionary), key, salary)
    {
      salaryDictionary := Append(salaryDictionary, key, salary);
    }

    /** `average_salary`: writes `int(mean(list))` for every key, in key
        order, into the averages dict, and returns it. */
    method AverageSalary() returns (r: Dict<K, int>)
      modifies this
      ensures salaryDictionary == old(salaryDictionary)
      ensures averages == WithAverages(old(averages), salaryDictionary, |salaryDictionary.keys|)
      ensures r == averages
    {
      var i := 0;
      while i < |salaryDictionary.keys|
        invariant 0 <= i <= |salaryDictionary.keys|
        invariant salaryDictionary == old(salaryDictionary)
        invariant averages == WithAverages(old(averages), salaryDictionary, i)
      {
        var key := salaryDictionary.keys[i];
        averages := Put(averages, key, Mean(salaryDictionary.values[key]));
        i := i + 1;
      }
      r := averages;
    }

    /** `top_salary`: the averages, then the ten best-paid reported cities. */
    method TopSalary(topCities: seq<K>) returns (r: Dict<K, int>)
      modifies this
      ensures salaryDictionary == old(salaryDictionary)
      ensures averages == WithAverages(old(averages), salaryDictionary, |salaryDictionary.keys|)
      ensures r == TopOf(averages, topCities)
    {
      var avg := AverageSalary();
      var sorted := StableSort(Items(avg), ByValue, true);
      var kept: seq<(K, int)> := [];
      var i := 0;
      while i < |sorted|
        invariant 0 <= i <= |sorted|
        invariant kept == InCities(sorted[..i], topCities)
      {
        if sorted[i].0 in topCities {
          kept := kept + [sorted[i]];
        }
        assert sorted[..i + 1][..i] == sorted[..i];
        i := i + 1;
      }
      assert sorted[..i] == sorted;
      r := OfItems(Take(kept, 10));
    }
  }

  /** The keys whose count is at least one percent of `total`, each with its
      share `round(count / total, 4)` in ten-thousandths, in key order. */
  function Shares<K(!new)>(d: Dict<K, nat>, total: nat, n: nat): (r: seq<(K, int)>)
    requires d.Valid() && total > 0 && n <= |d.keys|
  {
    if n == 0 then []
    else
      var k := d.keys[n - 1];
      Shares(d, total, n - 1) + (if 100 * d.values[k] >= total then [(k, Share4(d.values[k], total))] else [])
  }

  /** A key gets a share exactly when its count reaches one percent, the
      share is its rounded ratio, and no key appears twice. */
  lemma {:induction false} SharesSpec<K(!new)>(d: Dict<K, nat>, total: nat, n: nat)
    requires d.Valid() && total > 0 && n <= |d.keys|
    ensures var r := Shares(d, total, n);
      && Distinct(Firsts(r))
      && (forall k :: k in Firsts(r) <==> k in d.keys[..n] && 100 * d.values[k] >= total)
      && (forall p :: p in r ==> p.0 in d.values && p.1 == Share4(d.values[p.0], total))
  {
    if n > 0 {
      SharesSpec(d, total, n - 1);
      assert d.keys[..n] == d.keys[..n - 1] + [d.keys[n - 1]];
      var front := Shares(d, total, n - 1);
      var r := Shares(d, total, n);
      var k := d.keys[n - 1];
      assert k !in d.keys[..n - 1];
      if 100 * d.values[k] >= total {
        assert Firsts(r) == Firsts(front) + [k];
      } else {
        assert r == front;
      }
    }
  }

  /** What `percentage` stores in `top_percentage_dict`. */
  function TopShares<K(!new)>(d: Dict<K, nat>, total: nat): Dict<K, int>
    requires d.Valid() && total > 0
  {
    OfItems(TopTen(Shares(d, total, |d.keys|), ByValue))
  }

  /** `top_percentage_dict` holds at most ten keys that reach one percent,
      each with its rounded share, largest first, and a key that reaches one
      percent is left out only when ten keys with a share at least as large
      were kept. */
  lemma TopSharesSpec<K(!new)>(d: Dict<K, nat>, total: nat)
    requires d.Valid() && total > 0
    ensures var r := TopShares(d, total);
      && |r.keys| <= 10
      && (forall k :: k in r.values ==>
            k in d.values && 100 * d.values[k] >= total && r.values[k] == Share4(d.values[k], total))
      && (forall i, j :: 0 <= i < j < |r.keys| ==> r.values[r.keys[i]] >= r.values[r.keys[j]])
      && (forall k :: k in d.values && 100 * d.values[k] >= total && k !in r.values ==>
            |r.keys| == 10 && forall i :: 0 <= i < |r.keys| ==> Share4(d.values[k], total) <= r.values[r.keys[i]])
  {
    var shares := Shares(d, total, |d.keys|);
    SharesSpec(d, total, |d.keys|);
    assert d.keys[..|d.keys|] == d.keys;
    var sorted := StableSort(shares, ByValue, true);
    SortSorts(shares, ByValue, true);
    SortKeepsKeys(shares, ByValue, true);
    SortMembers(shares, ByValue, true);
    SortedTop(sorted, 10);
    var r := TopShares(d, total);
    forall k | k in r.values
      ensures k in d.values && 100 * d.values[k] >= total && r.values[k] == Share4(d.values[k], total)
    {
      assert (k, r.values[k]) in shares;
      assert k in Firsts(shares) by {
        var j :| 0 <= j < |shares| && shares[j] == (k, r.values[k]);
        assert Firsts(shares)[j] == k;
      }
    }
    forall k | k in d.values && 100 * d.values[k] >= total && k !in r.values
      ensures |r.keys| == 10 && forall i :: 0 <= i < |r.keys| ==> Share4(d.values[k], total) <= r.values[r.keys[i]]
    {
      assert k in Firsts(shares);
      var j :| 0 <= j < |shares| && Firsts(shares)[j] == k;
      assert shares[j] in sorted;
    }
  }

  /** Sorting the items of the dict of shares is sorting the shares. */
  lemma TopOfShareDict<K(!new)>(d: Dict<K, nat>, total: nat)
    requires d.Valid() && total > 0
    ensures OfItems(Take(StableSort(Items(OfItems(Shares(d, total, |d.keys|))), ByValue, true), 10)) == TopShares(d, total)
  {
    SharesSpec(d, total, |d.keys|);
    ItemsOfDistinct(Shares(d, total, |d.keys|));
  }

  /** The loop of `percentage`: the keys that reach one percent, in key
      order, and the dict of their shares. */
  method CollectShares<K(==, !new)>(d: Dict<K, nat>, total: nat) returns (reached: seq<K>, shares: Dict<K, int>)
    requires d.Valid() && total > 0
    ensures reached == Firsts(Shares(d, total, |d.keys|))
    ensures shares == OfItems(Shares(d, total, |d.keys|))
  {
    reached := [];
    shares := Empty();
    var i := 0;
    while i < |d.keys|
      invariant 0 <= i <= |d.keys|
      invariant reached == Firsts(Shares(d, total, i))
      invariant shares == OfItems(Shares(d, total, i))
    {
      var key := d.keys[i];
      var value := d.values[key];
      SharesNext(d, total, i);
      if 100 * value >= total {
        reached := reached + [key];
        shares := Put(shares, key, Share4(value, total));
      }
      i := i + 1;
    }
  }

  /** One more key of the loop of `percentage`. */
  lemma SharesNext<K(!new)>(d: Dict<K, nat>, total: nat, i: nat)
    requires d.Valid() && total > 0 && i < |d.keys|
    ensures var k := d.keys[i]; var front := Shares(d, total, i);
      if 100 * d.values[k] >= total then
        Firsts(Shares(d, total, i + 1)) == Firsts(front) + [k]
        && OfItems(Shares(d, total, i + 1)) == Put(OfItems(front), k, Share4(d.values[k], total))
      else Shares(d, total, i + 1) == front
  {
    var k := d.keys[i];
    var front := Shares(d, total, i);
    if 100 * d.values[k] >= total {
      assert Shares(d, total, i + 1) == front + [(k, Share4(d.values[k], total))];
      assert Firsts(front + [(k, Share4(d.values[k], total))]) == Firsts(front) + [k];
      OfItemsSnoc(front, k, Share4(d.values[k], total));
    }
  }

  /** `length` is the sum of the counts: what `CountDict.add` keeps. */
  predicate Summed<K(!new)>(length: nat, counts: Dict<K, nat>)
    requires counts.Valid()
  {
    length == SumValues(counts)
  }

  /** Every key was counted at least once. */
  predicate AllPositive<K(!new)>(counts: Dict<K, nat>)
  {
    forall k :: k in counts.values ==> counts.values[k] >= 1
  }

  /** Counting one key more keeps the total the sum of the counts, and
      keeps every count positive. */
  lemma BumpSummed<K(!new)>(length: nat, counts: Dict<K, nat>, k: K)
    requires counts.Valid() && Summed(length, counts)
    ensures Summed(length + 1, Bump(counts, k))
    ensures AllPositive(counts) ==> AllPositive(Bump(counts, k))
  {
    Increment(counts, k);
  }

  /** Positive counts that sum to zero are no counts at all: with the
      invariant, `percentage` never divides by a zero `length`. */
  lemma NoZeroDivision<K(!new)>(length: nat, counts: Dict<K, nat>)
    requires counts.Valid() && Summed(length, counts) && AllPositive(counts)
    ensures length == 0 <==> |counts.keys| == 0
  {
    SumOverPositive(counts.keys, counts.values);
  }

  /** `CountDict`: a count per key and the running total `length`. */
  class CountDict<K(==, !new)> {
    var length: nat
    var countDict: ValidDict<K, nat>
    var cityList: seq<K>
    var topPercentage: ValidDict<K, int>

    /** `length` is the sum of the counts. */
    ghost predicate Valid()
      reads this
    {
      Summed(length, countDict)
    }

    /** Every key was counted by `add`. */
    ghost predicate Positive()
      reads this
    {
      AllPositive(countDict)
    }

    constructor ()
      ensures Valid() && Positive()
      ensures length == 0 && countDict == Empty() && cityList == [] && topPercentage == Empty()
    {
      length := 0;
      countDict := Empty();
      cityList := [];
      topPercentage := Empty();
    }

    /** `add`: the key's count (from 0) and `length` each go up by one. */
    method Add(key: K)
      modifies this
      ensures old(Valid()) ==> Valid()
      ensures old(Positive()) ==> Positive()
      ensures countDict == Bump(old(countDict), key)
      ensures length == old(length) + 1
      ensures cityList == old(cityList) && topPercentage == old(topPercentage)
    {
      if Valid() {
        BumpSummed(length, countDict, key);
      }
      countDict := Bump(countDict, key);
      length := length + 1;
    }

    /** `percentage`: appends to `city_list` the keys that reach one percent
        of `length`, in key order, and keeps the ten largest shares. Python
        divides by `length` for every key; the invariant rules out a zero
        `length` with keys. */
    method Percentage()
      requires Valid() && Positive()
      modifies this
      ensures Valid() && Positive()
      ensures countDict == old(countDict) && length == old(length)
      ensures length > 0 ==> cityList == old(cityList) + Firsts(Shares(countDict, length, |countDict.keys|))
      ensures length > 0 ==> topPercentage == TopShares(countDict, length)
      ensures length == 0 ==> cityList == old(cityList) && topPercentage == Empty()
    {
      NoZeroDivision(length, countDict);
      if |countDict.keys| == 0 {
        topPercentage := Empty();
        return;
      }
      var reached, percentageDict := CollectShares(countDict, length);
      cityList := cityList + reached;
      TopOfShareDict(countDict, length);
      var sorted := StableSort(Items(percentageDict), ByValue, true);
      topPercentage := OfItems(Take(sorted, 10));
    }
  }

  /** The vacancy record of `PdfCreate.py`. */
  datatype Vacancy = Vacancy(jobName: string, salary: int, areaName: string, year: int)

  /** Why `Vacancy(fields)` raises: a missing column (`KeyError`), a bound
      that `float()` rejects (`ValueError`), a currency outside the table
      (`KeyError`), or a date that `strptime` rejects (`ValueError`). */
  datatype VacancyError = MissingField(name: string) | NotANumber(text: string)
    | UnknownCurrency(code: string) | BadDate(text: string)

  /** The static conversion table to roubles. */
  function RateToRub(code: string): Option<real>
  {
    if code == "AZN" then Some(35.68)
    else if code == "BYR" then Some(23.91)
    else if code == "EUR" then Some(59.90)
    else if code == "GEL" then Some(21.74)
    else if code == "KGS" then Some(0.76)
    else if code == "KZT" then Some(0.13)
    else if code == "RUR" then Some(1.0)
    else if code == "UAH" then Some(1.64)
    else if code == "USD" then Some(60.66)
    else if code == "UZS" then Some(0.0055)
    else None
  }

  /** `Vacancy(fields)`, with its exceptions in the order Python meets
      them. */
  function MakeVacancy(fields: map<string, string>): Result<Vacancy, VacancyError>
  {
    if "name" !in fields then Err(MissingField("name"))
    else if "salary_from" !in fields then Err(MissingField("salary_from"))
    else if ParseDecimal(fields["salary_from"]).None? then Err(NotANumber(fields["salary_from"]))
    else if "salary_to" !in fields then Err(MissingField("salary_to"))
    else if ParseDecimal(fields["salary_to"]).None? then Err(NotANumber(fields["salary_to"]))
    else if "salary_currency" !in fields then Err(MissingField("salary_currency"))
    else if RateToRub(fields["salary_currency"]).None? then Err(UnknownCurrency(fields["salary_currency"]))
    else if "area_name" !in fields then Err(MissingField("area_name"))
    else if "published_at" !in fields then Err(MissingField("published_at"))
    else if Parse(fields["published_at"]).None? then Err(BadDate(fields["published_at"]))
    else
      var low := ParseDecimal(fields["salary_from"]).value;
      var high := ParseDecimal(fields["salary_to"]).value;
      var rate := RateToRub(fields["salary_currency"]).value;
      Ok(Vacancy(fields["name"], TruncReal((low + high) / 2.0 * rate), fields["area_name"],
                 Parse(fields["published_at"]).value.year))
  }

  /** A record with every column well formed becomes a vacancy whose salary
      is the truncated mean of the bounds times the rate, and whose year is
      the year of the publication date; an unknown currency is an error. */
  lemma MakeVacancySpec(fields: map<string, string>)
    requires forall c :: c in ["name", "salary_from", "salary_to", "salary_currency", "area_name", "published_at"] ==> c in fields
    requires ParseDecimal(fields["salary_from"]).Some? && ParseDecimal(fields["salary_to"]).Some?
    ensures RateToRub(fields["salary_currency"]).None? <==> MakeVacancy(fields) == Err(UnknownCurrency(fields["salary_currency"]))
    ensures RateToRub(fields["salary_currency"]).Some? && Parse(fields["published_at"]).Some? ==>
      var v := MakeVacancy(fields);
      var mean := (ParseDecimal(fields["salary_from"]).value + ParseDecimal(fields["salary_to"]).value) / 2.0;
      var exact := mean * RateToRub(fields["salary_currency"]).value;
      && v.Ok?
      && v.value.jobName == fields["name"] && v.value.areaName == fields["area_name"]
      && v.value.year == Parse(fields["published_at"]).value.year
      && (exact >= 0.0 ==> v.value.salary as real <= exact < v.value.salary as real + 1.0)
  {
    assert "name" in ["name", "salary_from", "salary_to", "salary_currency", "area_name", "published_at"];
    assert "salary_from" in ["name", "salary_from", "salary_to", "salary_currency", "area_name", "published_at"];
    assert "salary_to" in ["name", "salary_from", "salary_to", "salary_currency", "area_name", "published_at"];
    assert "salary_currency" in ["name", "salary_from", "salary_to", "salary_currency", "area_name", "published_at"];
    assert "area_name" in ["name", "salary_from", "salary_to", "salary_currency", "area_name", "published_at"];
    assert "published_at" in ["name", "salary_from", "salary_to", "salary_currency", "area_name", "published_at"];
  }

  /** A decimal "ddddd.0" of the unit tests reads as its whole part. */
  lemma TestBound(s: string, n: nat)
    requires n < 100000 && s == Pad(n, 5) + ".0"
    ensures ParseDecimal(s) == Some(n as real)
  {
    assert IndexOf(s, ".") == Some(5) by {
      forall j | 0 <= j < 5 ensures !OccursAt(s, ".", j) {
        assert s[j..j + 1][0] == s[j] == Pad(n, 5)[j];
      }
      assert OccursAt(s, ".", 5) by {
        assert s[5..6] == ".";
      }
    }
    assert s[0] == Pad(n, 5)[0];
    assert s[..5] == Pad(n, 5) && s[6..] == "0";
    assert AllDigits("0") && DigitsValue("0") == 0;
    assert Pow10(5) == 100000;
    PadReadsBack(n, 5);
    assert ParseUnsignedDecimal(s) == Some(n as real);
  }

  lemma TestDay()
    ensures var s := "2012-04-09T13:49:00+0400";
      Triple(s[..10], 4, '-') && NumAt(s[..10], 0, 4) == 2012 && NumAt(s[..10], 5, 2) == 4 && NumAt(s[..10], 8, 2) == 9
  {
    var s := "2012-04-09T13:49:00+0400";
    assert s[..10] == JoinTriple(2012, 4, 4, 9, '-');
    assert Pow10(4) == 10000;
    TripleReadsBack(2012, 4, 4, 9, '-');
  }

  lemma TestTime()
    ensures var s := "2012-04-09T13:49:00+0400";
      Triple(s[11..19], 2, ':') && NumAt(s[11..19], 0, 2) == 13 && NumAt(s[11..19], 3, 2) == 49 && NumAt(s[11..19], 6, 2) == 0
  {
    var s := "2012-04-09T13:49:00+0400";
    assert s[11..19] == JoinTriple(13, 2, 49, 0, ':');
    assert Pow10(2) == 100;
    TripleReadsBack(13, 2, 49, 0, ':');
  }

  lemma TestOffset()
    ensures var s := "2012-04-09T13:49:00+0400";
      DigitsAt(s, 20, 2) && NumAt(s, 20, 2) == 4 && DigitsAt(s, 22, 2) && NumAt(s, 22, 2) == 0
  {
    var s := "2012-04-09T13:49:00+0400";
    assert s[20..22] == Pad(4, 2) && s[22..24] == Pad(0, 2);
    assert Pow10(2) == 100;
    PadAt(s, 20, 4, 2);
    PadAt(s, 22, 0, 2);
  }

  lemma TestDate()
    ensures Parse("2012-04-09T13:49:00+0400") == Some(DateTime(2012, 4, 9, 13, 49, 0))
  {
    TestDay();
    TestTime();
    TestOffset();
  }

  /** The vacancy of the unit tests: 40000 and 55000 roubles make 47500,
      published in 2012. */
  lemma TestRate()
    ensures RateToRub("RUR") == Some(1.0)
  {
  }

  lemma TestLow()
    ensures ParseDecimal("40000.0") == Some(40000.0)
  {
    assert "40000.0" == Pad(40000, 5) + ".0";
    TestBound("40000.0", 40000);
  }

  lemma TestHigh()
    ensures ParseDecimal("55000.0") == Some(55000.0)
  {
    assert Pad(55, 2) == "55";
    assert Pad(550, 3) == "550";
    assert Pad(5500, 4) == "5500";
    assert "55000.0" == Pad(55000, 5) + ".0";
    TestBound("55000.0", 55000);
  }

  lemma TestFields(fields: map<string, string>)
    requires fields == map["name" := "Программист", "salary_from" := "40000.0", "salary_to" := "55000.0",
      "salary_currency" := "RUR", "area_name" := "Москва", "published_at" := "2012-04-09T13:49:00+0400"]
    ensures "name" in fields && fields["name"] == "Программист"
    ensures "salary_from" in fields && fields["salary_from"] == "40000.0"
    ensures "salary_to" in fields && fields["salary_to"] == "55000.0"
    ensures "salary_currency" in fields && fields["salary_currency"] == "RUR"
    ensures "area_name" in fields && fields["area_name"] == "Москва"
    ensures "published_at" in fields && fields["published_at"] == "2012-04-09T13:49:00+0400"
  {
  }

  lemma TestVacancy()
    ensures MakeVacancy(map["name" := "Программист", "salary_from" := "40000.0", "salary_to" := "55000.0",
      "salary_currency" := "RUR", "area_name" := "Москва", "published_at" := "2012-04-09T13:49:00+0400"])
      == Ok(Vacancy("Программист", 47500, "Москва", 2012))
  {
    var fields := map["name" := "Программист", "salary_from" := "40000.0", "salary_to" := "55000.0",
      "salary_currency" := "RUR", "area_name" := "Москва", "published_at" := "2012-04-09T13:49:00+0400"];
    TestFields(fields);
    TestLow();
    TestHigh();
    TestDate();
    TestRate();
    assert TruncReal((40000.0 + 55000.0) / 2.0 * 1.0) == 47500;
  }

  /** The year/salary, city/salary pairs and the years, cities fed to the
      accumulators. */
  function YearSalaries(vs: seq<Vacancy>): (r: seq<(int, int)>)
    ensures |r| == |vs| && forall i :: 0 <= i < |vs| ==> r[i] == (vs[i].year, vs[i].salary)
  {
    seq(|vs|, i requires 0 <= i < |vs| => (vs[i].year, vs[i].salary))
  }

  function CitySalaries(vs: seq<Vacancy>): (r: seq<(string, int)>)
    ensures |r| == |vs| && forall i :: 0 <= i < |vs| ==> r[i] == (vs[i].areaName, vs[i].salary)
  {
    seq(|vs|, i requires 0 <= i < |vs| => (vs[i].areaName, vs[i].salary))
  }

  function Years(vs: seq<Vacancy>): (r: seq<int>)
    ensures |r| == |vs| && forall i :: 0 <= i < |vs| ==> r[i] == vs[i].year
  {
    seq(|vs|, i requires 0 <= i < |vs| => vs[i].year)
  }

  function Cities(vs: seq<Vacancy>): (r: seq<string>)
    ensures |r| == |vs| && forall i :: 0 <= i < |vs| ==> r[i] == vs[i].areaName
  {
    seq(|vs|, i requires 0 <= i < |vs| => vs[i].areaName)
  }

  /** The vacancies whose title contains the profession: `job_name in
      vacancy.job_name`. */
  function Matching(vs: seq<Vacancy>, job: string): (r: seq<Vacancy>)
    ensures forall v :: v in r <==> v in vs && Contains(v.jobName, job)
  {
    if |vs| == 0 then []
    else Matching(vs[..|vs| - 1], job) + (if Contains(vs[|vs| - 1].jobName, job) then [vs[|vs| - 1]] else [])
  }

  /** `{i: [0] for i in keys}` and `{i: 0 for i in keys}`. */
  function ZeroLists(keys: seq<int>): (d: Dict<int, seq<int>>)
    requires Distinct(keys)
    ensures d.Valid() && NonEmptyLists(d)
  {
    Dict(keys, map k | k in keys :: [0])
  }

  function ZeroCounts(keys: seq<int>): (d: Dict<int, nat>)
    requires Distinct(keys)
    ensures d.Valid()
  {
    Dict(keys, map k | k in keys :: 0)
  }

  /** The profession accumulators after the pass: the matching vacancies, or
      when none matched (and nothing was there before), zero for every year
      seen. */
  function JobSalaries(before: Dict<int, seq<int>>, vs: seq<Vacancy>, job: string, years: seq<int>): Dict<int, seq<int>>
    requires before.Valid() && Distinct(years)
  {
    var fed := GroupInto(before, YearSalaries(Matching(vs, job)));
    if |fed.keys| == 0 then ZeroLists(years) else fed
  }

  function JobCounts(before: Dict<int, nat>, vs: seq<Vacancy>, job: string, years: seq<int>): Dict<int, nat>
    requires before.Valid() && Distinct(years)
  {
    var fed := CountInto(before, Years(Matching(vs, job)));
    if |fed.keys| == 0 then ZeroCounts(years) else fed
  }

  /** When no vacancy matches the profession and its accumulators were
      empty, they end up holding zero for every year seen. */
  lemma NoMatchFallback(salaries: Dict<int, seq<int>>, counts: Dict<int, nat>, vs: seq<Vacancy>, job: string, years: seq<int>)
    requires salaries.Valid() && counts.Valid() && |salaries.keys| == 0 && |counts.keys| == 0
    requires Distinct(years) && Matching(vs, job) == []
    ensures JobSalaries(salaries, vs, job, years) == ZeroLists(years)
    ensures JobCounts(counts, vs, job, years) == ZeroCounts(years)
  {
    assert YearSalaries(Matching(vs, job)) == [];
    assert Years(Matching(vs, job)) == [];
  }

  /** One more vacancy extends every projection by its own entry. */
  lemma FeedStep(vs: seq<Vacancy>, v: Vacancy, job: string)
    ensures YearSalaries(vs + [v]) == YearSalaries(vs) + [(v.year, v.salary)]
    ensures CitySalaries(vs + [v]) == CitySalaries(vs) + [(v.areaName, v.salary)]
    ensures Years(vs + [v]) == Years(vs) + [v.year]
    ensures Cities(vs + [v]) == Cities(vs) + [v.areaName]
    ensures Matching(vs + [v], job) == Matching(vs, job) + (if Contains(v.jobName, job) then [v] else [])
  {
    assert (vs + [v])[..|vs|] == vs;
  }

  /** A salary accumulator with its count accumulator: the salary lists,
      the counts and the running total of the counts. */
  datatype Tally<K(==, !new)> = Tally(salaries: Salaries<K>, counts: ValidDict<K, nat>, total: nat)

  /** The contents of the six accumulators of `Total`: by year, by year for
      the profession, and by city. */
  datatype Totals = Totals(years: Tally<int>, jobYears: Tally<int>, cities: Tally<string>)

  /** A salary and a count taken under key `k`. */
  function Took<K(!new)>(a: Tally<K>, k: K, salary: int): Tally<K>
  {
    Tally(Append(a.salaries, k, salary), Bump(a.counts, k), a.total + 1)
  }

  /** One vacancy fed to the accumulators: its salary and a count under its
      year and under its city, and under its year for the profession when
      its title contains the profession. */
  function Step(t: Totals, v: Vacancy, job: string): Totals
  {
    Totals(
      Took(t.years, v.year, v.salary),
      if Contains(v.jobName, job) then Took(t.jobYears, v.year, v.salary) else t.jobYears,
      Took(t.cities, v.areaName, v.salary))
  }

  /** The invariant of the counts of `Total`: every total is the sum of its
      counts, and the counts by year and by city, which every vacancy
      feeds, are positive. */
  predicate CountsKept(t: Totals)
  {
    Summed(t.years.total, t.years.counts) && AllPositive(t.years.counts)
    && Summed(t.jobYears.total, t.jobYears.counts)
    && Summed(t.cities.total, t.cities.counts) && AllPositive(t.cities.counts)
  }

  /** Taking one more salary keeps the total the sum of the counts, and
      keeps the counts positive. */
  lemma TookSummed<K(!new)>(a: Tally<K>, k: K, salary: int)
    requires Summed(a.total, a.counts)
    ensures Summed(Took(a, k, salary).total, Took(a, k, salary).counts)
    ensures AllPositive(a.counts) ==> AllPositive(Took(a, k, salary).counts)
  {
    BumpSummed(a.total, a.counts, k);
  }

  /** Feeding one vacancy keeps the invariant of the counts. */
  lemma StepCounted(t: Totals, v: Vacancy, job: string)
    requires CountsKept(t)
    ensures CountsKept(Step(t, v, job))
  {
    var u := Step(t, v, job);
    TookSummed(t.years, v.year, v.salary);
    TookSummed(t.cities, v.areaName, v.salary);
    assert u.years == Took(t.years, v.year, v.salary);
    assert u.cities == Took(t.cities, v.areaName, v.salary);
    if Contains(v.jobName, job) {
      TookSummed(t.jobYears, v.year, v.salary);
      assert u.jobYears == Took(t.jobYears, v.year, v.salary);
    } else {
      assert u.jobYears == t.jobYears;
    }
  }

  /** An accumulator pair that took the salary and the count is `Took`. */
  lemma TookFields<K(!new)>(a: Tally<K>, b: Tally<K>, k: K, salary: int)
    requires b.salaries == Append(a.salaries, k, salary)
    requires b.counts == Bump(a.counts, k) && b.total == a.total + 1
    ensures b == Took(a, k, salary)
  {
  }

  /** A state whose every accumulator took the vacancy as `Step` says is
      the step. */
  lemma StepFields(t: Totals, u: Totals, v: Vacancy, job: string)
    requires u.years.salaries == Append(t.years.salaries, v.year, v.salary)
    requires u.years.counts == Bump(t.years.counts, v.year) && u.years.total == t.years.total + 1
    requires u.cities.salaries == Append(t.cities.salaries, v.areaName, v.salary)
    requires u.cities.counts == Bump(t.cities.counts, v.areaName) && u.cities.total == t.cities.total + 1
    requires Contains(v.jobName, job) ==> u.jobYears.salaries == Append(t.jobYears.salaries, v.year, v.salary)
    requires Contains(v.jobName, job) ==> u.jobYears.counts == Bump(t.jobYears.counts, v.year)
    requires Contains(v.jobName, job) ==> u.jobYears.total == t.jobYears.total + 1
    requires !Contains(v.jobName, job) ==> u.jobYears == t.jobYears
    ensures u == Step(t, v, job)
  {
    TookFields(t.years, u.years, v.year, v.salary);
    TookFields(t.cities, u.cities, v.areaName, v.salary);
    if Contains(v.jobName, job) {
      TookFields(t.jobYears, u.jobYears, v.year, v.salary);
    }
  }

  /** The vacancies fed one after another. */
  function Fed(t: Totals, vs: seq<Vacancy>, job: string): Totals
  {
    if |vs| == 0 then t else Step(Fed(t, vs[..|vs| - 1], job), vs[|vs| - 1], job)
  }

  /** Feeding the first `i + 1` vacancies is feeding the first `i`, then
      one more. */
  lemma FedNext(t: Totals, vs: seq<Vacancy>, i: nat, job: string)
    requires i < |vs|
    ensures Fed(t, vs[..i + 1], job) == Step(Fed(t, vs[..i], job), vs[i], job)
  {
    assert vs[..i + 1][..i] == vs[..i];
  }

  lemma FedWhole(t: Totals, vs: seq<Vacancy>, job: string)
    ensures Fed(t, vs[..|vs|], job) == Fed(t, vs, job)
  {
    assert vs[..|vs|] == vs;
  }

  /** After the pass, the year accumulators hold every vacancy grouped and
      counted by year, in the order the years first appear. */
  lemma {:induction false} FedYears(t: Totals, vs: seq<Vacancy>, job: string)
    ensures Fed(t, vs, job).years.salaries == GroupInto(t.years.salaries, YearSalaries(vs))
    ensures Fed(t, vs, job).years.counts == CountInto(t.years.counts, Years(vs))
    ensures Fed(t, vs, job).years.total == t.years.total + |vs|
  {
    if |vs| > 0 {
      var front, v := vs[..|vs| - 1], vs[|vs| - 1];
      assert vs == front + [v];
      FedYears(t, front, job);
      FeedStep(front, v, job);
      GroupIntoSnoc(t.years.salaries, YearSalaries(front), v.year, v.salary);
      CountIntoSnoc(t.years.counts, Years(front), v.year);
    }
  }

  /** The city accumulators hold every vacancy grouped and counted by city. */
  lemma {:induction false} FedCities(t: Totals, vs: seq<Vacancy>, job: string)
    ensures Fed(t, vs, job).cities.salaries == GroupInto(t.cities.salaries, CitySalaries(vs))
    ensures Fed(t, vs, job).cities.counts == CountInto(t.cities.counts, Cities(vs))
    ensures Fed(t, vs, job).cities.total == t.cities.total + |vs|
  {
    if |vs| > 0 {
      var front, v := vs[..|vs| - 1], vs[|vs| - 1];
      assert vs == front + [v];
      FedCities(t, front, job);
      FeedStep(front, v, job);
      GroupIntoSnoc(t.cities.salaries, CitySalaries(front), v.areaName, v.salary);
      CountIntoSnoc(t.cities.counts, Cities(front), v.areaName);
    }
  }

  /** The profession accumulators hold exactly the matching vacancies,
      grouped and counted by year. */
  lemma {:induction false} FedJob(t: Totals, vs: seq<Vacancy>, job: string)
    ensures Fed(t, vs, job).jobYears.salaries == GroupInto(t.jobYears.salaries, YearSalaries(Matching(vs, job)))
    ensures Fed(t, vs, job).jobYears.counts == CountInto(t.jobYears.counts, Years(Matching(vs, job)))
    ensures Fed(t, vs, job).jobYears.total == t.jobYears.total + |Matching(vs, job)|
  {
    if |vs| > 0 {
      var front, v := vs[..|vs| - 1], vs[|vs| - 1];
      assert vs == front + [v];
      FedJob(t, front, job);
      FeedStep(front, v, job);
      var matched := Matching(front, job);
      if Contains(v.jobName, job) {
        FeedStep(matched, v, job);
        GroupIntoSnoc(t.jobYears.salaries, YearSalaries(matched), v.year, v.salary);
        CountIntoSnoc(t.jobYears.counts, Years(matched), v.year);
      } else {
        assert Matching(vs, job) == matched;
      }
    }
  }

  /** `Total`: the six accumulators of the report. */
  class Total {
    const salaryByYear: SalaryDict<int>
    const countByYear: CountDict<int>
    const jobSalaryYear: SalaryDict<int>
    const jobCountYear: CountDict<int>
    const jobSalaryCity: SalaryDict<string>
    const jobCountCity: CountDict<string>
    var jobName: string

    /** The six accumulators are six objects. */
    predicate Separate()
    {
      salaryByYear != jobSalaryYear && countByYear != jobCountYear
      && salaryByYear as object != jobSalaryCity && jobSalaryYear as object != jobSalaryCity
      && countByYear as object != jobCountCity && jobCountYear as object != jobCountCity
    }

    /** Six separate accumulators whose counts keep `CountsKept`: each count
        dict is `Valid`, and those by year and by city are `Positive`. */
    ghost predicate Valid()
      reads salaryByYear, countByYear, jobSalaryYear, jobCountYear, jobSalaryCity, jobCountCity
    {
      Separate() && CountsKept(State())
    }

    /** What the accumulators hold. */
    ghost function State(): Totals
      reads salaryByYear, countByYear, jobSalaryYear, jobCountYear, jobSalaryCity, jobCountCity
    {
      Totals(Tally(salaryByYear.salaryDictionary, countByYear.countDict, countByYear.length),
             Tally(jobSalaryYear.salaryDictionary, jobCountYear.countDict, jobCountYear.length),
             Tally(jobSalaryCity.salaryDictionary, jobCountCity.countDict, jobCountCity.length))
    }

    /** The fields `get_data` never writes: the averages of the three
        salary dicts, and the city lists and top shares of the two count
        dicts by year. */
    ghost function Untouched(): (ValidDict<int, int>, ValidDict<int, int>, ValidDict<string, int>,
                                 seq<int>, ValidDict<int, int>, seq<int>, ValidDict<int, int>)
      reads salaryByYear, countByYear, jobSalaryYear, jobCountYear, jobSalaryCity
    {
      (salaryByYear.averages, jobSalaryYear.averages, jobSalaryCity.averages,
       countByYear.cityList, countByYear.topPercentage, jobCountYear.cityList, jobCountYear.topPercentage)
    }

    constructor ()
      ensures Valid()
      ensures salaryByYear.salaryDictionary == Empty() && jobSalaryYear.salaryDictionary == Empty()
      ensures jobSalaryCity.salaryDictionary == Empty()
      ensures countByYear.length == 0 && countByYear.countDict == Empty()
      ensures jobCountYear.length == 0 && jobCountYear.countDict == Empty()
      ensures jobCountCity.length == 0 && jobCountCity.countDict == Empty() && jobCountCity.cityList == []
    {
      salaryByYear := new SalaryDict();
      countByYear := new CountDict();
      jobSalaryYear := new SalaryDict();
      jobCountYear := new CountDict();
      jobSalaryCity := new SalaryDict();
      jobCountCity := new CountDict();
      jobName := "";
    }

    /** The year accumulators take every vacancy. */
    method FeedYear(v: Vacancy)
      requires Separate()
      modifies salaryByYear, countByYear
      ensures salaryByYear.salaryDictionary == Append(old(salaryByYear.salaryDictionary), v.year, v.salary)
      ensures countByYear.countDict == Bump(old(countByYear.countDict), v.year)
      ensures countByYear.length == old(countByYear.length) + 1
      ensures salaryByYear.averages == old(salaryByYear.averages)
      ensures countByYear.cityList == old(countByYear.cityList) && countByYear.topPercentage == old(countByYear.topPercentage)
    {
      salaryByYear.Add(v.year, v.salary);
      countByYear.Add(v.year);
    }

    /** The city accumulators take every vacancy. */
    method FeedCity(v: Vacancy)
      requires Separate()
      modifies jobSalaryCity, jobCountCity
      ensures jobSalaryCity.salaryDictionary == Append(old(jobSalaryCity.salaryDictionary), v.areaName, v.salary)
      ensures jobCountCity.countDict == Bump(old(jobCountCity.countDict), v.areaName)
      ensures jobCountCity.length == old(jobCountCity.length) + 1
      ensures jobCountCity.cityList == old(jobCountCity.cityList)
      ensures jobSalaryCity.averages == old(jobSalaryCity.averages)
      ensures jobCountCity.topPercentage == old(jobCountCity.topPercentage)
    {
      jobSalaryCity.Add(v.areaName, v.salary);
      jobCountCity.Add(v.areaName);
    }

    /** The profession accumulators take the vacancies whose title contains
        the profession. */
    method FeedJob(v: Vacancy, job: string)
      requires Separate()
      modifies jobSalaryYear, jobCountYear
      ensures Contains(v.jobName, job) ==> jobSalaryYear.salaryDictionary == Append(old(jobSalaryYear.salaryDictionary), v.year, v.salary)
      ensures Contains(v.jobName, job) ==> jobCountYear.countDict == Bump(old(jobCountYear.countDict), v.year)
      ensures Contains(v.jobName, job) ==> jobCountYear.length == old(jobCountYear.length) + 1
      ensures !Contains(v.jobName, job) ==> jobSalaryYear.salaryDictionary == old(jobSalaryYear.salaryDictionary)
      ensures !Contains(v.jobName, job) ==> jobCountYear.countDict == old(jobCountYear.countDict)
      ensures !Contains(v.jobName, job) ==> jobCountYear.length == old(jobCountYear.length)
      ensures jobSalaryYear.averages == old(jobSalaryYear.averages)
      ensures jobCountYear.cityList == old(jobCountYear.cityList) && jobCountYear.topPercentage == old(jobCountYear.topPercentage)
    {
      if Contains(v.jobName, job) {
        jobSalaryYear.Add(v.year, v.salary);
        jobCountYear.Add(v.year);
      }
    }

    /** The body of the loop of `get_data` for one vacancy. */
    method Feed(v: Vacancy, job: string)
      requires Valid()
      modifies salaryByYear, countByYear, jobSalaryYear, jobCountYear, jobSalaryCity, jobCountCity
      ensures Valid()
      ensures State() == Step(old(State()), v, job)
      ensures jobCountCity.cityList == old(jobCountCity.cityList)
      ensures jobCountCity.topPercentage == old(jobCountCity.topPercentage) && Untouched() == old(Untouched())
    {
      ghost var before := State();
      FeedYear(v);
      ghost var years := State().years;
      FeedCity(v);
      ghost var cities := State().cities;
      FeedJob(v, job);
      assert State() == Totals(years, State().jobYears, cities);
      StepFields(before, State(), v, job);
      StepCounted(before, v, job);
    }

    /** The loop of `get_data`: every vacancy fed in order. */
    method FeedAll(vacancies: seq<Vacancy>, job: string)
      requires Valid()
      modifies salaryByYear, countByYear, jobSalaryYear, jobCountYear, jobSalaryCity, jobCountCity
      ensures Valid()
      ensures salaryByYear.salaryDictionary == GroupInto(old(salaryByYear.salaryDictionary), YearSalaries(vacancies))
      ensures countByYear.countDict == CountInto(old(countByYear.countDict), Years(vacancies))
      ensures countByYear.length == old(countByYear.length) + |vacancies|
      ensures jobSalaryCity.salaryDictionary == GroupInto(old(jobSalaryCity.salaryDictionary), CitySalaries(vacancies))
      ensures jobCountCity.countDict == CountInto(old(jobCountCity.countDict), Cities(vacancies))
      ensures jobCountCity.length == old(jobCountCity.length) + |vacancies|
      ensures jobCountCity.cityList == old(jobCountCity.cityList)
      ensures jobCountCity.topPercentage == old(jobCountCity.topPercentage) && Untouched() == old(Untouched())
      ensures jobSalaryYear.salaryDictionary
        == GroupInto(old(jobSalaryYear.salaryDictionary), YearSalaries(Matching(vacancies, job)))
      ensures jobCountYear.countDict == CountInto(old(jobCountYear.countDict), Years(Matching(vacancies, job)))
    {
      ghost var start := State();
      var i := 0;
      while i < |vacancies|
        invariant 0 <= i <= |vacancies|
        invariant Valid()
        invariant State() == Fed(start, vacancies[..i], job)
        invariant jobCountCity.cityList == old(jobCountCity.cityList)
        invariant jobCountCity.topPercentage == old(jobCountCity.topPercentage) && Untouched() == old(Untouched())
      {
        FedNext(start, vacancies, i, job);
        Feed(vacancies[i], job);
        i := i + 1;
      }
      FedWhole(start, vacancies, job);
      FedYears(start, vacancies, job);
      FedCities(start, vacancies, job);
      FedJob(start, vacancies, job);
    }

    /** The pass of `get_data` before the shares: every vacancy fed, then
        the zero fallback for the profession when nothing matched. */
    method Collect(vacancies: seq<Vacancy>, job: string)
      requires Valid()
      modifies salaryByYear, countByYear, jobSalaryYear, jobCountYear, jobSalaryCity, jobCountCity
      ensures Valid()
      ensures salaryByYear.salaryDictionary == GroupInto(old(salaryByYear.salaryDictionary), YearSalaries(vacancies))
      ensures countByYear.countDict == CountInto(old(countByYear.countDict), Years(vacancies))
      ensures countByYear.length == old(countByYear.length) + |vacancies|
      ensures jobSalaryCity.salaryDictionary == GroupInto(old(jobSalaryCity.salaryDictionary), CitySalaries(vacancies))
      ensures jobCountCity.countDict == CountInto(old(jobCountCity.countDict), Cities(vacancies))
      ensures jobCountCity.length == old(jobCountCity.length) + |vacancies|
      ensures jobCountCity.cityList == old(jobCountCity.cityList)
      ensures jobCountCity.topPercentage == old(jobCountCity.topPercentage) && Untouched() == old(Untouched())
      ensures jobSalaryYear.salaryDictionary
        == JobSalaries(old(jobSalaryYear.salaryDictionary), vacancies, job, salaryByYear.salaryDictionary.keys)
      ensures jobCountYear.countDict
        == JobCounts(old(jobCountYear.countDict), vacancies, job, countByYear.countDict.keys)
    {
      FeedAll(vacancies, job);
      if |jobSalaryYear.salaryDictionary.keys| == 0 {
        jobSalaryYear.salaryDictionary := ZeroLists(salaryByYear.salaryDictionary.keys);
      }
      if |jobCountYear.countDict.keys| == 0 {
        jobCountYear.countDict := ZeroCounts(countByYear.countDict.keys);
        SumOverZero(jobCountYear.countDict.keys, jobCountYear.countDict.values);
      }
    }

    /** `get_data`: one pass that feeds every vacancy to the year and city
        accumulators and the matching ones to the profession accumulators,
        the zero fallback for the profession when nothing matched, then the
        city shares. */
    method GetData(vacancies: seq<Vacancy>, job: string)
      requires Valid()
      modifies this, salaryByYear, countByYear, jobSalaryYear, jobCountYear, jobSalaryCity, jobCountCity
      ensures Valid() && jobName == job
      ensures salaryByYear.salaryDictionary == GroupInto(old(salaryByYear.salaryDictionary), YearSalaries(vacancies))
      ensures countByYear.countDict == CountInto(old(countByYear.countDict), Years(vacancies))
      ensures countByYear.length == old(countByYear.length) + |vacancies|
      ensures jobSalaryCity.salaryDictionary == GroupInto(old(jobSalaryCity.salaryDictionary), CitySalaries(vacancies))
      ensures jobCountCity.countDict == CountInto(old(jobCountCity.countDict), Cities(vacancies))
      ensures jobCountCity.length == old(jobCountCity.length) + |vacancies|
      ensures jobSalaryYear.salaryDictionary
        == JobSalaries(old(jobSalaryYear.salaryDictionary), vacancies, job, salaryByYear.salaryDictionary.keys)
      ensures jobCountYear.countDict
        == JobCounts(old(jobCountYear.countDict), vacancies, job, countByYear.countDict.keys)
      ensures jobCountCity.length > 0 ==>
        jobCountCity.cityList == old(jobCountCity.cityList)
          + Firsts(Shares(jobCountCity.countDict, jobCountCity.length, |jobCountCity.countDict.keys|))
      ensures jobCountCity.length > 0 ==> jobCountCity.topPercentage == TopShares(jobCountCity.countDict, jobCountCity.length)
      ensures jobCountCity.length == 0 ==> jobCountCity.cityList == old(jobCountCity.cityList) && jobCountCity.topPercentage == Empty()
      ensures Untouched() == old(Untouched())
    {
      jobName := job;
      Collect(vacancies, job);
      ghost var listed := jobCountCity.cityList;
      assert listed == old(jobCountCity.cityList);
      jobCountCity.Percentage();
      assert jobCountCity.length > 0 ==>
        jobCountCity.cityList == listed + Firsts(Shares(jobCountCity.countDict, jobCountCity.length, |jobCountCity.countDict.keys|));
    }
  }

  /** The profession "Специалист" does not occur in the title
      "Программист". */
  lemma TestNoMatch()
    ensures !Contains("Программист", "Специалист")
  {
    var hay, needle := "Программист", "Специалист";
    forall j ensures !OccursAt(hay, needle, j) {
      if 0 <= j && j + |needle| <= |hay| {
        assert hay[j..j + |needle|][0] == hay[j];
      }
    }
    ContainsIff(hay, needle);
  }

  /** The vacancy of the unit test of `get_data`: a programmer in Moscow,
      2012, 47500 roubles. */
  const Sample := Vacancy("Программист", 47500, "Москва", 2012)

  lemma TestYearSalaries()
    ensures GroupInto(Empty(), YearSalaries([Sample])) == Dict([2012], map[2012 := [47500]])
  {
    assert YearSalaries([Sample]) == [] + [(2012, 47500)];
    GroupIntoSnoc(Empty(), [], 2012, 47500);
    var r := Append(Empty<int, seq<int>>(), 2012, 47500);
    assert r.values[2012] == [] + [47500] == [47500];
    assert r.values == map[2012 := [47500]];
  }

  lemma TestYearCounts()
    ensures CountInto(Empty(), Years([Sample])) == Dict([2012], map[2012 := 1])
  {
    assert Years([Sample]) == [] + [2012];
    CountIntoSnoc(Empty(), [], 2012);
    var r := Bump(Empty<int, nat>(), 2012);
    assert r.values == map[2012 := 1];
  }

  lemma TestCitySalaries()
    ensures GroupInto(Empty(), CitySalaries([Sample])) == Dict(["Москва"], map["Москва" := [47500]])
  {
    assert CitySalaries([Sample]) == [] + [("Москва", 47500)];
    GroupIntoSnoc(Empty(), [], "Москва", 47500);
    var r := Append(Empty<string, seq<int>>(), "Москва", 47500);
    assert r.values["Москва"] == [] + [47500] == [47500];
    assert r.values == map["Москва" := [47500]];
  }

  lemma TestCityCounts()
    ensures CountInto(Empty(), Cities([Sample])) == Dict(["Москва"], map["Москва" := 1])
  {
    assert Cities([Sample]) == [] + ["Москва"];
    CountIntoSnoc(Empty(), [], "Москва");
    var r := Bump(Empty<string, nat>(), "Москва");
    assert r.values == map["Москва" := 1];
  }

  /** The profession "Специалист" matches nothing, so the profession gets
      zero for the year seen. */
  lemma TestNoMatching()
    ensures Matching([Sample], "Специалист") == []
  {
    TestNoMatch();
  }

  lemma TestZeroLists()
    ensures ZeroLists([2012]) == Dict([2012], map[2012 := [0]])
  {
    assert ZeroLists([2012]).values == map[2012 := [0]];
  }

  lemma TestZeroCounts()
    ensures ZeroCounts([2012]) == Dict([2012], map[2012 := 0])
  {
    assert ZeroCounts([2012]).values == map[2012 := 0];
  }

  lemma TestJobSalaries()
    ensures JobSalaries(Empty(), [Sample], "Специалист", [2012]) == Dict([2012], map[2012 := [0]])
  {
    TestNoMatching();
    NoMatchFallback(Empty(), Empty(), [Sample], "Специалист", [2012]);
    TestZeroLists();
  }

  lemma TestJobCounts()
    ensures JobCounts(Empty(), [Sample], "Специалист", [2012]) == Dict([2012], map[2012 := 0])
  {
    TestNoMatching();
    NoMatchFallback(Empty(), Empty(), [Sample], "Специалист", [2012]);
    TestZeroCounts();
  }

  /** `csv_filer`: the rows with the header's arity and no empty field. */
  method CsvFiler(lines: seq<Row>, headers: seq<string>) returns (ans: seq<Row>)
    ensures ans == KeepRows(lines, |headers|)
  {
    ans := [];
    var i := 0;
    while i < |lines|
      invariant 0 <= i <= |lines|
      invariant ans == KeepRows(lines[..i], |headers|)
    {
      assert lines[..i + 1][..i] == lines[..i];
      if |lines[i]| == |headers| && "" !in lines[i] {
        ans := ans + [lines[i]];
      }
      i := i + 1;
    }
    assert lines[..i] == lines;
  }

  /** `csv_reader` quits with this message when the file has no header. */
  const EmptyFile := "Пустой файл"

  /** `csv_reader` over the rows of a file: no header quits, otherwise each
      kept row becomes `dict(zip(headers, line))` with its text unchanged. */
  method CsvReader(rows: seq<Row>) returns (r: Result<seq<Dict<string, string>>, string>)
    ensures |rows| == 0 <==> r == Err(EmptyFile)
    ensures |rows| > 0 ==> r.Ok? && |r.value| == |KeepRows(rows[1..], |rows[0]|)|
    ensures |rows| > 0 ==> forall i :: 0 <= i < |r.value| ==>
      r.value[i] == RowDict(rows[0], KeepRows(rows[1..], |rows[0]|)[i])
    ensures |rows| > 0 && Distinct(rows[0]) ==> forall i, j :: 0 <= i < |r.value| && 0 <= j < |rows[0]| ==>
      r.value[i].keys == rows[0] && rows[0][j] in r.value[i].values && r.value[i].values[rows[0][j]] == KeepRows(rows[1..], |rows[0]|)[i][j]
  {
    if |rows| == 0 {
      return Err(EmptyFile);
    }
    var headers := rows[0];
    var kept := CsvFiler(rows[1..], headers);
    var dicts := seq(|kept|, i requires 0 <= i < |kept| => RowDict(headers, kept[i]));
    if Distinct(headers) {
      forall i | 0 <= i < |kept|
        ensures dicts[i].keys == headers
        ensures forall j :: 0 <= j < |headers| ==> dicts[i].values[headers[j]] == kept[i][j]
      {
        RowDictFields(headers, kept[i]);
      }
    }
    r := Ok(dicts);
  }
}

/** ConcurrentFutures.py: one file per year reduced to four per-year dicts
    (`multiprocessing_file`), the whole file reduced to two per-city dicts
    (`single_processing_file`), and the merges and rankings of
    `user_data`. Each submitted job is awaited at once, so the files are
    taken one after the other. */
module ConcurrentFutures {
  import opened Wrappers
  import opened Text
  import opened Numbers
  import opened Dicts
  import opened Ranking
  import opened Conversion
  import opened Analysis
  import opened Analyst

  /** What a file's processing raises: `int(published_at[:4])` refuses a
      row, or `int` meets the NaN mean of a year with no salaries. */
  datatype FileError = UnreadableYear | NaNMean(year: int)

  /** One row after lines 19-21: its year, its salary (the mean of the bounds
      present, NaN when both are missing) and whether its name contains the
      profession. */
  datatype YearSample = YearSample(year: int, salary: Option<real>, matches: bool)

  /** The rows as samples, or `None` when some row's year is not a number. */
  function Samples(rows: seq<VacancyRow>, profession: string): (r: Option<seq<YearSample>>)
    ensures r.Some? <==> forall i :: 0 <= i < |rows| ==> PlainYear(rows[i].publishedAt).Some?
    ensures r.Some? ==> |r.value| == |rows|
  {
    if forall i :: 0 <= i < |rows| ==> PlainYear(rows[i].publishedAt).Some? then
      Some(seq(|rows|, i requires 0 <= i < |rows| =>
        YearSample(PlainYear(rows[i].publishedAt).value, BaseSalary(rows[i]), Contains(rows[i].name, profession))))
    else None
  }

  /** The year column. */
  function YearsOf(samples: seq<YearSample>): (r: seq<int>)
    ensures |r| == |samples| && forall i :: 0 <= i < |samples| ==> r[i] == samples[i].year
  {
    seq(|samples|, i requires 0 <= i < |samples| => samples[i].year)
  }

  /** The salary column of the rows of `year`, of all of them or, with
      `jobOnly`, of those of the profession. */
  function YearSalaries(samples: seq<YearSample>, year: int, jobOnly: bool): (r: seq<Option<real>>)
    ensures |r| <= |samples|
    ensures forall i :: 0 <= i < |samples| && samples[i].year == year && (!jobOnly || samples[i].matches) ==>
      samples[i].salary in r
    ensures forall x :: x in r ==>
      exists i :: 0 <= i < |samples| && samples[i].year == year && (!jobOnly || samples[i].matches) && samples[i].salary == x
  {
    if |samples| == 0 then []
    else
      var last := samples[|samples| - 1];
      YearSalaries(samples[..|samples| - 1], year, jobOnly)
        + (if last.year == year && (!jobOnly || last.matches) then [last.salary] else [])
  }

  /** A year of the file has rows, and the rows of the profession are
      among them. */
  lemma {:induction false} YearSalariesCounts(samples: seq<YearSample>, year: int)
    ensures |YearSalaries(samples, year, true)| <= |YearSalaries(samples, year, false)|
    ensures year in YearsOf(samples) <==> |YearSalaries(samples, year, false)| > 0
    ensures |YearSalaries(samples, year, false)| == Occurrences(YearsOf(samples), year)
  {
    if |samples| > 0 {
      var front := samples[..|samples| - 1];
      YearSalariesCounts(front, year);
      assert YearsOf(samples) == YearsOf(front) + [samples[|samples| - 1].year];
      assert YearsOf(samples)[..|samples| - 1] == YearsOf(front);
    }
  }

  /** Both truncated means of `year` exist: some row of the year and some
      row of the profession in that year has a salary. */
  predicate Averaged(samples: seq<YearSample>, year: int)
  {
    IntMean(YearSalaries(samples, year, false)).Some? && IntMean(YearSalaries(samples, year, true)).Some?
  }

  /** The four dicts hold exactly `years`, in order, each with its truncated
      mean salary, its number of rows, and the same two for the rows of the
      profession. */
  ghost predicate Filled(samples: seq<YearSample>, f: YearFigures, years: seq<int>)
  {
    && f.salary.Valid() && f.count.Valid() && f.professionSalary.Valid() && f.professionCount.Valid()
    && f.salary.keys == years && f.count.keys == years
    && f.professionSalary.keys == years && f.professionCount.keys == years
    && forall y :: y in years ==>
      && Some(f.salary.values[y]) == IntMean(YearSalaries(samples, y, false))
      && f.count.values[y] == |YearSalaries(samples, y, false)|
      && Some(f.professionSalary.values[y]) == IntMean(YearSalaries(samples, y, true))
      && f.professionCount.values[y] == |YearSalaries(samples, y, true)|
  }

  /** One pass of the year loop keeps `Filled`. */
  lemma FilledPut(samples: seq<YearSample>, f: YearFigures, years: seq<int>, y: int)
    requires Filled(samples, f, years) && y !in years && Averaged(samples, y)
    ensures Filled(samples, YearFigures(
      Put(f.salary, y, IntMean(YearSalaries(samples, y, false)).value),
      Put(f.count, y, |YearSalaries(samples, y, false)|),
      Put(f.professionSalary, y, IntMean(YearSalaries(samples, y, true)).value),
      Put(f.professionCount, y, |YearSalaries(samples, y, true)|)), years + [y])
  {
  }

  /** The loop of `multiprocessing_file` (lines 27-31): for every year of
      the samples, in order of first occurrence, the truncated mean salary
      and the number of rows, for all rows and for the rows of the
      profession, or the first year where either mean is NaN. */
  method FillYears(s: seq<YearSample>) returns (r: Result<YearFigures, int>)
    ensures r.Err? <==> exists y :: y in YearsOf(s) && !Averaged(s, y)
    ensures r.Err? ==> r.error in YearsOf(s) && !Averaged(s, r.error)
    ensures r.Ok? ==> Filled(s, r.value, FirstOccurrences(YearsOf(s)))
  {
    var years := FirstOccurrences(YearsOf(s));
    var salary, count, professionSalary, professionCount := Empty(), Empty(), Empty(), Empty();
    for i := 0 to |years|
      invariant Filled(s, YearFigures(salary, count, professionSalary, professionCount), years[..i])
      invariant forall j :: 0 <= j < i ==> Averaged(s, years[j])
    {
      var y := years[i];
      var mean := IntMean(YearSalaries(s, y, false));
      var jobMean := IntMean(YearSalaries(s, y, true));
      if mean.None? || jobMean.None? {
        assert y in YearsOf(s) && !Averaged(s, y);
        return Err(y);
      }
      assert y !in years[..i];
      assert years[..i + 1] == years[..i] + [y];
      FilledPut(s, YearFigures(salary, count, professionSalary, professionCount), years[..i], y);
      salary := Put(salary, y, mean.value);
      count := Put(count, y, |YearSalaries(s, y, false)|);
      professionSalary := Put(professionSalary, y, jobMean.value);
      professionCount := Put(professionCount, y, |YearSalaries(s, y, true)|);
    }
    assert years[..|years|] == years;
    forall y | y in YearsOf(s) ensures Averaged(s, y) {
      assert y in years;
    }
    return Ok(YearFigures(salary, count, professionSalary, professionCount));
  }

  /** `multiprocessing_file`: the figures of every year of the file; it
      fails on a row whose year is not a number and on a year where either
      mean is NaN. */
  method MultiprocessingFile(rows: seq<VacancyRow>, profession: string) returns (r: Result<YearFigures, FileError>)
    ensures Samples(rows, profession).None? <==> r == Err(UnreadableYear)
    ensures Samples(rows, profession).Some? ==>
      var s := Samples(rows, profession).value;
      && (r.Err? <==> exists y :: y in YearsOf(s) && !Averaged(s, y))
      && (r.Err? ==> r.error.NaNMean? && r.error.year in YearsOf(s) && !Averaged(s, r.error.year))
      && (r.Ok? ==> Filled(s, r.value, FirstOccurrences(YearsOf(s))))
  {
    var samples := Samples(rows, profession);
    if samples.None? {
      return Err(UnreadableYear);
    }
    var figures := FillYears(samples.value);
    if figures.Err? {
      return Err(NaNMean(figures.error));
    }
    return Ok(figures.value);
  }

  /** The (area, salary) column pair of the whole file. */
  function AreaSamples(rows: seq<VacancyRow>): (r: seq<(string, Option<real>)>)
    ensures |r| == |rows|
  {
    seq(|rows|, i requires 0 <= i < |rows| => (rows[i].areaName, BaseSalary(rows[i])))
  }

  /** `single_processing_file`: the cities with strictly more than one
      percent of the rows, each with the truncated mean of its salaries and
      its share of the rows; it fails on a row whose year is not a number
      and on a city whose salaries are all NaN. */
  method SingleProcessingFile(rows: seq<VacancyRow>) returns (r: Result<(Dict<string, int>, Dict<string, int>), Option<string>>)
    ensures r == Err(None) <==> exists i :: 0 <= i < |rows| && PlainYear(rows[i].publishedAt).None?
    ensures r.Err? && r.error.Some? ==>
      r.error.value in Reaching(AreaSamples(rows), true) && IntMean(ValuesOf(AreaSamples(rows), r.error.value)).None?
    ensures r.Ok? ==>
      var samples := AreaSamples(rows);
      && (forall c :: c in Reaching(samples, true) ==> IntMean(ValuesOf(samples, c)).Some?)
      && r.value.0.Valid() && r.value.1.Valid()
      && r.value.0.keys == Reaching(samples, true) && r.value.1.keys == Reaching(samples, true)
      && forall c :: c in r.value.0.values ==>
        && Some(r.value.0.values[c]) == IntMean(ValuesOf(samples, c))
        && r.value.1.values[c] == Share4(Occurrences(Firsts(samples), c), |samples|)
  {
    if exists i :: 0 <= i < |rows| && PlainYear(rows[i].publishedAt).None? {
      return Err(None);
    }
    var cities := CityStats(AreaSamples(rows), true);
    if cities.Err? {
      return Err(Some(cities.error));
    }
    return Ok(cities.value);
  }

  /** `result_list[k]`: one of the four dicts of every file. */
  function Part(data: seq<YearFigures>, k: nat): (maps: seq<Dict<int, int>>)
    requires k < 4
    ensures |maps| == |data|
  {
    seq(|data|, i requires 0 <= i < |data| =>
      if k == 0 then data[i].salary else if k == 1 then data[i].count
      else if k == 2 then data[i].professionSalary else data[i].professionCount)
  }

  /** `dict(sorted(dict(ChainMap(*maps)).items(), key=lambda x: x[0]))`. */
  function MergedYears(maps: seq<Dict<int, int>>): (r: Dict<int, int>)
    requires forall i :: 0 <= i < |maps| ==> maps[i].Valid()
    ensures r.Valid()
  {
    DictSort(ChainMap(maps))
  }

  /** The merged dict has the years of all the files in increasing order,
      each with its value in the first file that has it. */
  lemma MergedYearsSpec(maps: seq<Dict<int, int>>, y: int)
    requires forall i :: 0 <= i < |maps| ==> maps[i].Valid()
    ensures y in MergedYears(maps).values <==> exists i :: 0 <= i < |maps| && y in maps[i].values
    ensures forall i :: 0 <= i < |maps| && y in maps[i].values && (forall j :: 0 <= j < i ==> y !in maps[j].values) ==>
      MergedYears(maps).values[y] == maps[i].values[y]
    ensures var keys := MergedYears(maps).keys;
      forall i, j :: 0 <= i < j < |keys| ==> keys[i] < keys[j]
  {
    DictSortValues(ChainMap(maps));
    DictSortOrder(ChainMap(maps));
    ChainMapKeys(maps, y);
    forall i | 0 <= i < |maps| && y in maps[i].values && (forall j :: 0 <= j < i ==> y !in maps[j].values)
      ensures MergedYears(maps).values[y] == maps[i].values[y]
    {
      ChainMapFirst(maps, y, i);
    }
  }

  /** The six dicts `user_data` prints. */
  datatype Report = Report(salaryByYear: Dict<int, int>, countByYear: Dict<int, int>,
                           professionSalaryByYear: Dict<int, int>, professionCountByYear: Dict<int, int>,
                           salaryByCity: Dict<string, int>, shareByCity: Dict<string, int>)

  /** `result_list[0]` of an empty `result_list`. */
  datatype IndexError = IndexError

  /** Whether every dict of every file keeps the dict invariant. */
  ghost predicate AllValid(data: seq<YearFigures>)
  {
    forall i :: 0 <= i < |data| ==>
      data[i].salary.Valid() && data[i].count.Valid() && data[i].professionSalary.Valid() && data[i].professionCount.Valid()
  }

  /** `user_data` once the files are processed: the per-year dicts merged
      and sorted by year, the per-city dicts ranked by value and cut to
      ten. With no file, `zip(*data)` is empty and `result_list[0]` raises
      `IndexError`. */
  function UserData(data: seq<YearFigures>, salaryByCity: Dict<string, int>, shareByCity: Dict<string, int>): (r: Result<Report, IndexError>)
    requires AllValid(data) && salaryByCity.Valid() && shareByCity.Valid()
    ensures r.Err? <==> |data| == 0
    ensures r.Ok? ==> |r.value.salaryByCity.keys| <= 10 && |r.value.shareByCity.keys| <= 10
    ensures r.Ok? ==> forall c :: c in r.value.shareByCity.values ==>
      c in shareByCity.values && r.value.shareByCity.values[c] == shareByCity.values[c]
    ensures r.Ok? ==> forall c :: c in r.value.salaryByCity.values ==>
      c in salaryByCity.values && r.value.salaryByCity.values[c] == salaryByCity.values[c]
    ensures r.Ok? ==> r.value.salaryByCity == TopByValue(salaryByCity) && r.value.shareByCity == TopByValue(shareByCity)
    ensures r.Ok? ==>
      && r.value.salaryByYear == MergedYears(Part(data, 0)) && r.value.countByYear == MergedYears(Part(data, 1))
      && r.value.professionSalaryByYear == MergedYears(Part(data, 2)) && r.value.professionCountByYear == MergedYears(Part(data, 3))
  {
    if |data| == 0 then Err(IndexError)
    else
      TopByValueSize(salaryByCity);
      TopByValueSize(shareByCity);
      TopByValueKept(salaryByCity);
      TopByValueKept(shareByCity);
      Ok(Report(MergedYears(Part(data, 0)), MergedYears(Part(data, 1)), MergedYears(Part(data, 2)), MergedYears(Part(data, 3)),
                TopByValue(salaryByCity), TopByValue(shareByCity)))
  }
}

/** The `__main__` block of 3.4.3/PdfCreateAnalystMore.py: the years of the
    raw rows, the city table over the converted rows and the figures of one
    profession in one region, year by year. */
module AnalystMore {
  import opened Wrappers
  import opened Text
  import opened Dicts
  import opened Analysis
  import opened Conversion

  /** The (area, salary) columns of the converted rows. */
  function CitySamples(rows: seq<ConvertedRow>): seq<(string, Option<real>)>
  {
    seq(|rows|, i requires 0 <= i < |rows| => (rows[i].areaName, SalaryValue(rows[i].salary)))
  }

  /** A row of the profession (its name contains `vacName`), in the region
      and in the year. */
  predicate InYear(row: ConvertedRow, vacName: string, areaName: string, year: int)
  {
    Contains(row.name, vacName) && row.areaName == areaName && DottedYear(row.publishedAt) == Some(year)
  }

  /** `vacancy_salary`: the rows of the profession, region and year, in order. */
  function Selected(rows: seq<ConvertedRow>, vacName: string, areaName: string, year: int): (r: seq<ConvertedRow>)
    ensures |r| <= |rows|
    ensures forall row :: row in r <==> row in rows && InYear(row, vacName, areaName, year)
  {
    if |rows| == 0 then []
    else
      var last := rows[|rows| - 1];
      assert forall row :: row in rows <==> row in rows[..|rows| - 1] || row == last;
      Selected(rows[..|rows| - 1], vacName, areaName, year) + (if InYear(last, vacName, areaName, year) then [last] else [])
  }

  /** The years of `years` that have selected rows, in order: the others are
      skipped by `if not vacancy_salary.empty`. */
  function FilledYears(rows: seq<ConvertedRow>, years: seq<int>, vacName: string, areaName: string): (r: seq<int>)
    ensures forall y :: y in r <==> y in years && |Selected(rows, vacName, areaName, y)| > 0
    ensures Distinct(years) ==> Distinct(r)
  {
    if |years| == 0 then []
    else
      var y := years[|years| - 1];
      assert forall x :: x in years <==> x in years[..|years| - 1] || x == y;
      FilledYears(rows, years[..|years| - 1], vacName, areaName)
        + (if |Selected(rows, vacName, areaName, y)| > 0 then [y] else [])
  }

  /** The selected rows of `year` have no numeric salary, so their mean is
      NaN and `int` raises. */
  predicate Unaveraged(rows: seq<ConvertedRow>, vacName: string, areaName: string, year: int)
  {
    var selected := Selected(rows, vacName, areaName, year);
    |selected| > 0 && IntMean(SalariesOf(selected)).None?
  }

  /** Every year of `salary` carries the truncated mean salary of its
      selected rows, and in `count` their number. */
  ghost predicate YearRows(rows: seq<ConvertedRow>, vacName: string, areaName: string, salary: Dict<int, int>, count: Dict<int, int>)
  {
    forall y :: y in salary.values ==>
      && Some(salary.values[y]) == IntMean(SalariesOf(Selected(rows, vacName, areaName, y)))
      && y in count.values
      && count.values[y] == |Selected(rows, vacName, areaName, y)|
  }

  /** One pass of the year loop keeps `YearRows`. */
  lemma YearRowsPut(rows: seq<ConvertedRow>, vacName: string, areaName: string, salary: Dict<int, int>, count: Dict<int, int>, year: int, mean: int)
    requires salary.Valid() && count.Valid() && YearRows(rows, vacName, areaName, salary, count)
    requires Some(mean) == IntMean(SalariesOf(Selected(rows, vacName, areaName, year)))
    ensures YearRows(rows, vacName, areaName, Put(salary, year, mean), Put(count, year, |Selected(rows, vacName, areaName, year)|))
  {
  }

  lemma FilledYearsStep(rows: seq<ConvertedRow>, years: seq<int>, vacName: string, areaName: string, i: nat)
    requires i < |years|
    ensures FilledYears(rows, years[..i + 1], vacName, areaName) == FilledYears(rows, years[..i], vacName, areaName)
      + (if |Selected(rows, vacName, areaName, years[i])| > 0 then [years[i]] else [])
  {
    assert years[..i + 1][..i] == years[..i];
  }

  /** The year loop (`vacancy_of_profession_salary` and
      `vacancy_of_profession_count`): each year with selected rows gets their
      truncated mean salary and their number; a year without rows is left
      out; a year whose selected salaries are all NaN makes `int` raise. */
  method ProfessionRegion(rows: seq<ConvertedRow>, years: seq<int>, vacName: string, areaName: string)
    returns (r: Result<(Dict<int, int>, Dict<int, int>), int>)
    requires Distinct(years)
    ensures r.Err? <==> exists y :: y in years && Unaveraged(rows, vacName, areaName, y)
    ensures r.Ok? ==> r.value.0.Valid() && r.value.1.Valid()
    ensures r.Ok? ==> r.value.0.keys == FilledYears(rows, years, vacName, areaName)
    ensures r.Ok? ==> r.value.1.keys == FilledYears(rows, years, vacName, areaName)
    ensures r.Ok? ==> forall y :: y in r.value.0.values ==>
      && Some(r.value.0.values[y]) == IntMean(SalariesOf(Selected(rows, vacName, areaName, y)))
      && r.value.1.values[y] == |Selected(rows, vacName, areaName, y)|
  {
    var salary: Dict<int, int> := Empty();
    var count: Dict<int, int> := Empty();
    for i := 0 to |years|
      invariant salary.Valid() && count.Valid()
      invariant salary.keys == FilledYears(rows, years[..i], vacName, areaName)
      invariant count.keys == FilledYears(rows, years[..i], vacName, areaName)
      invariant YearRows(rows, vacName, areaName, salary, count)
      invariant forall y :: y in years[..i] ==> !Unaveraged(rows, vacName, areaName, y)
    {
      var year := years[i];
      FilledYearsStep(rows, years, vacName, areaName, i);
      assert forall y :: y in years[..i + 1] <==> y in years[..i] || y == year;
      var selected := Selected(rows, vacName, areaName, year);
      if |selected| > 0 {
        var mean := IntMean(SalariesOf(selected));
        if mean.None? {
          assert year in years && Unaveraged(rows, vacName, areaName, year);
          return Err(year);
        }
        assert year !in years[..i];
        YearRowsPut(rows, vacName, areaName, salary, count, year, mean.value);
        salary := Put(salary, year, mean.value);
        count := Put(count, year, |selected|);
      }
    }
    assert years[..|years|] == years;
    return Ok((salary, count));
  }
}

/** 3.4.2/PdfCreateAnalyst.py: the rows are split into one part per year,
    each part is converted and reduced to four single-key dicts by
    `proccess`, and the main loop merges them with `update`. */
module Analyst {
  import opened Wrappers
  import opened Text
  import opened Dicts
  import opened Analysis
  import opened Conversion

  /** The part file of `year` written by `SplittingCSV`: the rows of that
      year, in order. */
  function YearPart(rows: seq<VacancyRow>, year: int): (r: seq<VacancyRow>)
    ensures |r| <= |rows|
    ensures forall row :: row in r <==> row in rows && DottedYear(row.publishedAt) == Some(year)
  {
    if |rows| == 0 then []
    else
      var last := rows[|rows| - 1];
      assert forall row :: row in rows <==> row in rows[..|rows| - 1] || row == last;
      YearPart(rows[..|rows| - 1], year) + (if DottedYear(last.publishedAt) == Some(year) then [last] else [])
  }

  /** `vac_df`: the converted rows whose name contains the profession. */
  function Named(rows: seq<ConvertedRow>, vacName: string): (r: seq<ConvertedRow>)
    ensures |r| <= |rows|
    ensures forall row :: row in r <==> row in rows && Contains(row.name, vacName)
  {
    if |rows| == 0 then []
    else
      var last := rows[|rows| - 1];
      assert forall row :: row in rows <==> row in rows[..|rows| - 1] || row == last;
      Named(rows[..|rows| - 1], vacName) + (if Contains(last.name, vacName) then [last] else [])
  }

  /** Why a year cannot be processed: a month missing from the rate table,
      or a mean over no numbers, which `int` refuses. */
  datatype YearError = RateError(error: ConvertError) | NoMean(year: int)

  /** The four dicts `proccess` returns. */
  datatype YearFigures = YearFigures(salary: Dict<int, int>, count: Dict<int, int>,
                                     professionSalary: Dict<int, int>, professionCount: Dict<int, int>)

  /** Four dicts, each holding `year` alone. */
  ghost predicate KeyedBy(year: int, f: YearFigures)
  {
    && f.salary.Valid() && f.count.Valid() && f.professionSalary.Valid() && f.professionCount.Valid()
    && f.salary.keys == [year] && f.count.keys == [year]
    && f.professionSalary.keys == [year] && f.professionCount.keys == [year]
  }

  /** A dict holding `year` alone. */
  function Single(year: int, v: int): (d: Dict<int, int>)
    ensures d.Valid() && d.keys == [year] && d.values[year] == v
  {
    Dict([year], map[year := v])
  }

  /** The converter of this script: rates from the third column on. */
  function Convert(frame: RateFrame): VacancyRow -> Result<Salary, ConvertError>
  {
    row => ConvertSalary(ExchangeRates(frame), frame, row)
  }

  /** `proccess((vac_name, year))`: the truncated mean salary and the number
      of the year's converted rows, and the same for the rows of the
      profession; a mean over no numbers (for instance a year without a
      vacancy of the profession) raises. */
  function Process(frame: RateFrame, rows: seq<VacancyRow>, vacName: string, year: int): (r: Result<YearFigures, YearError>)
    ensures r.Ok? <==> (
      && CreateCsv(Convert(frame), YearPart(rows, year)).Ok?
      && IntMean(SalariesOf(CreateCsv(Convert(frame), YearPart(rows, year)).value)).Some?
      && IntMean(SalariesOf(Named(CreateCsv(Convert(frame), YearPart(rows, year)).value, vacName))).Some?)
    ensures r.Ok? ==> KeyedBy(year, r.value)
    ensures r.Ok? ==> r.value.professionCount.values[year] <= r.value.count.values[year] <= |YearPart(rows, year)|
    ensures r.Err? && r.error.NoMean? ==> r.error.year == year
  {
    match CreateCsv(Convert(frame), YearPart(rows, year))
    case Err(e) => Err(RateError(e))
    case Ok(converted) =>
      var named := Named(converted, vacName);
      var salary := IntMean(SalariesOf(converted));
      var professionSalary := IntMean(SalariesOf(named));
      if salary.None? || professionSalary.None? then Err(NoMean(year))
      else
        Ok(YearFigures(Single(year, salary.value), Single(year, |converted|),
                       Single(year, professionSalary.value), Single(year, |named|)))
  }

  /** The converted rows of a year are exactly its rows with a salary, and
      the profession's rows are those among them whose name contains it. */
  lemma ProcessRows(frame: RateFrame, rows: seq<VacancyRow>, vacName: string, year: int)
    requires Process(frame, rows, vacName, year).Ok?
    ensures var converted := CreateCsv(Convert(frame), YearPart(rows, year)).value;
      && (forall row :: row in rows && DottedYear(row.publishedAt) == Some(year) ==>
            (WithSalary(row, Convert(frame)(row).value) in converted <==> Convert(frame)(row).value != Missing))
      && (forall row :: row in Named(converted, vacName) <==> row in converted && Contains(row.name, vacName))
  {
    var part := YearPart(rows, year);
    CreateCsvKeeps(Convert(frame), part);
    forall row | row in rows && DottedYear(row.publishedAt) == Some(year)
      ensures WithSalary(row, Convert(frame)(row).value) in CreateCsv(Convert(frame), part).value
        <==> Convert(frame)(row).value != Missing
    {
      var i :| 0 <= i < |part| && part[i] == row;
    }
  }

  /** Every year of the merged dicts carries what `process` gave for it. */
  ghost predicate Merged(process: int -> Result<YearFigures, YearError>, f: YearFigures)
  {
    forall y :: y in f.salary.values ==>
      && process(y).Ok?
      && var g := process(y).value;
      && y in g.salary.values && y in g.count.values && y in g.professionSalary.values && y in g.professionCount.values
      && f.salary.values[y] == g.salary.values[y]
      && y in f.count.values && f.count.values[y] == g.count.values[y]
      && y in f.professionSalary.values && f.professionSalary.values[y] == g.professionSalary.values[y]
      && y in f.professionCount.values && f.professionCount.values[y] == g.professionCount.values[y]
  }

  /** The totals after some years: valid dicts, the years as keys in
      order, and each year's figures from `process`. */
  ghost predicate Totals(process: int -> Result<YearFigures, YearError>, f: YearFigures, years: seq<int>)
  {
    && f.salary.Valid() && f.count.Valid() && f.professionSalary.Valid() && f.professionCount.Valid()
    && f.salary.keys == years && f.count.keys == years
    && f.professionSalary.keys == years && f.professionCount.keys == years
    && Merged(process, f)
  }

  /** The four `update` calls of one pass of the main loop. */
  function Merge(f: YearFigures, g: YearFigures): YearFigures
    requires f.salary.Valid() && f.count.Valid() && f.professionSalary.Valid() && f.professionCount.Valid()
    requires g.salary.Valid() && g.count.Valid() && g.professionSalary.Valid() && g.professionCount.Valid()
  {
    YearFigures(Update(f.salary, g.salary), Update(f.count, g.count),
                Update(f.professionSalary, g.professionSalary), Update(f.professionCount, g.professionCount))
  }

  /** Merging one processed year keeps `Merged`. */
  lemma MergeOne(process: int -> Result<YearFigures, YearError>, f: YearFigures, y: int, g: YearFigures)
    requires f.salary.Valid() && f.count.Valid() && f.professionSalary.Valid() && f.professionCount.Valid()
    requires Merged(process, f)
    requires process(y) == Ok(g)
    requires y in g.salary.values && y in g.count.values && y in g.professionSalary.values && y in g.professionCount.values
    ensures Merged(process, YearFigures(Put(f.salary, y, g.salary.values[y]), Put(f.count, y, g.count.values[y]),
      Put(f.professionSalary, y, g.professionSalary.values[y]), Put(f.professionCount, y, g.professionCount.values[y])))
  {
  }

  /** Merging a new year's figures appends the year to the totals. */
  lemma MergeStep(process: int -> Result<YearFigures, YearError>, f: YearFigures, years: seq<int>, y: int, g: YearFigures)
    requires Totals(process, f, years) && y !in years
    requires process(y) == Ok(g) && KeyedBy(y, g)
    ensures Totals(process, Merge(f, g), years + [y])
  {
    UpdateOne(f.salary, y, g.salary.values[y]);
    UpdateOne(f.count, y, g.count.values[y]);
    UpdateOne(f.professionSalary, y, g.professionSalary.values[y]);
    UpdateOne(f.professionCount, y, g.professionCount.values[y]);
    MergeOne(process, f, y, g);
  }

  /** The main loop, given `process` (which is
      `y => Process(frame, rows, vac_name, y)` in the script): every year is
      processed in turn and its four dicts are merged into the totals with
      `update`, so each total has exactly the processed years as keys, in
      processing order; the first year that fails stops the loop. */
  method Collect(process: int -> Result<YearFigures, YearError>, years: seq<int>)
    returns (r: Result<YearFigures, YearError>)
    requires Distinct(years)
    requires forall y :: y in years && process(y).Ok? ==> KeyedBy(y, process(y).value)
    ensures r.Ok? <==> forall y :: y in years ==> process(y).Ok?
    ensures r.Err? ==> exists y :: y in years && process(y) == Err(r.error)
    ensures r.Ok? ==> r.value.salary.keys == years && r.value.count.keys == years
    ensures r.Ok? ==> r.value.professionSalary.keys == years && r.value.professionCount.keys == years
    ensures r.Ok? ==> r.value.salary.Valid() && r.value.count.Valid()
    ensures r.Ok? ==> r.value.professionSalary.Valid() && r.value.professionCount.Valid()
    ensures r.Ok? ==> Merged(process, r.value)
  {
    var f := YearFigures(Empty(), Empty(), Empty(), Empty());
    for i := 0 to |years|
      invariant Totals(process, f, years[..i])
    {
      var y := years[i];
      var answer := process(y);
      if answer.Err? {
        return Err(answer.error);
      }
      assert y !in years[..i];
      assert years[..i + 1] == years[..i] + [y];
      MergeStep(process, f, years[..i], y, answer.value);
      f := Merge(f, answer.value);
    }
    assert years[..|years|] == years;
    forall y | y in years ensures process(y).Ok? {
      assert y in f.salary.values;
    }
    return Ok(f);
  }
}

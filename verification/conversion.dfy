/** Conversion of vacancy salaries to roubles, shared by ApiCSVConvert.py,
    3.4.2/PdfCreateAnalyst.py, 3.4.3/PdfCreateAnalystMore.py and
    3.5.2/data_base_3.5.2.py: `DataSetConverter.convert_salary` and the
    frame step that adds the `salary` column and drops the rows without one. */
module Conversion {
  import opened Wrappers
  import opened Numbers
  import opened Timestamp

  /** A row of the six-column vacancy files; a NaN cell (an empty field in
      the CSV) is `None`. */
  datatype VacancyRow = VacancyRow(name: string, salaryFrom: Option<real>, salaryTo: Option<real>,
                                   currency: Option<string>, areaName: string, publishedAt: string)

  /** What `convert_salary` returns: the text 'nan', a number, or the float
      NaN that multiplying by an empty rate cell gives. */
  datatype Salary = Missing | Amount(value: real) | NotANumber

  /** The exchange-rate frame: its column names ("date" and then the
      currency codes) and, per "YYYY-MM" month, the rate of each code, `None`
      for an empty cell. */
  datatype RateFrame = RateFrame(columns: seq<string>, months: map<string, map<string, Option<real>>>)

  /** Selecting the rate of a month without a row raises `IndexError` (or
      `KeyError` on the SQL result); multiplying by the text '' that
      ApiCSVConvert.py leaves in an empty cell of its in-memory frame raises
      `TypeError`. */
  datatype ConvertError = NoRateRow(month: string) | EmptyRate(month: string)

  /** `list(filter(lambda x: str(x) != 'nan', row[:2]))`. */
  function Bounds(row: VacancyRow): (r: seq<real>)
    ensures |r| <= 2
  {
    (if row.salaryFrom.Some? then [row.salaryFrom.value] else []) + (if row.salaryTo.Some? then [row.salaryTo.value] else [])
  }

  /** `statistics.mean` of the bounds that are present; `None` when both are
      missing. */
  function BaseSalary(row: VacancyRow): (r: Option<real>)
    ensures r.None? <==> row.salaryFrom.None? && row.salaryTo.None?
  {
    var xs := Bounds(row);
    if |xs| == 0 then None else Some(SumReal(xs) / |xs| as real)
  }

  /** With one bound the base salary is that bound, with two it is their
      mean. */
  lemma BaseSalaryCases(row: VacancyRow)
    ensures row.salaryFrom.Some? && row.salaryTo.None? ==> BaseSalary(row) == Some(row.salaryFrom.value)
    ensures row.salaryFrom.None? && row.salaryTo.Some? ==> BaseSalary(row) == Some(row.salaryTo.value)
    ensures row.salaryFrom.Some? && row.salaryTo.Some? ==>
      BaseSalary(row) == Some((row.salaryFrom.value + row.salaryTo.value) / 2.0)
  {
    var xs := Bounds(row);
    if |xs| == 1 {
      assert SumReal(xs) == SumReal(xs[..0]) + xs[0];
    } else if |xs| == 2 {
      assert xs[..1][..0] == [];
      assert SumReal(xs) == SumReal(xs[..1]) + xs[1] == xs[0] + xs[1];
    }
  }

  /** Python's `s[n:]`. */
  function Drop<T>(s: seq<T>, n: nat): (r: seq<T>)
    ensures |r| == if |s| < n then 0 else |s| - n
    ensures forall i :: 0 <= i < |r| ==> r[i] == s[n + i]
  {
    if |s| <= n then [] else s[n..]
  }

  /** `exchange_rates = list(currency_dataframe.keys()[2:])`, as the 3.4.x
      converters and ApiCSVConvert.py take it. */
  function ExchangeRates(frame: RateFrame): seq<string>
  {
    Drop(frame.columns, 2)
  }

  /** `currencies = list(....keys()[1:])`, as 3.5.2 takes it: every column
      after "date". */
  function Currencies(frame: RateFrame): seq<string>
  {
    Drop(frame.columns, 1)
  }

  /** The row's currency is one that gets multiplied by a rate. */
  predicate Converts(listed: seq<string>, row: VacancyRow)
  {
    row.currency.Some? && row.currency.value != "RUR" && row.currency.value in listed
  }

  /** The cell of the row's currency in the row's month, which must exist. */
  function RateOf(frame: RateFrame, row: VacancyRow): Option<real>
    requires row.currency.Some? && MonthKey(row.publishedAt) in frame.months
  {
    var rates := frame.months[MonthKey(row.publishedAt)];
    if row.currency.value in rates then rates[row.currency.value] else None
  }

  /** `convert_salary` of ApiCSVConvert.py, 3.4.2 and 3.4.3, converting the
      codes in `listed`: 'nan' without a currency or without any bound,
      otherwise the mean of the bounds, multiplied by the month's rate for a
      listed code other than RUR. */
  function ConvertSalary(listed: seq<string>, frame: RateFrame, row: VacancyRow): (r: Result<Salary, ConvertError>)
    ensures r == Ok(Missing) <==> row.currency.None? || BaseSalary(row).None?
    ensures r.Err? <==> BaseSalary(row).Some? && Converts(listed, row) && MonthKey(row.publishedAt) !in frame.months
  {
    if row.currency.None? then Ok(Missing)
    else
      match BaseSalary(row)
      case None => Ok(Missing)
      case Some(base) =>
        if !Converts(listed, row) then Ok(Amount(base))
        else if MonthKey(row.publishedAt) !in frame.months then Err(NoRateRow(MonthKey(row.publishedAt)))
        else
          match RateOf(frame, row)
          case None => Ok(NotANumber)
          case Some(rate) => Ok(Amount(rate * base))
  }

  /** The cases of `convert_salary`: an unconverted code keeps the mean, a
      listed code is multiplied by the month's rate, an empty rate cell gives
      NaN and a month without a row raises. */
  lemma ConvertSalaryCases(listed: seq<string>, frame: RateFrame, row: VacancyRow)
    requires row.currency.Some? && BaseSalary(row).Some?
    ensures !Converts(listed, row) ==> ConvertSalary(listed, frame, row) == Ok(Amount(BaseSalary(row).value))
    ensures Converts(listed, row) && MonthKey(row.publishedAt) !in frame.months ==>
      ConvertSalary(listed, frame, row) == Err(NoRateRow(MonthKey(row.publishedAt)))
    ensures Converts(listed, row) && MonthKey(row.publishedAt) in frame.months && RateOf(frame, row).None? ==>
      ConvertSalary(listed, frame, row) == Ok(NotANumber)
    ensures Converts(listed, row) && MonthKey(row.publishedAt) in frame.months && RateOf(frame, row).Some? ==>
      ConvertSalary(listed, frame, row) == Ok(Amount(RateOf(frame, row).value * BaseSalary(row).value))
  {
    if Converts(listed, row) && MonthKey(row.publishedAt) in frame.months && RateOf(frame, row).Some? {
      var rate, base := RateOf(frame, row).value, BaseSalary(row).value;
      assert BaseSalary(row) == Some(base) && RateOf(frame, row) == Some(rate);
      var r := ConvertSalary(listed, frame, row);
      assert r.Ok? && r.value.Amount? && r.value.value == rate * base;
      assert r.value == Amount(rate * base);
      assert r == Ok(Amount(rate * base));
      assert RateOf(frame, row).value * BaseSalary(row).value == rate * base;
      assert ConvertSalary(listed, frame, row) == Ok(Amount(RateOf(frame, row).value * BaseSalary(row).value));
    }
  }

  /** `convert_salary` of 3.5.2: the same, except that a NULL rate gives
      'nan' instead of a product. */
  function ConvertSalaryOrNull(currencies: seq<string>, frame: RateFrame, row: VacancyRow): (r: Result<Salary, ConvertError>)
    ensures r.Ok? ==> !r.value.NotANumber?
  {
    if row.currency.None? then Ok(Missing)
    else
      match BaseSalary(row)
      case None => Ok(Missing)
      case Some(salary) =>
        if !Converts(currencies, row) then Ok(Amount(salary))
        else if MonthKey(row.publishedAt) !in frame.months then Err(NoRateRow(MonthKey(row.publishedAt)))
        else
          match RateOf(frame, row)
          case None => Ok(Missing)
          case Some(rate) => Ok(Amount(salary * rate))
  }

  /** The two policies differ in one place only: where a missing rate makes
      the 3.4.x copy produce NaN, the 3.5.2 copy produces 'nan'. */
  lemma NullRateIsMissing(listed: seq<string>, frame: RateFrame, row: VacancyRow)
    ensures ConvertSalaryOrNull(listed, frame, row)
      == if ConvertSalary(listed, frame, row) == Ok(NotANumber) then Ok(Missing) else ConvertSalary(listed, frame, row)
  {
    if BaseSalary(row).Some? && Converts(listed, row) && MonthKey(row.publishedAt) in frame.months {
      match RateOf(frame, row)
      case None =>
      case Some(rate) => assert rate * BaseSalary(row).value == BaseSalary(row).value * rate;
    }
  }

  /** `convert_salary` of ApiCSVConvert.py, whose rate frame is the one
      built in memory, where a rate the bank did not report is the text ''. */
  function ConvertSalaryInMemory(listed: seq<string>, frame: RateFrame, row: VacancyRow): (r: Result<Salary, ConvertError>)
    ensures r.Ok? ==> !r.value.NotANumber?
  {
    if row.currency.None? then Ok(Missing)
    else
      match BaseSalary(row)
      case None => Ok(Missing)
      case Some(base) =>
        if !Converts(listed, row) then Ok(Amount(base))
        else if MonthKey(row.publishedAt) !in frame.months then Err(NoRateRow(MonthKey(row.publishedAt)))
        else
          match RateOf(frame, row)
          case None => Err(EmptyRate(MonthKey(row.publishedAt)))
          case Some(rate) => Ok(Amount(base * rate))
  }

  /** Where the copies reading the rates back from CSV get NaN from an empty
      cell, the in-memory copy raises; everywhere else they agree. */
  lemma EmptyRateRaises(listed: seq<string>, frame: RateFrame, row: VacancyRow)
    ensures ConvertSalaryInMemory(listed, frame, row)
      == if ConvertSalary(listed, frame, row) == Ok(NotANumber) then Err(EmptyRate(MonthKey(row.publishedAt)))
         else ConvertSalary(listed, frame, row)
  {
    if BaseSalary(row).Some? && Converts(listed, row) && MonthKey(row.publishedAt) in frame.months {
      match RateOf(frame, row)
      case None =>
      case Some(rate) => assert rate * BaseSalary(row).value == BaseSalary(row).value * rate;
    }
  }

  /** A vacancy row after the converter: `salary` in second place and the two
      bounds and the currency dropped. */
  datatype ConvertedRow = ConvertedRow(name: string, salary: Salary, areaName: string, publishedAt: string)

  function WithSalary(row: VacancyRow, salary: Salary): ConvertedRow
  {
    ConvertedRow(row.name, salary, row.areaName, row.publishedAt)
  }

  /** The salary column as pandas reads it back: a number, or NaN (`None`). */
  function SalaryValue(salary: Salary): Option<real>
  {
    if salary.Amount? then Some(salary.value) else None
  }

  /** `dataframe[...].apply(convert_salary, axis=1)` with the drop of the
      source columns: every row converted, or the error of the first row that
      raises. */
  function ConvertAll(convert: VacancyRow -> Result<Salary, ConvertError>, rows: seq<VacancyRow>): (r: Result<seq<ConvertedRow>, ConvertError>)
    ensures r.Ok? <==> forall i :: 0 <= i < |rows| ==> convert(rows[i]).Ok?
    ensures r.Ok? ==> |r.value| == |rows|
    ensures r.Ok? ==> forall i :: 0 <= i < |rows| ==> r.value[i] == WithSalary(rows[i], convert(rows[i]).value)
    ensures r.Err? ==> exists i :: 0 <= i < |rows| && convert(rows[i]) == Err(r.error)
  {
    if |rows| == 0 then Ok([])
    else
      match convert(rows[0])
      case Err(e) => Err(e)
      case Ok(salary) =>
        match ConvertAll(convert, rows[1..])
        case Err(e) => Err(e)
        case Ok(rest) => Ok([WithSalary(rows[0], salary)] + rest)
  }

  /** `dataframe.loc[dataframe['salary'] != 'nan']`. */
  function KeepSalaries(rows: seq<ConvertedRow>): (kept: seq<ConvertedRow>)
    ensures |kept| <= |rows|
    ensures forall i :: 0 <= i < |kept| ==> kept[i].salary != Missing
  {
    if |rows| == 0 then []
    else KeepSalaries(rows[..|rows| - 1]) + (if rows[|rows| - 1].salary != Missing then [rows[|rows| - 1]] else [])
  }

  /** A row is kept exactly when it is an input row with a salary. */
  lemma {:induction false} KeepSalariesMembers(rows: seq<ConvertedRow>)
    ensures forall r :: r in KeepSalaries(rows) <==> r in rows && r.salary != Missing
  {
    if |rows| > 0 {
      var front := rows[..|rows| - 1];
      KeepSalariesMembers(front);
      assert rows == front + [rows[|rows| - 1]];
    }
  }

  /** The filter keeps the order of the rows: filtering two parts and
      joining them is filtering the whole. */
  lemma {:induction false} KeepSalariesConcat(a: seq<ConvertedRow>, b: seq<ConvertedRow>)
    ensures KeepSalaries(a + b) == KeepSalaries(a) + KeepSalaries(b)
    decreases |b|
  {
    if |b| == 0 {
      assert a + b == a;
    } else {
      var n := |b| - 1;
      var last := b[n];
      assert (a + b)[..|a| + n] == a + b[..n];
      assert (a + b)[|a| + n] == last;
      KeepSalariesConcat(a, b[..n]);
      assert KeepSalaries(a + b) == KeepSalaries(a + b[..n]) + (if last.salary != Missing then [last] else []);
      assert KeepSalaries(b) == KeepSalaries(b[..n]) + (if last.salary != Missing then [last] else []);
    }
  }

  /** `data_set_converter_create_csv`: the converted rows that have a salary,
      in their input order. */
  function CreateCsv(convert: VacancyRow -> Result<Salary, ConvertError>, rows: seq<VacancyRow>): (r: Result<seq<ConvertedRow>, ConvertError>)
    ensures r.Ok? ==> forall i :: 0 <= i < |r.value| ==> r.value[i].salary != Missing
  {
    match ConvertAll(convert, rows)
    case Err(e) => Err(e)
    case Ok(all) => Ok(KeepSalaries(all))
  }

  /** A row survives exactly when it converts to something other than 'nan'
      (for 3.5.2 that is a number). */
  lemma CreateCsvKeeps(convert: VacancyRow -> Result<Salary, ConvertError>, rows: seq<VacancyRow>)
    requires CreateCsv(convert, rows).Ok?
    ensures forall i :: 0 <= i < |rows| ==>
      (WithSalary(rows[i], convert(rows[i]).value) in CreateCsv(convert, rows).value <==> convert(rows[i]).value != Missing)
  {
    var all := ConvertAll(convert, rows).value;
    KeepSalariesMembers(all);
    forall i | 0 <= i < |rows|
      ensures WithSalary(rows[i], convert(rows[i]).value) in KeepSalaries(all) <==> convert(rows[i]).value != Missing
    {
      assert all[i] == WithSalary(rows[i], convert(rows[i]).value);
    }
  }

  /** The frame that ApiCSVConvert.py builds in memory has the columns
      `['date'] + currency_list`. */
  function FrameOf(codes: seq<string>, months: map<string, map<string, Option<real>>>): RateFrame
  {
    RateFrame(["date"] + codes, months)
  }

  /** As written, `keys()[2:]` leaves the first currency code of that frame
      out, so a salary in that currency is returned in its own units even
      though the frame holds its rate. */
  lemma FirstCurrencyUnconverted(codes: seq<string>, months: map<string, map<string, Option<real>>>, row: VacancyRow, rate: real)
    requires |codes| > 0 && codes[0] != "RUR" && codes[0] !in codes[1..]
    requires row.currency == Some(codes[0]) && row.salaryFrom == Some(1000.0) && row.salaryTo.None?
    requires MonthKey(row.publishedAt) in months && months[MonthKey(row.publishedAt)] == map[codes[0] := Some(rate)]
    requires rate != 1.0
    ensures ConvertSalary(ExchangeRates(FrameOf(codes, months)), FrameOf(codes, months), row) == Ok(Amount(1000.0))
    ensures ConvertSalary(Currencies(FrameOf(codes, months)), FrameOf(codes, months), row) == Ok(Amount(rate * 1000.0))
  {
    var frame := FrameOf(codes, months);
    BaseSalaryCases(row);
    assert ExchangeRates(frame) == codes[1..];
    assert Currencies(frame) == codes;
  }

  /** Taking the columns after "date" lists exactly the codes of the frame,
      so every code the frame has a rate for is converted. */
  lemma CurrenciesAreTheCodes(codes: seq<string>, months: map<string, map<string, Option<real>>>, row: VacancyRow)
    requires "RUR" !in codes
    ensures Currencies(FrameOf(codes, months)) == codes
    ensures row.currency.Some? ==> (Converts(Currencies(FrameOf(codes, months)), row) <==> row.currency.value in codes)
  {
    assert Currencies(FrameOf(codes, months)) == (["date"] + codes)[1..];
  }
}

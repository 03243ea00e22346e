# Vacancy statistics, modelled in Dafny

The repository is a set of Python scripts. They read job-vacancy rows
(name, salary bounds, currency, region, publication date) from CSV files.
They turn those rows into salary statistics:

- the mean salary and the number of vacancies per year;
- the same two figures for one profession;
- the best-paid cities and the cities' shares of all vacancies.

This project models the part between "the rows are in memory" and "the
dictionaries go to a renderer", script by script. The scripts disagree in
places: a `>=` against a strict `>` one-percent threshold, truncating
against rounding means, zero-filled against omitted years, and three
policies for a missing exchange rate. Each variant is modelled as it is
written.

Modules:

- `Wrappers`, `Numbers`, `Text`, `Timestamp`, `Rows`, `Dicts`, `Ranking`:
  the Python idioms the scripts are built from, each with the property the
  scripts rely on.
  - `Dicts.Dict` is an insertion-ordered dict: a key sequence plus a map.
  - `Ranking.StableSort` is `sorted` with a key, stable and optionally
    reversed.
  - `Numbers.Share4` is `round(x, 4)` in whole ten-thousandths.
- `PdfCreate` (PdfCreate.py): the `SalaryDict`, `CountDict` and `Total`
  accumulators as classes, the `Vacancy` constructor, `csv_reader` and
  `csv_filer`. The unit tests of PdfCreateTests.py are restated as lemmas.
- `TableCreate` (TableCreate.py): the input checks, the row filter, the
  cell formatter, `parse_html`, `filter_condition`, `sort_vacancies` and
  the row range of the printed table.
- `Conversion`: the four copies of `convert_salary` and the `'nan'` row
  filter (ApiCSVConvert.py, 3.4.2, 3.4.3, 3.5.2).
- `Analysis`: the year column, `int(mean)`, `dict_sort`, the top-ten
  rankings and the one-percent city loop shared by 3.4.3 and
  ConcurrentFutures.py.
- `Analyst` (3.4.2): `proccess` and the `update` merge loop.
- `AnalystMore` (3.4.3): the profession-and-region year loop.
- `CurrencyWindow` (ApiCSV.py, ApiCSVConvert.py): `get_count_amount`,
  `get_date_in_format`, `get_year_interval` and the month labels of the
  rate rows.
- `ConcurrentFutures`: `multiprocessing_file`, `single_processing_file` and
  the merges of `user_data`.
- `Database` (3.5.3): the one-percent area filter and
  `get_sorted_for_area_dict`.
- `CsvSplitter` (csv_spliter.py): the per-year buckets.
- `NewVacancies` (ApiCSVNewVacancies.py): `get_data`.

Conventions of the model:

- A float salary or rate is a `real`. `int()` of a float truncates toward
  zero (`Numbers.TruncReal`, `Numbers.TruncDiv`).
- A pandas NaN is `None`.
- An exception or a `quick_quit` is an `Err` value naming the failure.
- The one-percent thresholds are stated exactly: `100 * count >= total`,
  or `100 * count > total` where the source compares strictly.

## Model

| member | source | states |
|---|---|---|
| PdfCreate.SalaryDict.constructor | PdfCreate.py:21-26 | both dicts start empty |
| PdfCreate.SalaryDict.Add | PdfCreate.py:39-41 | the salary goes at the end of its key's list, a new key starting from `[]`; every other list and the averages are unchanged |
| PdfCreate.Mean | PdfCreate.py:50 | `int(mean(xs))` is the quotient truncated toward zero: for a non-negative sum, `r * n <= sum < r * n + n`, and mirrored for a negative one |
| PdfCreate.SalaryDict.AverageSalary | PdfCreate.py:49-51 | writes the truncated mean of each key's list into the averages and returns them; the salary lists are unchanged |
| PdfCreate.AveragesOfKeys | PdfCreate.py:49-50 | every key of the salary dict gets the mean of its own list |
| PdfCreate.AveragesKeepOthers | PdfCreate.py:49-50 | a key already in the averages and not in the salary dict keeps its value; no key comes from anywhere else |
| PdfCreate.AveragesKeyOrder | PdfCreate.py:49-51 | starting empty, the averages have the salary dict's keys in the same order |
| PdfCreate.InCities | PdfCreate.py:65-67 | keeps exactly the sorted items whose key is one of the cities |
| PdfCreate.InCitiesKeeps | PdfCreate.py:63-67 | filtering by city keeps the descending order and the distinct keys |
| PdfCreate.SalaryDict.TopSalary | PdfCreate.py:62-68 | recomputes the averages and returns the top-ten of the reported cities |
| PdfCreate.RankedCities | PdfCreate.py:62-66 | the reported cities' averages sorted in non-increasing order, each city once with its own average, and no other city |
| PdfCreate.TopOfSpec | PdfCreate.py:62-68 | at most 10 entries; only reported cities, each with its own average; values non-increasing; a reported city is left out only when ten cities paid at least as much were kept |
| PdfCreate.CountDict.constructor | PdfCreate.py:84-87 | length 0, empty counts, empty city list, empty top dict; `length` is the sum of the counts and every count is positive |
| PdfCreate.CountDict.Add | PdfCreate.py:95-98 | the key's count (from 0) and `length` each go up by one; the other fields are unchanged; `length` stays the sum of the counts and every count stays positive |
| PdfCreate.BumpSummed | PdfCreate.py:95-98 | counting one key more keeps the total equal to the sum of the counts and keeps every count positive |
| PdfCreate.NoZeroDivision | PdfCreate.py:103-105 | with the total the sum of positive counts, the total is zero iff there is no key, so `value / self.length` never divides by zero |
| PdfCreate.CollectShares | PdfCreate.py:103-108 | the loop of `percentage` yields exactly the keys that reach one percent, in key order, and the dict of their rounded shares |
| PdfCreate.SharesNext | PdfCreate.py:104-108 | one key more: appended with its share when it reaches one percent, skipped otherwise |
| PdfCreate.SharesSpec | PdfCreate.py:104-108 | a key gets a share iff `100 * count >= length`; the share is `round(count / length, 4)`; no key twice |
| PdfCreate.TopSharesSpec | PdfCreate.py:109-110 | at most 10 keys, each reaching one percent with its rounded share, largest first; a qualifying key is left out only when ten at least as large were kept |
| PdfCreate.TopOfShareDict | PdfCreate.py:108-110 | sorting the items of the dict of shares is sorting the list of shares |
| PdfCreate.CountDict.Percentage | PdfCreate.py:103-110 | on a dict whose `length` is the sum of its positive counts, appends the one-percent keys to `city_list` in key order and stores the top-ten shares; the counts and `length` are unchanged |
| PdfCreate.MakeVacancySpec | PdfCreate.py:130-147 | an unknown currency is an error exactly when the code is not in the table; otherwise `salary` is the truncated product of the mean of the bounds and the rate, and `year` is the parsed year |
| PdfCreate.TestBound | PdfCreateTests.py:11-12 | a "ddddd.0" field reads as its whole number |
| PdfCreate.TestDay | PdfCreateTests.py:15 | the date part of the test timestamp reads as 2012-04-09 |
| PdfCreate.TestTime | PdfCreateTests.py:15 | the time part reads as 13:49:00 |
| PdfCreate.TestOffset | PdfCreateTests.py:15 | the offset "+0400" is well formed |
| PdfCreate.TestDate | PdfCreateTests.py:15 | the whole test timestamp parses to 2012-04-09 13:49:00 |
| PdfCreate.TestRate | PdfCreate.py:137 | the rate of RUR is 1 |
| PdfCreate.TestLow | PdfCreateTests.py:11 | "40000.0" reads as 40000 |
| PdfCreate.TestHigh | PdfCreateTests.py:12 | "55000.0" reads as 55000 |
| PdfCreate.TestVacancy | PdfCreateTests.py:18-31 | the test record becomes the vacancy ("Программист", 47500, "Москва", 2012) |
| PdfCreate.Matching | PdfCreate.py:190 | exactly the vacancies whose title contains the profession |
| PdfCreate.ZeroLists | PdfCreate.py:194-195 | `{y: [0]}` for the given years: a valid dict whose every list is non-empty |
| PdfCreate.ZeroCounts | PdfCreate.py:197 | `{y: 0}` for the given years, a valid dict |
| PdfCreate.NoMatchFallback | PdfCreate.py:193-197 | when no title matches and the profession dicts were empty, they end up as zero for every year seen |
| PdfCreate.FeedStep | PdfCreate.py:185-192 | one more vacancy extends each projection by its own entry |
| PdfCreate.TookFields | PdfCreate.py:186-187 | a salary list and a count that each took the vacancy are one `Took` |
| PdfCreate.StepFields | PdfCreate.py:186-192 | accumulators that each took the vacancy as the loop body does are one step |
| PdfCreate.FedNext | PdfCreate.py:185 | feeding `i + 1` vacancies is feeding `i` and then one more |
| PdfCreate.FedWhole | PdfCreate.py:185 | feeding the whole prefix is feeding the list |
| PdfCreate.FedYears | PdfCreate.py:186-187 | the year accumulators hold every vacancy grouped and counted by year; the length grows by the number of vacancies |
| PdfCreate.FedCities | PdfCreate.py:188-189 | the city accumulators hold every vacancy grouped and counted by city |
| PdfCreate.FedJob | PdfCreate.py:190-192 | the profession accumulators hold exactly the matching vacancies, grouped and counted by year |
| PdfCreate.Total.constructor | PdfCreate.py:163-172 | six fresh, empty accumulators |
| PdfCreate.Total.FeedYear | PdfCreate.py:186-187 | the year salary list and year count take the vacancy |
| PdfCreate.Total.FeedCity | PdfCreate.py:188-189 | the city salary list and city count take the vacancy; the city list is unchanged |
| PdfCreate.Total.FeedJob | PdfCreate.py:190-192 | the profession accumulators take the vacancy iff its title contains the profession, and are otherwise unchanged |
| PdfCreate.Total.Feed | PdfCreate.py:186-192 | the whole loop body is one `Step` of the accumulator state, and every total stays the sum of its counts; the averages, city lists and top shares are unchanged |
| PdfCreate.TookSummed | PdfCreate.py:186-192 | an accumulator that takes one more salary keeps its total the sum of its counts, and its counts positive |
| PdfCreate.StepCounted | PdfCreate.py:186-192 | one vacancy fed to all accumulators keeps every total the sum of its counts, and the year and city counts positive |
| PdfCreate.Total.FeedAll | PdfCreate.py:185-192 | after the loop every accumulator is the grouping or count of its projection of all vacancies (the profession ones of the matching vacancies); each `length` equals the number fed; the averages, city lists and top shares are unchanged |
| PdfCreate.Total.Collect | PdfCreate.py:185-197 | the loop followed by the zero fallback: the profession dicts are the matching vacancies, or zeros for every year when none matched; the averages, city lists and top shares are unchanged |
| PdfCreate.Total.GetData | PdfCreate.py:184-198 | the complete pass: the loop, the fallback, then `percentage` on the city counts, with `city_list` and the top shares as `Percentage` states, including the zero-length case; the averages and the year dicts' city lists and top shares are unchanged |
| PdfCreate.TestNoMatch | PdfCreateTests.py:46 | "Специалист" does not occur in "Программист" |
| PdfCreate.TestYearSalaries | PdfCreateTests.py:52 | the test gives `{2012: [47500]}` for salaries by year |
| PdfCreate.TestYearCounts | PdfCreateTests.py:47 | the test gives `{2012: 1}` for counts by year |
| PdfCreate.TestCitySalaries | PdfCreateTests.py:50 | the test gives `{"Москва": [47500]}` for salaries by city |
| PdfCreate.TestCityCounts | PdfCreateTests.py:48 | the test gives `{"Москва": 1}` for counts by city |
| PdfCreate.TestNoMatching | PdfCreateTests.py:46 | no test vacancy matches "Специалист" |
| PdfCreate.TestZeroLists | PdfCreateTests.py:51 | the fallback for the year 2012 is `{2012: [0]}` |
| PdfCreate.TestZeroCounts | PdfCreateTests.py:49 | the fallback count for 2012 is `{2012: 0}` |
| PdfCreate.TestJobSalaries | PdfCreateTests.py:51 | the profession salaries of the test are `{2012: [0]}` |
| PdfCreate.TestJobCounts | PdfCreateTests.py:49 | the profession counts of the test are `{2012: 0}` |
| PdfCreate.CsvFiler | PdfCreate.py:435-439 | the result is exactly the rows with the header's arity and no empty field, in order |
| PdfCreate.CsvReader | PdfCreate.py:412-422 | no header quits with 'Пустой файл'; otherwise each kept row becomes `dict(zip(headers, row))`, one per kept row, in order; with distinct headers each field keeps its text unchanged under its header |
| TableCreate.CheckFilterParam | TableCreate.py:109-114 | accepts exactly "" or a value with ": " whose prefix is a sort phrase, returned unchanged; each of the two aborts has its own message |
| TableCreate.CheckSortParam | TableCreate.py:124-126 | accepts exactly "" or a sort phrase, returned unchanged; anything else aborts |
| TableCreate.CheckReverseSortParam | TableCreate.py:137-139 | accepts only "Да", "Нет" and ""; the result is true exactly for "Да" |
| TableCreate.CheckNames | TableCreate.py:149-153 | "№" first, then the nine default columns if "" was typed, otherwise the typed names in order |
| TableCreate.LoadDataSet | TableCreate.py:170-176 | a zero-size file aborts 'Пустой файл'; otherwise the header and exactly the well-formed rows, in order; it succeeds iff some data row is well formed |
| TableCreate.CloseAt | TableCreate.py:365 | the first '>' of a text, provided no newline comes before it |
| TableCreate.StripTags | TableCreate.py:365 | `re.sub("<.*?>", "", s)` never lengthens the text |
| TableCreate.StripKeepsOpen | TableCreate.py:365 | a first line without '>' stays without one after stripping |
| TableCreate.StripLeavesNoTags | TableCreate.py:365 | the stripped text contains no tag |
| TableCreate.ConsNoTags | TableCreate.py:365 | a character kept in front of a text without tags leaves no tag, unless it is a '<' that the text's first line closes |
| TableCreate.StripNoTags | TableCreate.py:365 | a text without tags is unchanged |
| TableCreate.StripIdempotent | TableCreate.py:365 | stripping twice is stripping once |
| TableCreate.ParseHtmlSpec | TableCreate.py:365-368 | one string iff the unwrapped text has no newline; the lines rejoin to that text; each line keeps its words and has only single spaces between them |
| TableCreate.Lookup | TableCreate.py:233-239 | a table lookup succeeds iff the value is text and a key; it gives the table's entry |
| TableCreate.FormatBound | TableCreate.py:241 | succeeds iff the value parses as a decimal; gives the thousands-grouped truncated integer |
| TableCreate.Format | TableCreate.py:230-247 | skills always become text; `published_at` succeeds iff the timestamp parses and gives "DD.MM.YYYY"; unformatted keys pass through unchanged |
| TableCreate.Assign | TableCreate.py:217-246 | sets the key to its formatted value and keeps every other attribute; a `published_at` also sets `full_published_time` |
| TableCreate.Formatted | TableCreate.py:217-218 | a built vacancy never has a list as a salary attribute |
| TableCreate.NewVacancy | TableCreate.py:203-220 | the attribute loop and salary line give the vacancy that `Built` describes |
| TableCreate.FormattedNext | TableCreate.py:217-218 | one more item is one more assignment, and an earlier error is kept |
| TableCreate.FormattedFails | TableCreate.py:217-218 | the first item that fails to format fails the whole row |
| TableCreate.FormattedOk | TableCreate.py:217-218 | the vacancy is built iff every column of the row formats |
| TableCreate.FormattedValues | TableCreate.py:217-218 | with distinct columns, each column of a built vacancy holds its formatted value |
| TableCreate.FormattedNames | TableCreate.py:217-246 | a built vacancy has no attribute the row does not name, except `full_published_time` when `published_at` is named |
| TableCreate.BoundValue | TableCreate.py:260 | reading back a bound succeeds iff it is text that parses once spaces are removed |
| TableCreate.FormatBoundReadsBack | TableCreate.py:241-260 | a formatted bound reads back as the truncated number it was formatted from |
| TableCreate.SkillsOf | TableCreate.py:265 | the skills are the newline-separated parts of the skills text |
| TableCreate.FilterCondition | TableCreate.py:256-269 | an empty filter passes everything; a filter that does not split into two parts on ": " is an error |
| TableCreate.FilterSalary | TableCreate.py:259-260 | the salary filter passes iff the typed amount lies between the two formatted bounds |
| TableCreate.FilterSkills | TableCreate.py:263-267 | the skills filter passes iff every requested skill is one of the skill lines |
| TableCreate.PairOrder | TableCreate.py:351 | two-digit fields packed as `a * 100 + b` compare like the pair |
| TableCreate.StampOrder | TableCreate.py:352-353 | a timestamp is before another iff its packed number is smaller |
| TableCreate.ReadFullTimeBack | TableCreate.py:243-244 | the "DD.MM.YYYY-HH:MM:SS" text reads back to its timestamp |
| TableCreate.DateKeyAsWritten | TableCreate.py:352-353 | the date sort key is the text of `full_published_time` itself |
| TableCreate.DateKeyAsWrittenMisorders | TableCreate.py:352-353 | 2 January 2021 is earlier than 1 January 2022, yet its key sorts after |
| TableCreate.DateKey | TableCreate.py:352-353 | the corrected key: the packed timestamp number of the text |
| TableCreate.SortByTextOrder | TableCreate.py:338-353 | as the script sorts, a successful sort by date orders the vacancies by the text of `full_published_time`, character by character (reversed on request) |
| TableCreate.SortByTimeOrder | TableCreate.py:338-353 | the corrected sort: with every publication time readable, the sort succeeds, is a permutation, and orders the vacancies by time (latest first on request) |
| TableCreate.DateKeyOrder | TableCreate.py:352-353 | sorting on the corrected key is sorting by time |
| TableCreate.SkillsKey | TableCreate.py:347-348 | the skills key is the number of skill lines |
| TableCreate.KeyFailure | TableCreate.py:338 | no failure iff every vacancy's key can be computed |
| TableCreate.SortVacancies | TableCreate.py:335-338 | an empty parameter returns the list unchanged; otherwise it succeeds iff all keys exist and can be compared; the script's date order is the text order |
| TableCreate.SortVacanciesSpec | TableCreate.py:338-357 | a successful sort is a permutation, ordered by the key (descending on request), with equal keys in input order |
| TableCreate.ParsedRowFields | TableCreate.py:320 | with distinct names, `dict(zip(names, map(parse_html, row)))` has the names the row reaches, in order, each mapped to its own parsed cell, and no other key |
| TableCreate.RowOutcome | TableCreate.py:320-322 | a kept vacancy passes the filter; with no filter, every row that builds is kept |
| TableCreate.Outcomes | TableCreate.py:319-322 | one outcome per row, in row order |
| TableCreate.KeptSpec | TableCreate.py:318-322 | a successful selection comes from outcomes that all succeeded; every kept vacancy is one a row kept; at most one per row, exactly one when every row keeps its vacancy |
| TableCreate.KeptNext | TableCreate.py:319-322 | one more row appends its kept vacancy, if any, and an earlier failure is kept |
| TableCreate.KeptFails | TableCreate.py:319-322 | the first failing row fails the whole selection |
| TableCreate.SelectedSpec | TableCreate.py:318-322 | every selected vacancy passes the filter; no more vacancies than rows; with no filter, one per row |
| TableCreate.SelectRow | TableCreate.py:320-322 | one pass of the loop: the row is cleaned, built and judged by the filter |
| TableCreate.SelectAll | TableCreate.py:318-322 | the loop keeps, in row order, the vacancies that pass the filter; the first row that fails stops it with that error |
| TableCreate.GetVacancies | TableCreate.py:318-323 | the loop gives the selected vacancies, then the sort; the first failure is returned |
| TableCreate.SliceBound | TableCreate.py:304 | a slice bound is normalised into `0..n` and kept when already inside |
| TableCreate.PrintRange | TableCreate.py:378-387 | an empty list aborts "Ничего не найдено"; no range typed shows `0..count` |
| TableCreate.ShownNumbers | TableCreate.py:296-304 | the shown row numbers are consecutive and lie in `1..count` |
| TableCreate.PrintRangeSpec | TableCreate.py:380-387 | "a b" shows rows a to b - 1, "a" shows a to the last, nothing shows all |
| Conversion.Bounds | 3.4.3/PdfCreateAnalystMore.py:53 | at most the two bounds that are present |
| Conversion.BaseSalary | 3.4.3/PdfCreateAnalystMore.py:53-59 | no base salary exactly when both bounds are missing |
| Conversion.BaseSalaryCases | 3.4.3/PdfCreateAnalystMore.py:56-57 | one bound present gives that bound; two give their mean |
| Conversion.Drop | 3.4.3/PdfCreateAnalystMore.py:27 | `s[n:]` has the elements from `n` on |
| Conversion.ConvertSalary | 3.4.3/PdfCreateAnalystMore.py:52-65 | 'nan' iff the currency or both bounds are missing; an error iff a listed code's month has no rate row |
| Conversion.ConvertSalaryCases | 3.4.2/PdfCreateAnalyst.py:51-62 | an unlisted code or RUR keeps the mean; a listed code is multiplied by its month's rate; an empty cell gives NaN; a missing month raises |
| Conversion.ConvertSalaryOrNull | 3.5.2/data_base_3.5.2.py:44-60 | the 3.5.2 copy never yields NaN |
| Conversion.NullRateIsMissing | 3.5.2/data_base_3.5.2.py:54-59 | it differs from the 3.4.x copy only where a missing rate gives NaN there and 'nan' here |
| Conversion.ConvertSalaryInMemory | ApiCSVConvert.py:160-173 | the in-memory copy never yields NaN |
| Conversion.EmptyRateRaises | ApiCSVConvert.py:170-172 | it differs from the CSV-reading copies only where they get NaN from an empty rate and it raises |
| Conversion.ConvertAll | 3.4.3/PdfCreateAnalystMore.py:34-37 | succeeds iff every row converts; row i then carries its converted salary; a failure is some row's error |
| Conversion.KeepSalaries | 3.5.2/data_base_3.5.2.py:31 | no kept row is 'nan' and none is added |
| Conversion.KeepSalariesMembers | 3.4.2/PdfCreateAnalyst.py:37 | a row is kept iff it is an input row whose salary is not 'nan' |
| Conversion.KeepSalariesConcat | 3.4.3/PdfCreateAnalystMore.py:38 | the filter keeps row order: filtering a concatenation is concatenating the filtered parts |
| Conversion.CreateCsv | ApiCSVConvert.py:144-147 | no row of the result has a 'nan' salary |
| Conversion.CreateCsvKeeps | 3.4.3/PdfCreateAnalystMore.py:34-38 | an input row survives, with its converted salary, iff it does not convert to 'nan' |
| Conversion.FirstCurrencyUnconverted | ApiCSVConvert.py:137 | with `keys()[2:]`, a salary in the frame's first currency comes back in its own units although the frame holds its rate; with the columns after "date" it is converted |
| Conversion.CurrenciesAreTheCodes | 3.5.2/data_base_3.5.2.py:21 | the columns after "date" are exactly the frame's codes, so every code with a rate is converted |
| Analysis.DottedYear | 3.4.3/PdfCreateAnalystMore.py:195 | a year is read only when the first four characters hold no '-' |
| Analysis.YearsOfTimestamp | ConcurrentFutures.py:20 | for a well-formed timestamp both year readings give the parsed year |
| Analysis.YearsList | 3.4.2/PdfCreateAnalyst.py:75-76 | defined iff every date yields a year; then distinct, and exactly the rows' years |
| Analysis.Present | ConcurrentFutures.py:28 | a number is kept iff the column holds it; the column loses entries iff it holds a NaN |
| Analysis.PresentEmpty | ConcurrentFutures.py:28 | there is no number iff every entry is NaN |
| Analysis.IntMean | 3.4.3/PdfCreateAnalystMore.py:204 | `int(mean)` fails iff the column holds no number |
| Analysis.IntMeanBetween | 3.4.3/PdfCreateAnalystMore.py:204 | the truncated mean of salaries between two whole amounts lies between them |
| Analysis.DictSort | 3.4.3/PdfCreateAnalystMore.py:175 | the sorted dict is valid |
| Analysis.SortedItemsOrder | 3.4.2/PdfCreateAnalyst.py:149 | the sorted items are ordered by the key and their keys stay distinct |
| Analysis.SortedItemsMembers | 3.4.2/PdfCreateAnalyst.py:149 | the sorted items are exactly the dict's pairs, each once |
| Analysis.SortedDictValues | ConcurrentFutures.py:71 | rebuilding a dict from its sorted items keeps every key with its value |
| Analysis.DictSortValues | 3.4.2/PdfCreateAnalyst.py:149 | `dict_sort` keeps every year with its value |
| Analysis.DictSortOrder | 3.4.3/PdfCreateAnalystMore.py:175 | `dict_sort` orders the years strictly increasing |
| Analysis.TopByValue | 3.4.3/PdfCreateAnalystMore.py:185 | the ranked dict is valid |
| Analysis.TopByValueSize | 3.5.3/data_base_3.5.3.py:29 | exactly `min(n, 10)` entries: an input of ten or fewer is kept whole |
| Analysis.TopByValueKept | 3.5.3/data_base_3.5.3.py:29-31 | every output entry is an input pair |
| Analysis.TopByValueOrder | 3.4.3/PdfCreateAnalystMore.py:185 | the values are non-increasing |
| Analysis.TopByValueLeftOut | 3.4.3/PdfCreateAnalystMore.py:185 | an entry left out is worth no more than any kept one, and only once ten are kept |
| Analysis.TopByValueStable | 3.5.3/data_base_3.5.3.py:29 | kept entries with equal values are the first such entries of the input, in order |
| Analysis.ReachingAmong | 3.4.3/PdfCreateAnalystMore.py:200-202 | keeps exactly the cities whose count reaches one percent |
| Analysis.Reaching | ConcurrentFutures.py:45-47 | the reported cities are distinct |
| Analysis.ReachingSpec | 3.4.3/PdfCreateAnalystMore.py:200-202 | a city is reported iff it has rows and `100 * count >= total`, or `> total` for ConcurrentFutures.py:46; the two differ exactly at one percent |
| Analysis.CityRowsPut | 3.4.3/PdfCreateAnalystMore.py:203-205 | one pass of the city loop keeps the invariant |
| Analysis.CityStats | 3.4.3/PdfCreateAnalystMore.py:199-205 | fails iff a reported city has no numeric salary; otherwise both dicts have the reported cities in order, each with its truncated mean and `round(count / total, 4)` |
| Analyst.YearPart | 3.4.2/PdfCreateAnalyst.py:78-80 | a part file holds exactly the rows of its year |
| Analyst.Named | 3.4.2/PdfCreateAnalyst.py:165 | exactly the rows whose name contains the profession |
| Analyst.Process | 3.4.2/PdfCreateAnalyst.py:161-177 | succeeds iff the part converts and both means exist; the four dicts are keyed by the year alone; profession count ≤ count ≤ rows of the year |
| Analyst.ProcessRows | 3.4.2/PdfCreateAnalyst.py:163-165 | the year's converted rows are its rows with a salary; the profession's rows are those whose name contains it |
| Analyst.MergeOne | 3.4.2/PdfCreateAnalyst.py:192-195 | merging one processed year keeps every year's figures |
| Analyst.MergeStep | 3.4.2/PdfCreateAnalyst.py:192-195 | merging a new year appends it to the totals' keys |
| Analyst.Collect | 3.4.2/PdfCreateAnalyst.py:187-195 | succeeds iff every year processes; each total then has exactly the years, in order, each with its processed figures |
| AnalystMore.Selected | 3.4.3/PdfCreateAnalystMore.py:207-209 | exactly the rows of the profession, region and year |
| AnalystMore.FilledYears | 3.4.3/PdfCreateAnalystMore.py:208-210 | exactly the years with selected rows, in order, without duplicates |
| AnalystMore.YearRowsPut | 3.4.3/PdfCreateAnalystMore.py:211-212 | one pass of the year loop keeps the invariant |
| AnalystMore.FilledYearsStep | 3.4.3/PdfCreateAnalystMore.py:208-210 | one year more: added iff it has selected rows |
| AnalystMore.ProfessionRegion | 3.4.3/PdfCreateAnalystMore.py:207-212 | fails iff some year's selected rows have no numeric salary; otherwise the years with rows (others omitted), each with its truncated mean and row count |
| CurrencyWindow.ForeignCodes | ApiCSV.py:35-38 | exactly the codes present that are not RUR |
| CurrencyWindow.ForeignCodesSnoc | ApiCSV.py:35-38 | one row more adds its code unless it is NaN or RUR |
| CurrencyWindow.CountStep | ApiCSV.py:39-41 | one pass of the counting loop is one increment, or nothing for NaN and RUR |
| CurrencyWindow.Above | ApiCSV.py:43 | exactly the items whose count is above the bound; distinct keys stay distinct |
| CurrencyWindow.Amounts | ApiCSVConvert.py:44-45 | the kept dict is valid |
| CurrencyWindow.AboveOfDict | ApiCSVConvert.py:44 | the filtered dict keeps exactly the keys above the bound, with their values |
| CurrencyWindow.AmountsMembers | ApiCSVConvert.py:36-44 | exactly the non-RUR currencies occurring more than 5000 times, each with its count |
| CurrencyWindow.AmountsOrder | ApiCSVConvert.py:45 | the kept codes are strictly ascending |
| CurrencyWindow.FirstKept | ApiCSV.py:54-56 | the first position, in the given order, whose currency was kept; none when there is none |
| CurrencyWindow.SearchesMeet | ApiCSVConvert.py:29-30 | both scans find a row iff some row is kept; the oldest-first row is no later than the newest-first row |
| CurrencyWindow.SortedFrame | ApiCSV.py:25 | `sort_values(by='published_at')` keeps the rows and orders their dates |
| CurrencyWindow.DataSet.constructor | ApiCSV.py:24-29 | the frame sorted by `published_at`, the sorted counts above 5000, and the dates of the oldest-first and newest-first scans |
| CurrencyWindow.DateFound | ApiCSV.py:54-56 | nothing is found iff no row in the order is kept; an error names a kept row of the order |
| CurrencyWindow.OldestAndNewest | ApiCSV.py:28-29 | on the sorted frame, `older_date`'s row is dated no later than any kept row and `newest_date`'s no earlier |
| CurrencyWindow.DataSet.GetCountAmount | ApiCSV.py:35-44 | the dict becomes the sorted counts above 5000 |
| CurrencyWindow.DataSet.GetDateInFormat | ApiCSVConvert.py:55-57 | the date of the first kept row in the given order, `None` when there is none, or an error for an unparsable date |
| CurrencyWindow.MonthIndexParts | ApiCSV.py:85 | a month index reads back as its year and month |
| CurrencyWindow.Interval | ApiCSV.py:84-86 | one label per month from the first to the last, none when the first comes after |
| CurrencyWindow.MonthBefore | ApiCSV.py:82-84 | the first of one month is before the 28th of another iff the first month is not later |
| CurrencyWindow.LabelOfMonth | ApiCSV.py:85 | the label of a month's index is its month and year, padded, as "MM/YYYY" |
| CurrencyWindow.NextMonth | ApiCSV.py:86 | the month after December is January of the next year; any other month is followed by the next one of the same year |
| CurrencyWindow.IntervalSnoc | ApiCSV.py:84-86 | extending the last month by one appends exactly that month's label |
| CurrencyWindow.IntervalNext | ApiCSV.py:84-86 | the list grows by the "MM/YYYY" label of the next month |
| CurrencyWindow.YearInterval | ApiCSV.py:81-87 | the loop lists the labels of every month from the start month to the end month |
| CurrencyWindow.LabelReadsBack | ApiCSV.py:85 | a label is "MM/YYYY" and reads back as its month and year |
| CurrencyWindow.LabelInjective | ApiCSV.py:85 | two months have the same label iff they are the same month |
| CurrencyWindow.IntervalDistinct | ApiCSVConvert.py:85-87 | no month is listed twice |
| CurrencyWindow.IntervalEnds | ApiCSV.py:82-87 | empty iff the start month is after the end month; otherwise first the start month and last the end month |
| CurrencyWindow.IntervalSteps | ApiCSV.py:84-86 | each label is the calendar month after the one before it |
| CurrencyWindow.IntervalCovers | ApiCSVConvert.py:83-88 | every date between start and end has its month listed |
| CurrencyWindow.RowMonthIsMonthKey | ApiCSV.py:111 | a rate row's "YYYY-MM" date is the `published_at[:7]` key of a vacancy of that month |
| CurrencyWindow.WindowHasRateRow | ApiCSVConvert.py:171 | every vacancy between the two dates finds its month among the rate rows |
| ConcurrentFutures.Samples | ConcurrentFutures.py:18-21 | defined iff every year parses; one sample per row |
| ConcurrentFutures.YearSalaries | ConcurrentFutures.py:28-31 | exactly the salaries of the rows of the year (of the profession, on request): each such row's salary is in it, and each entry is the salary of such a row |
| ConcurrentFutures.YearSalariesCounts | ConcurrentFutures.py:29-31 | the year has as many salaries as rows; the profession rows are no more than the year's rows; a year has rows iff it occurs |
| ConcurrentFutures.FilledPut | ConcurrentFutures.py:28-31 | one pass of the year loop keeps the invariant |
| ConcurrentFutures.FillYears | ConcurrentFutures.py:22-31 | fails iff some year lacks a mean; otherwise all four dicts have every year, in order, with both truncated means and both counts |
| ConcurrentFutures.MultiprocessingFile | ConcurrentFutures.py:18-32 | an unreadable year is an error; otherwise as `FillYears` |
| ConcurrentFutures.AreaSamples | ConcurrentFutures.py:44 | one (area, salary) pair per row |
| ConcurrentFutures.SingleProcessingFile | ConcurrentFutures.py:42-54 | cities with strictly more than one percent, each with its truncated mean and `round(count / total, 4)`; errors for an unreadable year or a city without a mean |
| ConcurrentFutures.Part | ConcurrentFutures.py:70 | one dict per file |
| ConcurrentFutures.MergedYears | ConcurrentFutures.py:71-74 | the merged dict is valid |
| ConcurrentFutures.MergedYearsSpec | ConcurrentFutures.py:71-74 | the years of all files, strictly increasing, each with its value in the first file that has it |
| ConcurrentFutures.UserData | ConcurrentFutures.py:70-76 | with no file, `result_list[0]` raises `IndexError`; otherwise the year dicts are the files' dicts merged and sorted by year, and the city dicts are the top ten by value, at most ten input entries with their values |
| Database.Frequent | 3.5.3/data_base_3.5.3.py:39 | exactly the rows with at least one percent; distinct areas stay distinct |
| Database.AreaSalaries | 3.5.3/data_base_3.5.3.py:38-40 | the ranked dict is valid |
| Database.FrequentAreas | 3.5.3/data_base_3.5.3.py:39 | an area is frequent iff some row of it reaches one percent |
| Database.FrequentDictKeys | 3.5.3/data_base_3.5.3.py:39-40 | the dict holds exactly the frequent areas |
| Database.FrequentDictValues | 3.5.3/data_base_3.5.3.py:40 | each frequent area maps to its row's salary |
| Database.AreaSalariesSpec | 3.5.3/data_base_3.5.3.py:29-40 | only frequent areas, with their salaries; at most ten; non-increasing; a frequent area left out earns no more than any kept one |
| CsvSplitter.BucketStep | csv_spliter.py:30-34 | both branches of the loop body are one append to the year's bucket |
| CsvSplitter.Split | csv_spliter.py:26-34 | an empty file iff 'Пустой файл'; a record without a date stops at its index; otherwise the buckets are the records grouped by year in input order |
| CsvSplitter.SplitYears | csv_spliter.py:30-31 | buckets are created in order of first appearance; a year has a bucket iff some record has it |
| CsvSplitter.YearValues | csv_spliter.py:30-34 | the records paired with a year are exactly that year's |
| CsvSplitter.SplitBucketContents | csv_spliter.py:29-34 | each bucket is non-empty and holds exactly its year's records, in input order |
| CsvSplitter.SplitTotal | csv_spliter.py:29-34 | the bucket sizes add up to the number of records |
| NewVacancies.Project | ApiCSVNewVacancies.py:26-27 | one cell per column |
| NewVacancies.GetData | ApiCSVNewVacancies.py:26-27 | no more rows than vacancies, six cells each |
| NewVacancies.GetDataAppend | ApiCSVNewVacancies.py:26-27 | the input order is kept: the rows of two runs are concatenated |
| NewVacancies.GetDataOne | ApiCSVNewVacancies.py:27 | a vacancy gives its row iff it has a salary |
| NewVacancies.GetDataMembers | ApiCSVNewVacancies.py:26-27 | a row is output iff it projects a vacancy with a salary |
| NewVacancies.GetDataLength | ApiCSVNewVacancies.py:26-27 | as many rows as vacancies with a salary |
| NewVacancies.GetDataAllPaid | ApiCSVNewVacancies.py:26-27 | with every salary present, row i projects vacancy i |
| Numbers.TruncDiv | PdfCreate.py:50 | the quotient truncated toward zero |
| Numbers.TruncReal | TableCreate.py:241 | `int(x)` truncates toward zero |
| Numbers.Share4 | PdfCreate.py:108 | the nearest ten-thousandth of the ratio, within half a unit; between 0 and 10000 for a share |
| Numbers.NatToString | TableCreate.py:241 | `str(n)` is a non-empty string of digits with no leading zero |
| Numbers.NatToStringValue | TableCreate.py:241 | the digits of `str(n)` read back as `n` |
| Numbers.IntToStringParses | TableCreate.py:381 | `int(str(i)) == i` |
| Numbers.FractionValue | TableCreate.py:241 | the digits after the point are worth a non-negative amount |
| Numbers.ParseUnsignedDecimal | TableCreate.py:241 | `float(s)` of an unsigned decimal, when it reads, is never negative |
| Numbers.IntToStringIsDecimal | TableCreate.py:260 | `float(str(i)) == i` |
| Numbers.GroupNatDigits | TableCreate.py:241 | removing the group separators gives `str(n)` |
| Numbers.GroupThousandsReadsBack | TableCreate.py:241-260 | the grouped text without its spaces reads back as the number |
| Dicts.Put | PdfCreate.py:40 | an existing key keeps its place; a new key goes last; others are unchanged |
| Dicts.PutPut | csv_spliter.py:31-32 | putting a key twice leaves the second value |
| Dicts.OfDistinctItems | 3.5.3/data_base_3.5.3.py:30 | distinct pairs make a dict of exactly those keys in order, each with its value |
| Dicts.ItemsMembers | PdfCreate.py:63 | a pair is an item iff it maps its key to its value |
| Dicts.OfItemsOfDict | PdfCreate.py:63 | `dict(d.items())` is `d` |
| Dicts.UpdateValues | 3.4.2/PdfCreateAnalyst.py:192 | after `update`, a key has its value from the update when present there, from the dict otherwise |
| Dicts.UpdateOne | 3.4.2/PdfCreateAnalyst.py:192 | updating with a one-key dict puts that key |
| Dicts.ChainMapKeys | ConcurrentFutures.py:71 | a key is in the chain iff it is a key of some map |
| Dicts.ChainMapFirst | ConcurrentFutures.py:71 | the chain's value is the first map's value for that key |
| Dicts.FirstOccurrences | ConcurrentFutures.py:22 | `unique()`: the distinct values in order of first occurrence |
| Dicts.Bump | PdfCreate.py:95-97 | the key's count goes up by one from 0 |
| Dicts.PutZeroThenAdd | PdfCreate.py:95-97 | `if absent: d[k] = 0` then `d[k] += 1` is one increment |
| Dicts.CountInto | PdfCreate.py:95-97 | counting keeps the dict valid |
| Dicts.CountIntoSnoc | PdfCreate.py:95-97 | one more element is one more increment |
| Dicts.CountedIsOccurrences | ApiCSV.py:35-41 | each value seen gets its number of occurrences; keys in order of first occurrence |
| Dicts.Append | PdfCreate.py:39-41 | the value goes at the end of the key's list, created empty |
| Dicts.GroupInto | PdfCreate.py:39-41 | grouping keeps the dict valid |
| Dicts.GroupIntoSnoc | csv_spliter.py:30-34 | one more pair is one more append |
| Dicts.GroupedIsValuesOf | csv_spliter.py:29-34 | each key gets exactly its values in input order, never an empty list; keys in order of first occurrence |
| Dicts.ValuesOfLength | csv_spliter.py:29-34 | a key's list is as long as the key occurs |
| Dicts.SizesAreCounts | csv_spliter.py:29-34 | the length of each key's list is that key's count |
| Dicts.Sizes | csv_spliter.py:37-43 | the lengths of the lists, same keys |
| Dicts.GroupedSizes | csv_spliter.py:29-34 | the group sizes are the key counts and add up to the number of pairs |
| Dicts.Increment | PdfCreate.py:97-98 | one increment adds one to the sum of the counts: `length` stays equal to the total |
| Dicts.CountIntoSum | PdfCreate.py:95-98 | counting a sequence adds its length to the sum of the counts |
| Ranking.SortPermutes | TableCreate.py:338 | `sorted` gives a permutation |
| Ranking.SortSorts | TableCreate.py:338 | `sorted` orders by the key, descending on `reverse` |
| Ranking.SortStable | TableCreate.py:338 | elements with equal keys keep their input order |
| Ranking.SortMembers | TableCreate.py:338 | sorting keeps exactly the same elements |
| Ranking.Take | PdfCreate.py:110 | `s[:n]` |
| Ranking.TopTenSpec | 3.5.3/data_base_3.5.3.py:29 | at most ten input elements, largest first, all when ten or fewer, none left out ranking above one kept |
| Ranking.SortKeepsKeys | PdfCreate.py:109 | sorting dict items keeps their keys distinct |
| Ranking.TopPrefix | PdfCreate.py:109-110 | the first n of value-sorted items: at most n, in order, non-increasing, nothing left out above anything kept |
| Ranking.SortedTop | PdfCreate.py:109-110 | the same as membership facts about the resulting dict |
| Rows.KeepRows | TableCreate.py:174 | only well-formed rows, no more than given |
| Rows.KeepRowsExact | PdfCreate.py:436-438 | every well-formed row survives, no other, and filtering twice changes nothing |
| Rows.KeepRowsAppend | PdfCreate.py:436-438 | appending a row to already-filtered rows keeps it iff it is well formed |
| Rows.Zip | PdfCreate.py:422 | pairs up to the shorter of header and row |
| Rows.RowDictFields | csv_spliter.py:28 | with distinct headers and the header's arity, keys are the headers in order, each with its field |
| Timestamp.DaysInMonth | PdfCreate.py:147 | the calendar length of a month, 28 to 31 |
| Timestamp.Pad | TableCreate.py:245 | exactly `width` digits |
| Timestamp.PadReadsBack | TableCreate.py:245 | a padded number reads back when it fits |
| Timestamp.ParseRender | PdfCreate.py:147 | every valid timestamp parses back from its own text |
| Timestamp.RenderParse | PdfCreate.py:147 | a parsed text is the text of its fields, offset aside |
| Timestamp.DmyReadsBack | TableCreate.py:245 | "DD.MM.YYYY" reads back as the day, month and year |
| Timestamp.Prefix | 3.4.3/PdfCreateAnalystMore.py:62 | `s[:n]`: the first n characters, or all of a shorter text |
| Timestamp.SlicesAgreeWithParse | 3.4.3/PdfCreateAnalystMore.py:62 | the sliced "YYYY-MM" and "YYYY" agree with the parsed date |
| Text.IndexOf | TableCreate.py:109 | the first occurrence of the separator, if any |
| Text.ContainsIff | PdfCreate.py:190 | `needle in hay` iff it occurs at some index |
| Text.SplitOn | TableCreate.py:258 | `split(sep)` gives parts without the separator |
| Text.JoinSplit | TableCreate.py:365 | joining the split parts gives the text back |
| Text.SplitJoin | TableCreate.py:365 | splitting joined lines gives the lines back |
| Text.Words | TableCreate.py:365 | `split()` gives only non-empty words without whitespace |
| Text.CollapseKeepsWords | TableCreate.py:365 | collapsing whitespace keeps the words |
| Text.LexLeTotal | ApiCSV.py:44 | string order is total |
| Text.LexLeAntisymmetric | ApiCSV.py:44 | string order is antisymmetric |
| Text.LexLeTransitive | ApiCSV.py:44 | string order is transitive |
| Text.Without | TableCreate.py:260 | `replace(c, "")` leaves no `c` and never lengthens the text |

## Left out

- Report rendering: the PDF, Excel and chart code of PdfCreate.py, 3.4.2 and 3.4.3, the PrettyTable drawing, and every `print`.
- Network: `get_currency_in_csv` (cbr.ru requests and XML parsing) and `NewVacancies.get_json`; the rate frame is a parameter.
- Process pools and profiling: each `submit(...).result()` is awaited at once, so the work is modelled sequentially.
- SQLite: the whole of 3.5.1, `csv_to_vacancy_sql`, and the SQL queries of 3.5.3. The grouped rows and the NULL rate are parameters.
- File and console I/O: `input()`, `open`, `os.mkdir`, `os.stat` (its size is a parameter), `to_csv`, and the CSV writes of csv_spliter.py. The module-level script code is also left out, as is main.py.
- `quick_quit` / `exit`: modelled as an `Err` carrying the message, not as process exit.
- Floats: rates and salaries are exact reals. IEEE rounding and the float repr are not modelled. `round(x, 4)` is half-to-even on the exact ratio.
- 3.5.3: SQL `round(avg(salary))` is taken as given in the grouped rows; `0.01 * len` is an exact one percent.
- `Numbers.ParseUnsignedDecimal`: only plain decimal forms are read; exponents, `inf`, `nan` and underscores are not.
- `Numbers.IntToStringParses`: `int()` is modelled only for an optional sign followed by digits; surrounding whitespace is not accepted.
- `Timestamp.Parse`: only the fixed layout "YYYY-MM-DDTHH:MM:SS±HHMM" is accepted. The variable-width fields that `strptime` also accepts are not modelled.
- `CurrencyWindow.YearInterval`: years are taken as written with four digits. `strftime` padding below year 1000 and the overflow past 9999 are not modelled.
- `CurrencyWindow.RowMonthIsMonthKey`: only the two-digit month of the labels is read back.
- Regular expressions: `str.contains` is a literal substring test, and `re.sub("<.*?>", ...)` is modelled directly in `TableCreate.StripTags`.
- pandas frames: in-place inserts and drops, and `groupby().transform('count')`, are functions over row sequences. `sort_values` is modelled as a stable sort; pandas' default sort is not stable, but rows it may place differently have equal `published_at`, so the dates `get_date_in_format` finds are the same.
- `Dicts.ChainMap`: the merged dict's key order is modelled, and the model sorts by key after the merge, as the source does.
- `TableCreate.ShownNumbers`: the cell truncation to 100 characters (TableCreate.py:300-301) and the column selection of `get_string` are not modelled.
- `TableCreate.SortVacancies`: two list values are treated as unorderable. Python would compare them element-wise.
- `NewVacancies.GetData`: the salary is an `Option`. An empty `{}` salary object, which is also falsy, is not distinguished from `null`.

## Findings

| source | as written | input that shows it | evidently intended | confidence | as-written member | corrected member |
|---|---|---|---|---|---|---|
| TableCreate.py:243-244, 352-353 | sorting by "Дата публикации вакансии" compares the text "DD.MM.YYYY-HH:MM:SS" character by character | 2021-01-02 and 2022-01-01: "02.01.2021-…" sorts after "01.01.2022-…" although it is earlier | sort by publication time | high, not executed | TableCreate.DateKeyAsWrittenMisorders | TableCreate.SortByTimeOrder |
| ApiCSVConvert.py:137 | `exchange_rates = keys()[2:]` over a frame whose columns are `['date'] + currencies` skips the first currency (3.4.2 and 3.4.3 read the same layout back from CSV) | first currency "BYR" with a rate other than 1; a BYR vacancy with `salary_from` 1000 comes back as 1000 | every column after "date" is a rate, as 3.5.2 takes it with `keys()[1:]` | medium, not executed | Conversion.FirstCurrencyUnconverted | Conversion.CurrenciesAreTheCodes |

`TableCreate.SortVacancies` takes the date order as a parameter. The script's sort, in `TableCreate.GetVacancies`, uses the text order, as written (`TableCreate.SortByTextOrder`). The corrected time order is proved in `TableCreate.SortByTimeOrder`.

For the converters, each script keeps its own column list. The 3.4.x copies and ApiCSVConvert.py convert with `Conversion.ExchangeRates` as written. The 3.5.2 copy uses `Conversion.Currencies`, the corrected list.

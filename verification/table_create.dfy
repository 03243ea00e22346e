/** The console table of vacancies: the checks on what the user typed, the
    row filter of the data set, the cleaning of HTML out of every cell, the
    formatting of the fields of a vacancy, the user's filter, the sort and
    the range of rows shown. Every `quick_quit` (a message and `exit()`) and
    every exception the script lets escape is an `Err`. */
module TableCreate {
  import opened Wrappers
  import opened Text
  import opened Numbers
  import opened Dicts
  import opened Ranking
  import opened Timestamp
  import opened Rows

  /** Why the script stops. */
  datatype Failure =
    | Quit(message: string)   // `quick_quit`: the message is printed, then `exit()`
    | MissingKey(key: string) // `KeyError` from one of the lookup tables
    | NotNumber(text: string) // `ValueError` from `float` or `int`
    | NotDate(text: string)   // `ValueError` from `strptime`
    | NotText                 // a list, or the attribute placeholder, where a string is needed
    | BadFilter(param: string) // `key, value = ....split(": ")` did not give two parts
    | NoHeader                // `data[0]` of a file that holds no row at all
    | Unordered               // `sorted` compared two keys that cannot be ordered

  // ---------------------------------------------------------------------
  // What the user typed

  /** `UserInput.sort_phrases`: the columns one may filter or sort on. */
  const SortPhrases: seq<string> := ["Название", "Описание", "Навыки", "Опыт работы",
    "Премиум-вакансия", "Компания", "Оклад", "Название региона", "Дата публикации вакансии",
    "Идентификатор валюты оклада"]

  /** `check_filter_param`: an empty filter, or "<column>: <value>" whose
      column is one of the sort phrases. */
  function CheckFilterParam(param: string): (r: Result<string, Failure>)
    ensures r.Ok? ==> r.value == param
    ensures r.Ok? <==> param == "" || (Contains(param, ": ") && SplitOn(param, ": ")[0] in SortPhrases)
    ensures param != "" && !Contains(param, ": ") ==> r == Err(Quit("Формат ввода некорректен"))
    ensures param != "" && Contains(param, ": ") && SplitOn(param, ": ")[0] !in SortPhrases
      ==> r == Err(Quit("Параметр поиска некорректен"))
  {
    if param != "" && !Contains(param, ": ") then Err(Quit("Формат ввода некорректен"))
    else if param != "" && SplitOn(param, ": ")[0] !in SortPhrases then Err(Quit("Параметр поиска некорректен"))
    else Ok(param)
  }

  /** `check_sort_param`: an empty parameter or one of the sort phrases. */
  function CheckSortParam(param: string): (r: Result<string, Failure>)
    ensures r.Ok? <==> param == "" || param in SortPhrases
    ensures r.Ok? ==> r.value == param
    ensures r.Err? ==> r.error == Quit("Параметр сортировки некорректен")
  {
    if param != "" && param !in SortPhrases then Err(Quit("Параметр сортировки некорректен"))
    else Ok(param)
  }

  /** `check_reverse_sort_param`: "Да", "Нет" or nothing; true for "Да"
      only. */
  function CheckReverseSortParam(param: string): (r: Result<bool, Failure>)
    ensures r.Ok? <==> param == "Да" || param == "Нет" || param == ""
    ensures r.Ok? ==> (r.value <==> param == "Да")
    ensures r.Err? ==> r.error == Quit("Порядок сортировки задан некорректно")
  {
    if param !in ["Да", "Нет", ""] then Err(Quit("Порядок сортировки задан некорректно"))
    else Ok(param == "Да")
  }

  /** The nine columns printed when the user asks for all of them. */
  const DefaultColumns: seq<string> := ["Название", "Описание", "Навыки", "Опыт работы",
    "Премиум-вакансия", "Компания", "Оклад", "Название региона", "Дата публикации вакансии"]

  /** `check_names`: the row number column first, then the default columns
      when an empty name was typed and the typed names otherwise. */
  function CheckNames(headers: seq<string>): (r: seq<string>)
    ensures |r| >= 1 && r[0] == "№"
    ensures "" in headers ==> r[1..] == DefaultColumns
    ensures "" !in headers ==> r[1..] == headers
  {
    ["№"] + (if "" in headers then DefaultColumns else headers)
  }

  // ---------------------------------------------------------------------
  // The data set

  /** `DataSet.__init__` over the size of the file and the rows
      `csv.reader` gives: the header and the rows that have its arity and no
      empty field. */
  function LoadDataSet(fileSize: nat, data: seq<Row>): (r: Result<(seq<string>, seq<Row>), Failure>)
    ensures fileSize == 0 <==> r == Err(Quit("Пустой файл"))
    ensures fileSize > 0 && |data| == 0 ==> r == Err(NoHeader)
    ensures r.Ok? ==> |data| > 0 && r.value.0 == data[0] && |r.value.1| > 0
    ensures r.Ok? ==> r.value.1 == KeepRows(data[1..], |data[0]|)
    ensures fileSize > 0 && |data| > 0 ==> (r.Ok? <==> exists row :: row in data[1..] && WellFormed(row, |data[0]|))
  {
    if fileSize == 0 then Err(Quit("Пустой файл"))
    else if |data| == 0 then Err(NoHeader)
    else
      var names := data[0];
      var all := KeepRows(data[1..], |names|);
      KeepRowsExact(data[1..], |names|);
      if |all| == 0 then Err(Quit("Нет данных")) else Ok((names, all))
  }

  // ---------------------------------------------------------------------
  // parse_html

  /** Where the tag opened just before `s` closes: the index of the first
      '>' in `s`, provided no newline comes before it (in `<.*?>` the dot
      does not match a newline). */
  function CloseAt(s: string): (r: Option<nat>)
    ensures r.Some? ==> r.value < |s| && s[r.value] == '>'
    ensures r.Some? ==> forall i :: 0 <= i < r.value ==> s[i] != '>' && s[i] != '\n'
  {
    if |s| == 0 || s[0] == '\n' then None
    else if s[0] == '>' then Some(0)
    else match CloseAt(s[1..])
      case None => None
      case Some(j) => Some(j + 1)
  }

  /** `re.sub("<.*?>", "", s)`: from left to right, every '<' with a '>'
      after it on the same line is deleted together with that '>' and what
      lies between. */
  function StripTags(s: string): (r: string)
    ensures |r| <= |s|
    decreases |s|
  {
    if |s| == 0 then ""
    else if s[0] == '<' && CloseAt(s[1..]).Some? then StripTags(s[1..][CloseAt(s[1..]).value + 1..])
    else [s[0]] + StripTags(s[1..])
  }

  /** No '<' of `s` is closed by a '>' later on its line. */
  predicate NoTags(s: string)
  {
    forall i :: 0 <= i < |s| && s[i] == '<' ==> CloseAt(s[i + 1..]).None?
  }

  /** A text whose first line holds no '>' keeps that property when the tags
      are stripped. */
  lemma {:induction false} StripKeepsOpen(s: string)
    requires CloseAt(s).None?
    ensures CloseAt(StripTags(s)).None?
    decreases |s|
  {
    if |s| > 0 && s[0] != '\n' {
      StripKeepsOpen(s[1..]);
      assert StripTags(s)[1..] == StripTags(s[1..]);
    }
  }

  /** What `re.sub` leaves holds no tag: every '<' left has no '>' after it
      on its line. */
  lemma {:induction false} StripLeavesNoTags(s: string)
    ensures NoTags(StripTags(s))
    decreases |s|
  {
    if |s| > 0 {
      if s[0] == '<' && CloseAt(s[1..]).Some? {
        StripLeavesNoTags(s[1..][CloseAt(s[1..]).value + 1..]);
      } else {
        var rest := StripTags(s[1..]);
        StripLeavesNoTags(s[1..]);
        if s[0] == '<' {
          StripKeepsOpen(s[1..]);
        }
        ConsNoTags(s[0], rest);
        assert StripTags(s) == [s[0]] + rest;
      }
    }
  }

  /** A character before a text without tags leaves it without tags, unless
      it opens a tag that the first line of the text closes. */
  lemma ConsNoTags(c: char, rest: string)
    requires NoTags(rest) && (c == '<' ==> CloseAt(rest).None?)
    ensures NoTags([c] + rest)
  {
    var r := [c] + rest;
    forall i | 0 <= i < |r| && r[i] == '<' ensures CloseAt(r[i + 1..]).None? {
      if i == 0 {
        assert r[1..] == rest;
      } else {
        assert r[i + 1..] == rest[i..];
        assert rest[i - 1] == '<';
      }
    }
  }

  /** A text without tags comes out of `re.sub` unchanged. */
  lemma {:induction false} StripNoTags(s: string)
    requires NoTags(s)
    ensures StripTags(s) == s
    decreases |s|
  {
    if |s| > 0 {
      assert s[0] == '<' ==> CloseAt(s[1..]).None?;
      forall i | 0 <= i < |s[1..]| && s[1..][i] == '<' ensures CloseAt(s[1..][i + 1..]).None? {
        assert s[1..][i + 1..] == s[i + 2..];
      }
      StripNoTags(s[1..]);
      assert s == [s[0]] + s[1..];
    }
  }

  /** Stripping twice is stripping once. */
  lemma StripIdempotent(s: string)
    ensures StripTags(StripTags(s)) == StripTags(s)
  {
    StripLeavesNoTags(s);
    StripNoTags(StripTags(s));
  }

  /** A cell after `parse_html`: one line of text, or the list of lines. */
  datatype Cell = Text(s: string) | Lines(lines: seq<string>)

  /** The text `parse_html` splits into lines: the tags stripped and every
      "\r\n" made a "\n". */
  function Unwrapped(value: string): string
  {
    Replace(StripTags(value), "\r\n", "\n")
  }

  /** `parse_html`: each line of the unwrapped text with its whitespace
      collapsed; a single line is returned as a string. */
  function ParseHtml(value: string): Cell
  {
    var parts := SplitOn(Unwrapped(value), "\n");
    var lines := seq(|parts|, i requires 0 <= i < |parts| => CollapseSpaces(parts[i]));
    if |lines| == 1 then Text(lines[0]) else Lines(lines)
  }

  /** The lines of a cell. */
  function LinesOf(c: Cell): seq<string>
  {
    match c
    case Text(s) => [s]
    case Lines(ls) => ls
  }

  /** `parse_html` gives one line exactly when the unwrapped text has no
      newline; the lines, joined back with newlines before their spaces are
      collapsed, are the unwrapped text; each line keeps the words of its
      part of the text and no whitespace but single spaces between words. */
  lemma ParseHtmlSpec(value: string)
    ensures var parts := SplitOn(Unwrapped(value), "\n"); var c := ParseHtml(value);
      && (c.Text? <==> !Contains(Unwrapped(value), "\n"))
      && JoinWith(parts, "\n") == Unwrapped(value)
      && |LinesOf(c)| == |parts|
      && forall i :: 0 <= i < |parts| ==>
        Words(LinesOf(c)[i]) == Words(parts[i]) && !Contains(LinesOf(c)[i], "\n")
        && forall j :: 0 <= j < |LinesOf(c)[i]| && IsSpace(LinesOf(c)[i][j]) ==> LinesOf(c)[i][j] == ' '
  {
    var t := Unwrapped(value);
    var parts := SplitOn(t, "\n");
    JoinSplit(t, "\n");
    var c := ParseHtml(value);
    assert |LinesOf(c)| == |parts|;
    forall i | 0 <= i < |parts|
      ensures Words(LinesOf(c)[i]) == Words(parts[i]) && !Contains(LinesOf(c)[i], "\n")
      ensures forall j :: 0 <= j < |LinesOf(c)[i]| && IsSpace(LinesOf(c)[i][j]) ==> LinesOf(c)[i][j] == ' '
    {
      var line := LinesOf(c)[i];
      assert line == CollapseSpaces(parts[i]);
      CollapseKeepsWords(parts[i]);
      CollapsedShape(parts[i]);
      if Contains(line, "\n") {
        var j := IndexOf(line, "\n").value;
        assert line[j..j + 1] == "\n";
        assert IsSpace(line[j]);
      }
    }
    if IndexOf(t, "\n").Some? {
      assert |parts| >= 2;
    }
  }
  // ---------------------------------------------------------------------
  // The fields of a vacancy

  const Experience: map<string, string> := map["noExperience" := "Нет опыта",
    "between1And3" := "От 1 года до 3 лет", "between3And6" := "От 3 до 6 лет", "moreThan6" := "Более 6 лет"]

  const Premium: map<string, string> := map["False" := "Нет", "True" := "Да"]

  const Currency: map<string, string> := map["AZN" := "Манаты", "BYR" := "Белорусские рубли",
    "EUR" := "Евро", "GEL" := "Грузинский лари", "KGS" := "Киргизский сом", "KZT" := "Тенге",
    "RUR" := "Рубли", "UAH" := "Гривны", "USD" := "Доллары", "UZS" := "Узбекский сум"]

  const SalGross: map<string, string> := map["False" := "С вычетом налогов", "True" := "Без вычета налогов"]

  /** `table[value]` for a cell: a list cannot be a key and a missing key
      raises `KeyError`. */
  function Lookup(table: map<string, string>, value: Cell): (r: Result<Cell, Failure>)
    ensures r.Ok? <==> value.Text? && value.s in table
    ensures r.Ok? ==> r.value == Text(table[value.s])
  {
    match value
    case Lines(_) => Err(NotText)
    case Text(s) => if s in table then Ok(Text(table[s])) else Err(MissingKey(s))
  }

  /** `"{:,}".format(int(float(value))).replace(",", " ")`. */
  function FormatBound(value: Cell): (r: Result<Cell, Failure>)
    ensures r.Ok? <==> value.Text? && ParseDecimal(value.s).Some?
    ensures r.Ok? ==> r.value == Text(GroupThousands(TruncReal(ParseDecimal(value.s).value)))
  {
    match value
    case Lines(_) => Err(NotText)
    case Text(s) =>
      match ParseDecimal(s)
      case None => Err(NotNumber(s))
      case Some(x) => Ok(Text(GroupThousands(TruncReal(x))))
  }

  /** The columns `formatter` does not pass through as they are. */
  const FormattedKeys: set<string> := {"key_skills", "premium", "salary_gross", "experience_id", "salary_currency",
    "salary_to", "salary_from", "published_at"}

  /** `Vacancy.formatter`: the display form of the value of one column. */
  function Format(key: string, value: Cell): (r: Result<Cell, Failure>)
    ensures key == "key_skills" ==> r.Ok? && r.value.Text?
    ensures key in FormattedKeys && key != "key_skills" ==> (r.Ok? ==> value.Text? && r.value.Text?)
    ensures key == "published_at" ==> (r.Ok? <==> value.Text? && Parse(value.s).Some?)
    ensures key == "published_at" && r.Ok? ==> r.value == Text(Dmy(Parse(value.s).value))
    ensures key !in FormattedKeys ==> r == Ok(value)
  {
    if key == "key_skills" && value.Lines? then Ok(Text(JoinWith(value.lines, "\n")))
    else if key == "premium" then Lookup(Premium, value)
    else if key == "salary_gross" then Lookup(SalGross, value)
    else if key == "experience_id" then Lookup(Experience, value)
    else if key == "salary_currency" then Lookup(Currency, value)
    else if key == "salary_to" || key == "salary_from" then FormatBound(value)
    else if key == "published_at" then
      match value
      case Lines(_) => Err(NotText)
      case Text(s) =>
        match Parse(s)
        case None => Err(NotDate(s))
        case Some(t) => Ok(Text(Dmy(t)))
    else Ok(value)
  }

  /** The attributes of a `Vacancy`: its `__dict__`. An attribute absent
      from the map still holds the placeholder `str` that `__init__` puts in
      each of them first. */
  datatype Vacancy = Vacancy(attrs: map<string, Cell>)

  /** `setattr(self, key, self.formatter(key, value))`; formatting
      `published_at` also sets `full_published_time`. */
  function Assign(attrs: map<string, Cell>, key: string, value: Cell): (r: Result<map<string, Cell>, Failure>)
    ensures r.Ok? <==> Format(key, value).Ok?
    ensures r.Ok? ==> key in r.value && r.value[key] == Format(key, value).value
    ensures r.Ok? ==> forall k :: (k in attrs && k != key && (k != "full_published_time" || key != "published_at"))
                                  ==> k in r.value && r.value[k] == attrs[k]
    ensures r.Ok? && key == "published_at" ==>
      "full_published_time" in r.value && r.value["full_published_time"] == Text(FullTime(Parse(value.s).value))
    ensures r.Ok? ==> forall k :: k in r.value ==> k in attrs || k == key || (k == "full_published_time" && key == "published_at")
  {
    match Format(key, value)
    case Err(e) => Err(e)
    case Ok(c) =>
      if key == "published_at" then Ok(attrs["full_published_time" := Text(FullTime(Parse(value.s).value))][key := c])
      else Ok(attrs[key := c])
  }

  /** The four salary attributes are never a list. */
  predicate SalaryTexts(attrs: map<string, Cell>)
  {
    forall k :: k in attrs && k in {"salary_from", "salary_to", "salary_currency", "salary_gross"} ==> attrs[k].Text?
  }

  /** The loop of `Vacancy.__init__` over the items of the row. */
  function Formatted(items: seq<(string, Cell)>): (r: Result<map<string, Cell>, Failure>)
    ensures r.Ok? ==> SalaryTexts(r.value)
  {
    if |items| == 0 then Ok(map[])
    else
      match Formatted(items[..|items| - 1])
      case Err(e) => Err(e)
      case Ok(attrs) => Assign(attrs, items[|items| - 1].0, items[|items| - 1].1)
  }

  /** `str(attribute)` in the f-string: the text, or the name of the
      placeholder type. */
  function Show(attrs: map<string, Cell>, key: string): string
    requires SalaryTexts(attrs) && key in {"salary_from", "salary_to", "salary_currency", "salary_gross"}
  {
    if key in attrs then attrs[key].s else "<class 'str'>"
  }

  /** `self.salary` of a vacancy. */
  function SalaryText(attrs: map<string, Cell>): string
    requires SalaryTexts(attrs)
  {
    Show(attrs, "salary_from") + " - " + Show(attrs, "salary_to") + " (" + Show(attrs, "salary_currency") + ") ("
      + Show(attrs, "salary_gross") + ")"
  }

  /** The vacancy that `__init__` builds from the items of a row. */
  function Built(items: seq<(string, Cell)>): Result<Vacancy, Failure>
  {
    match Formatted(items)
    case Err(e) => Err(e)
    case Ok(attrs) => Ok(Vacancy(attrs["salary" := Text(SalaryText(attrs))]))
  }

  /** `Vacancy.__init__`: every item of the row formatted and set in turn,
      then the salary line. */
  method NewVacancy(row: Dict<string, Cell>) returns (r: Result<Vacancy, Failure>)
    requires row.Valid()
    ensures r == Built(Items(row))
  {
    var items := Items(row);
    var attrs: map<string, Cell> := map[];
    var i := 0;
    while i < |items|
      invariant 0 <= i <= |items|
      invariant Formatted(items[..i]) == Ok(attrs)
    {
      FormattedNext(items, i);
      var next := Assign(attrs, items[i].0, items[i].1);
      if next.Err? {
        FormattedFails(items, i + 1);
        return Err(next.error);
      }
      attrs := next.value;
      i := i + 1;
    }
    assert items[..i] == items;
    r := Ok(Vacancy(attrs["salary" := Text(SalaryText(attrs))]));
  }

  /** One more item of the row. */
  lemma FormattedNext(items: seq<(string, Cell)>, i: nat)
    requires i < |items|
    ensures Formatted(items[..i + 1]) == match Formatted(items[..i])
      case Err(e) => Err(e)
      case Ok(attrs) => Assign(attrs, items[i].0, items[i].1)
  {
    assert items[..i + 1][..i] == items[..i];
  }

  /** Once one item fails to format, the whole row fails with that error. */
  lemma {:induction false} FormattedFails(items: seq<(string, Cell)>, n: nat)
    requires 0 < n <= |items| && Formatted(items[..n - 1]).Ok?
    requires Assign(Formatted(items[..n - 1]).value, items[n - 1].0, items[n - 1].1).Err?
    ensures Formatted(items) == Assign(Formatted(items[..n - 1]).value, items[n - 1].0, items[n - 1].1)
    decreases |items|
  {
    if n < |items| {
      var front := items[..|items| - 1];
      assert front[..n - 1] == items[..n - 1] && front[n - 1] == items[n - 1];
      FormattedFails(front, n);
    } else {
      assert items[..|items| - 1] == items[..n - 1];
    }
  }
  /** The vacancy is built exactly when every column formats. */
  lemma {:induction false} FormattedOk(items: seq<(string, Cell)>)
    ensures Formatted(items).Ok? <==> forall i :: 0 <= i < |items| ==> Format(items[i].0, items[i].1).Ok?
  {
    if |items| > 0 {
      var n := |items| - 1;
      var front := items[..n];
      FormattedOk(front);
      assert forall i :: 0 <= i < n ==> front[i] == items[i];
      if Formatted(front).Err? {
        var i :| 0 <= i < n && !Format(front[i].0, front[i].1).Ok?;
        assert !Format(items[i].0, items[i].1).Ok?;
        assert Formatted(items).Err?;
      } else {
        assert Formatted(items) == Assign(Formatted(front).value, items[n].0, items[n].1);
      }
    }
  }

  /** For a row whose columns are distinct, each column of a built vacancy
      holds its formatted value (`full_published_time` aside, which
      `published_at` also sets). */
  lemma {:induction false} FormattedValues(items: seq<(string, Cell)>)
    requires Distinct(Firsts(items))
    ensures Formatted(items).Ok? ==> forall i :: 0 <= i < |items| && items[i].0 != "full_published_time" ==>
      items[i].0 in Formatted(items).value && Format(items[i].0, items[i].1) == Ok(Formatted(items).value[items[i].0])
  {
    if |items| > 0 && Formatted(items).Ok? {
      var n := |items| - 1;
      var front, last := items[..n], items[n];
      assert Firsts(front) == Firsts(items)[..n];
      FormattedValues(front);
      var attrs := Formatted(front).value;
      assert Formatted(items) == Assign(attrs, last.0, last.1);
      forall i | 0 <= i < n && items[i].0 != "full_published_time"
        ensures items[i].0 in Formatted(items).value && Format(items[i].0, items[i].1) == Ok(Formatted(items).value[items[i].0])
      {
        assert front[i] == items[i];
        assert Firsts(items)[i] != Firsts(items)[n];
      }
    }
  }

  /** A built vacancy has no attribute the row does not name, except the
      `full_published_time` that `published_at` brings. */
  lemma {:induction false} FormattedNames(items: seq<(string, Cell)>)
    ensures Formatted(items).Ok? ==> forall k :: k in Formatted(items).value ==>
      k in Firsts(items) || (k == "full_published_time" && "published_at" in Firsts(items))
  {
    if |items| > 0 && Formatted(items).Ok? {
      var n := |items| - 1;
      var front, last := items[..n], items[n];
      FormattedNames(front);
      assert Firsts(items) == Firsts(front) + [last.0];
      assert Formatted(items) == Assign(Formatted(front).value, last.0, last.1);
    }
  }

  /** What `filter_condition` and `get_sort_func` read back from a salary
      bound: `float(bound.replace(" ", ""))`. A placeholder or a list has no
      `replace`. */
  function BoundValue(attrs: map<string, Cell>, key: string): (r: Result<real, Failure>)
    ensures r.Ok? <==> key in attrs && attrs[key].Text? && ParseDecimal(Without(attrs[key].s, ' ')).Some?
  {
    if key !in attrs || attrs[key].Lines? then Err(NotText)
    else
      var text := Without(attrs[key].s, ' ');
      match ParseDecimal(text)
      case None => Err(NotNumber(text))
      case Some(x) => Ok(x)
  }

  /** The formatted bound reads back as the whole number it shows: the
      thousands separators come out again and nothing else is lost. */
  lemma FormatBoundReadsBack(attrs: map<string, Cell>, key: string, value: string)
    requires key in attrs && FormatBound(Text(value)) == Ok(attrs[key])
    ensures BoundValue(attrs, key) == Ok(TruncReal(ParseDecimal(value).value) as real)
  {
    GroupThousandsReadsBack(TruncReal(ParseDecimal(value).value));
  }

  /** `translator`: the column names as the user types them, and the
      attributes that hold them. */
  const Translator: map<string, string> := map["Название" := "name", "Описание" := "description",
    "Навыки" := "key_skills", "Опыт работы" := "experience_id", "Премиум-вакансия" := "premium",
    "Компания" := "employer_name", "Оклад" := "salary", "Верхняя граница вилки оклада" := "salary_to",
    "Нижняя граница вилки оклада" := "salary_from", "Оклад указан до вычета налогов" := "salary_gross",
    "Идентификатор валюты оклада" := "salary_currency", "Название региона" := "area_name",
    "Дата публикации вакансии" := "published_at"]

  /** `self.key_skills.split("\n")`. On the placeholder this is
      `str.split("\n")`, which splits the string "\n" on whitespace and gives
      no skill at all. */
  function SkillsOf(attrs: map<string, Cell>): (r: Result<seq<string>, Failure>)
    ensures "key_skills" in attrs && attrs["key_skills"].Text? ==> r == Ok(SplitOn(attrs["key_skills"].s, "\n"))
  {
    if "key_skills" !in attrs then Ok([])
    else match attrs["key_skills"]
      case Lines(_) => Err(NotText)
      case Text(s) => Ok(SplitOn(s, "\n"))
  }

  /** `Vacancy.filter_condition`. */
  function FilterCondition(v: Vacancy, param: string): (r: Result<bool, Failure>)
    ensures param == "" ==> r == Ok(true)
    ensures param != "" && |SplitOn(param, ": ")| != 2 ==> r == Err(BadFilter(param))
  {
    if param == "" then Ok(true)
    else
      var parts := SplitOn(param, ": ");
      if |parts| != 2 then Err(BadFilter(param))
      else
        var key, value := parts[0], parts[1];
        if key == "Оклад" then
          match BoundValue(v.attrs, "salary_from")
          case Err(e) => Err(e)
          case Ok(low) =>
            match ParseDecimal(value)
            case None => Err(NotNumber(value))
            case Some(x) =>
              if !(low <= x) then Ok(false)
              else
                match BoundValue(v.attrs, "salary_to")
                case Err(e) => Err(e)
                case Ok(high) => Ok(x <= high)
        else if key == "Идентификатор валюты оклада" then
          Ok("salary_currency" in v.attrs && v.attrs["salary_currency"] == Text(value))
        else if key == "Навыки" then
          match SkillsOf(v.attrs)
          case Err(e) => Err(e)
          case Ok(skills) => Ok(forall skill :: skill in SplitOn(value, ", ") ==> skill in skills)
        else if key !in Translator then Err(MissingKey(key))
        else Ok(Translator[key] in v.attrs && v.attrs[Translator[key]] == Text(value))
  }

  /** The salary filter keeps a vacancy exactly when the typed amount lies
      between the whole numbers its two bounds were formatted to. */
  lemma FilterSalary(v: Vacancy, param: string, value: string, low: string, high: string)
    requires SplitOn(param, ": ") == ["Оклад", value] && ParseDecimal(value).Some?
    requires "salary_from" in v.attrs && FormatBound(Text(low)) == Ok(v.attrs["salary_from"])
    requires "salary_to" in v.attrs && FormatBound(Text(high)) == Ok(v.attrs["salary_to"])
    ensures FilterCondition(v, param) == Ok(TruncReal(ParseDecimal(low).value) as real <= ParseDecimal(value).value
      <= TruncReal(ParseDecimal(high).value) as real)
  {
    FormatBoundReadsBack(v.attrs, "salary_from", low);
    FormatBoundReadsBack(v.attrs, "salary_to", high);
  }

  /** The skills filter sees the lines of the skills cell as `parse_html`
      gave them: a vacancy passes exactly when every requested skill is one
      of those lines. */
  lemma FilterSkills(v: Vacancy, param: string, value: string, lines: seq<string>)
    requires SplitOn(param, ": ") == ["Навыки", value]
    requires |lines| >= 1 && forall i :: 0 <= i < |lines| ==> !Contains(lines[i], "\n")
    requires "key_skills" in v.attrs && Format("key_skills", Lines(lines)) == Ok(v.attrs["key_skills"])
    ensures FilterCondition(v, param) == Ok(forall skill :: skill in SplitOn(value, ", ") ==> skill in lines)
  {
    SplitJoin(lines, "\n");
    assert SkillsOf(v.attrs) == Ok(lines);
  }
  // ---------------------------------------------------------------------
  // Sorting

  const CurrencyToRub: map<string, real> := map["Манаты" := 35.68, "Белорусские рубли" := 23.91,
    "Евро" := 59.90, "Грузинский лари" := 21.74, "Киргизский сом" := 0.76, "Тенге" := 0.13,
    "Рубли" := 1.0, "Гривны" := 1.64, "Доллары" := 60.66, "Узбекский сум" := 0.0055]

  const ExperienceSort: map<string, int> := map["Нет опыта" := 0, "От 1 года до 3 лет" := 1,
    "От 3 до 6 лет" := 2, "Более 6 лет" := 3]

  /** `a` is strictly earlier than `b`. */
  predicate Before(a: DateTime, b: DateTime)
  {
    a.year < b.year || (a.year == b.year && (a.month < b.month || (a.month == b.month && (a.day < b.day
    || (a.day == b.day && (a.hour < b.hour || (a.hour == b.hour && (a.minute < b.minute
    || (a.minute == b.minute && a.second < b.second)))))))))
  }

  /** The fields of a timestamp as one number, digit pairs after the year. */
  function Stamp(t: DateTime): nat
  {
    ((((t.year * 100 + t.month) * 100 + t.day) * 100 + t.hour) * 100 + t.minute) * 100 + t.second
  }

  lemma PairOrder(a: nat, b: nat, c: nat, d: nat)
    requires b < 100 && d < 100
    ensures a * 100 + b < c * 100 + d <==> a < c || (a == c && b < d)
    ensures a * 100 + b == c * 100 + d <==> a == c && b == d
  {
    if a < c {
      MulMono(a + 1, c, 100);
    } else if c < a {
      MulMono(c + 1, a, 100);
    }
  }

  /** Numbers that keep the order of time: one timestamp is before another
      exactly when its number is smaller. */
  lemma StampOrder(a: DateTime, b: DateTime)
    requires ValidDateTime(a) && ValidDateTime(b)
    ensures Before(a, b) <==> Stamp(a) < Stamp(b)
  {
    PairOrder(a.year, a.month, b.year, b.month);
    var a1, b1 := a.year * 100 + a.month, b.year * 100 + b.month;
    PairOrder(a1, a.day, b1, b.day);
    var a2, b2 := a1 * 100 + a.day, b1 * 100 + b.day;
    PairOrder(a2, a.hour, b2, b.hour);
    var a3, b3 := a2 * 100 + a.hour, b2 * 100 + b.hour;
    PairOrder(a3, a.minute, b3, b.minute);
    var a4, b4 := a3 * 100 + a.minute, b3 * 100 + b.minute;
    PairOrder(a4, a.second, b4, b.second);
  }

  /** The timestamp written in `full_published_time`, "DD.MM.YYYY-HH:MM:SS",
      read back. */
  function ReadFullTime(s: string): Option<DateTime>
  {
    if |s| != 19 || s[10] != '-' then None
    else
      var d, u := s[..10], s[11..];
      if d[2] == '.' && d[5] == '.' && DigitsAt(d, 0, 2) && DigitsAt(d, 3, 2) && DigitsAt(d, 6, 4) && Triple(u, 2, ':') then
        Some(DateTime(NumAt(d, 6, 4), NumAt(d, 3, 2), NumAt(d, 0, 2), NumAt(u, 0, 2), NumAt(u, 3, 2), NumAt(u, 6, 2)))
      else None
  }

  lemma ReadFullTimeBack(t: DateTime)
    requires ValidDateTime(t)
    ensures ReadFullTime(FullTime(t)) == Some(t)
  {
    var s := FullTime(t);
    DmyReadsBack(t);
    assert Pow10(2) == 100;
    TripleReadsBack(t.hour, 2, t.minute, t.second, ':');
    assert s[..10] == Dmy(t);
    assert s[11..] == JoinTriple(t.hour, 2, t.minute, t.second, ':');
  }

  /** The sort key of the publication date as the script computes it: the
      text "DD.MM.YYYY-HH:MM:SS", compared character by character. */
  function DateKeyAsWritten(fullTime: string): (k: Key)
    ensures k.Str? && k.s == fullTime
  {
    Str(fullTime)
  }

  /** The key above does not follow time: 2 January 2021 is earlier than
      1 January 2022, yet its text sorts after, because the day comes
      first. */
  lemma DateKeyAsWrittenMisorders()
    ensures var early, late := DateTime(2021, 1, 2, 0, 0, 0), DateTime(2022, 1, 1, 0, 0, 0);
      Before(early, late) && !KeyLe(DateKeyAsWritten(FullTime(early)), DateKeyAsWritten(FullTime(late)))
  {
    var early, late := DateTime(2021, 1, 2, 0, 0, 0), DateTime(2022, 1, 1, 0, 0, 0);
    var a, b := FullTime(early), FullTime(late);
    assert Pad(2, 2) == "02" && Pad(1, 2) == "01";
    assert a[..2] == "02" && b[..2] == "01";
    assert a[1..][0] == '2' && b[1..][0] == '1';
    assert !LexLe(a[1..], b[1..]);
  }

  /** The sort key of the publication date that orders by time: the number
      of the timestamp the text holds. */
  function DateKey(fullTime: string): (k: Key)
    ensures ReadFullTime(fullTime).Some? ==> k == Num(Stamp(ReadFullTime(fullTime).value) as real)
  {
    match ReadFullTime(fullTime)
    case Some(t) => Num(Stamp(t) as real)
    case None => Str(fullTime)
  }

  /** Sorting on `DateKey` is sorting by time. */
  lemma DateKeyOrder(a: DateTime, b: DateTime)
    requires ValidDateTime(a) && ValidDateTime(b)
    ensures KeyLe(DateKey(FullTime(a)), DateKey(FullTime(b))) <==> !Before(b, a)
  {
    ReadFullTimeBack(a);
    ReadFullTimeBack(b);
    StampOrder(b, a);
  }

  /** How a sort by "Дата публикации вакансии" keys the date: by its text,
      as the script does, or by time, as it is evidently meant to. */
  datatype DateOrder = ByText | ByTime

  function DateKeyFor(order: DateOrder, fullTime: string): Key
  {
    match order
    case ByText => DateKeyAsWritten(fullTime)
    case ByTime => DateKey(fullTime)
  }

  /** `get_sort_func(data, sort_param)`, the date keyed as `order` says:
      `Ok(None)` for a value Python cannot order (the placeholder, or a
      list). */
  function SortKey(v: Vacancy, param: string, order: DateOrder): (r: Result<Option<Key>, Failure>)
  {
    var attrs := v.attrs;
    if param == "Навыки" then
      match SkillsOf(attrs)
      case Err(e) => Err(e)
      case Ok(skills) => Ok(Some(Num(|skills| as real)))
    else if param == "Оклад" then
      if "salary_currency" !in attrs then Err(MissingKey("<class 'str'>"))
      else if attrs["salary_currency"].Lines? then Err(NotText)
      else if attrs["salary_currency"].s !in CurrencyToRub then Err(MissingKey(attrs["salary_currency"].s))
      else
        var rate := CurrencyToRub[attrs["salary_currency"].s];
        match BoundValue(attrs, "salary_from")
        case Err(e) => Err(e)
        case Ok(low) =>
          match BoundValue(attrs, "salary_to")
          case Err(e) => Err(e)
          case Ok(high) => Ok(Some(Num(((rate * (low + high)) / 2.0).Floor as real)))
    else if param == "Дата публикации вакансии" then
      if "full_published_time" in attrs && attrs["full_published_time"].Text? then
        Ok(Some(DateKeyFor(order, attrs["full_published_time"].s)))
      else Ok(None)
    else if param == "Опыт работы" then
      if "experience_id" !in attrs then Err(MissingKey("<class 'str'>"))
      else if attrs["experience_id"].Lines? then Err(NotText)
      else if attrs["experience_id"].s !in ExperienceSort then Err(MissingKey(attrs["experience_id"].s))
      else Ok(Some(Num(ExperienceSort[attrs["experience_id"].s] as real)))
    else if param !in Translator then Err(MissingKey(param))
    else if Translator[param] in attrs && attrs[Translator[param]].Text? then Ok(Some(Str(attrs[Translator[param]].s)))
    else Ok(None)
  }

  /** The skills key is the number of lines of the skills cell. */
  lemma SkillsKey(v: Vacancy, lines: seq<string>)
    requires |lines| >= 1 && forall i :: 0 <= i < |lines| ==> !Contains(lines[i], "\n")
    requires "key_skills" in v.attrs && Format("key_skills", Lines(lines)) == Ok(v.attrs["key_skills"])
    ensures forall order :: SortKey(v, "Навыки", order) == Ok(Some(Num(|lines| as real)))
  {
    SplitJoin(lines, "\n");
    assert SkillsOf(v.attrs) == Ok(lines);
  }

  /** The key `sorted` uses once every key is known to be an orderable
      value. */
  function KeyFor(param: string, order: DateOrder): Vacancy -> Key
  {
    vacancy => match SortKey(vacancy, param, order)
      case Ok(Some(k)) => k
      case _ => Num(0.0)
  }

  /** The first failure among the keys, in list order: `sorted` computes
      every key before comparing any. */
  function KeyFailure(vs: seq<Vacancy>, param: string, order: DateOrder): (r: Option<Failure>)
    ensures r.None? <==> forall i :: 0 <= i < |vs| ==> SortKey(vs[i], param, order).Ok?
  {
    if |vs| == 0 then None
    else if SortKey(vs[0], param, order).Err? then Some(SortKey(vs[0], param, order).error)
    else KeyFailure(vs[1..], param, order)
  }

  /** Every key can be computed and, when two vacancies or more are
      compared, ordered. */
  predicate AllKeyed(vs: seq<Vacancy>, param: string, order: DateOrder)
  {
    (forall i :: 0 <= i < |vs| ==> SortKey(vs[i], param, order).Ok?)
    && (|vs| < 2 || forall i :: 0 <= i < |vs| ==> SortKey(vs[i], param, order).value.Some?)
  }

  /** `sort_vacancies`; the script is `order == ByText`. */
  function SortVacancies(vs: seq<Vacancy>, param: string, reverse: bool, order: DateOrder): (r: Result<seq<Vacancy>, Failure>)
    ensures param == "" ==> r == Ok(vs)
    ensures param != "" ==> (r.Ok? <==> AllKeyed(vs, param, order))
  {
    if param == "" then Ok(vs)
    else if KeyFailure(vs, param, order).Some? then Err(KeyFailure(vs, param, order).value)
    else if |vs| >= 2 && exists i :: 0 <= i < |vs| && SortKey(vs[i], param, order) == Ok(None) then Err(Unordered)
    else Ok(StableSort(vs, KeyFor(param, order), reverse))
  }

  /** A sort that succeeds returns the same vacancies ordered by their keys (descending
      on request), and vacancies with equal keys keep their input order. */
  lemma SortVacanciesSpec(vs: seq<Vacancy>, param: string, reverse: bool, order: DateOrder)
    ensures SortVacancies(vs, param, reverse, order).Ok? && param != "" ==>
      var r := SortVacancies(vs, param, reverse, order).value;
      && multiset(r) == multiset(vs)
      && Sorted(r, KeyFor(param, order), reverse)
      && forall k :: WithKey(r, KeyFor(param, order), k) == WithKey(vs, KeyFor(param, order), k)
  {
    var key := KeyFor(param, order);
    if param != "" && SortVacancies(vs, param, reverse, order).Ok? {
      SortPermutes(vs, key, reverse);
      SortSorts(vs, key, reverse);
      forall k ensures WithKey(StableSort(vs, key, reverse), key, k) == WithKey(vs, key, k) {
        SortStable(vs, key, reverse, k);
      }
    }
  }

  /** The publication time of a vacancy, read from its `full_published_time`. */
  function PublishedTime(v: Vacancy): Option<DateTime>
  {
    if "full_published_time" in v.attrs && v.attrs["full_published_time"].Text? then
      ReadFullTime(v.attrs["full_published_time"].s)
    else None
  }

  /** Keyed by text, a sort by date follows the text "DD.MM.YYYY-HH:MM:SS"
      character by character, as the script does. */
  lemma SortByTextOrder(vs: seq<Vacancy>, reverse: bool)
    ensures var r := SortVacancies(vs, "Дата публикации вакансии", reverse, ByText);
      r.Ok? ==>
        forall i, j :: 0 <= i < j < |r.value| ==>
          var a, b := r.value[i].attrs, r.value[j].attrs;
          && "full_published_time" in a && a["full_published_time"].Text?
          && "full_published_time" in b && b["full_published_time"].Text?
          && (if reverse then LexLe(b["full_published_time"].s, a["full_published_time"].s)
              else LexLe(a["full_published_time"].s, b["full_published_time"].s))
  {
    var param := "Дата публикации вакансии";
    var r := SortVacancies(vs, param, reverse, ByText);
    if r.Ok? && |vs| < 2 {
      SortVacanciesSpec(vs, param, reverse, ByText);
      assert |r.value| == |multiset(r.value)| == |vs|;
    } else if r.Ok? {
      SortVacanciesSpec(vs, param, reverse, ByText);
      SortMembers(vs, KeyFor(param, ByText), reverse);
      forall v | v in r.value
        ensures "full_published_time" in v.attrs && v.attrs["full_published_time"].Text?
        ensures KeyFor(param, ByText)(v) == Str(v.attrs["full_published_time"].s)
      {
        var i :| 0 <= i < |vs| && vs[i] == v;
        assert SortKey(vs[i], param, ByText).value.Some?;
      }
    }
  }

  /** The key of a vacancy with a publication time, in a sort by date
      keyed by time, is that time's number. */
  lemma TimeKey(v: Vacancy)
    requires PublishedTime(v).Some?
    ensures SortKey(v, "Дата публикации вакансии", ByTime) == Ok(Some(Num(Stamp(PublishedTime(v).value) as real)))
    ensures KeyFor("Дата публикации вакансии", ByTime)(v) == Num(Stamp(PublishedTime(v).value) as real)
  {
  }

  /** Keyed by time, a sort by date puts the vacancies in order of
      publication (latest first on request), whenever every vacancy holds
      a valid publication time. */
  lemma SortByTimeOrder(vs: seq<Vacancy>, reverse: bool)
    requires forall i :: 0 <= i < |vs| ==> PublishedTime(vs[i]).Some? && ValidDateTime(PublishedTime(vs[i]).value)
    ensures var r := SortVacancies(vs, "Дата публикации вакансии", reverse, ByTime);
      && r.Ok?
      && multiset(r.value) == multiset(vs)
      && (forall i :: 0 <= i < |r.value| ==> PublishedTime(r.value[i]).Some?)
      && forall i, j :: 0 <= i < j < |r.value| ==>
          var a, b := PublishedTime(r.value[i]).value, PublishedTime(r.value[j]).value;
          if reverse then !Before(a, b) else !Before(b, a)
  {
    var param := "Дата публикации вакансии";
    var key := KeyFor(param, ByTime);
    forall i | 0 <= i < |vs| ensures SortKey(vs[i], param, ByTime).Ok? && SortKey(vs[i], param, ByTime).value.Some? {
      TimeKey(vs[i]);
    }
    assert AllKeyed(vs, param, ByTime);
    var r := SortVacancies(vs, param, reverse, ByTime);
    assert r == Ok(StableSort(vs, key, reverse));
    var sorted := r.value;
    SortVacanciesSpec(vs, param, reverse, ByTime);
    SortMembers(vs, key, reverse);
    forall v | v in sorted
      ensures PublishedTime(v).Some? && ValidDateTime(PublishedTime(v).value)
      ensures key(v) == Num(Stamp(PublishedTime(v).value) as real)
    {
      var i :| 0 <= i < |vs| && vs[i] == v;
      TimeKey(v);
    }
    forall i, j | 0 <= i < j < |sorted|
      ensures var a, b := PublishedTime(sorted[i]).value, PublishedTime(sorted[j]).value;
        if reverse then !Before(a, b) else !Before(b, a)
    {
      var a, b := PublishedTime(sorted[i]).value, PublishedTime(sorted[j]).value;
      assert Le(key(sorted[i]), key(sorted[j]), reverse);
      StampOrder(a, b);
      StampOrder(b, a);
    }
  }
  // ---------------------------------------------------------------------
  // get_vacancies and print_vacancies

  /** `dict(zip(names, map(parse_html, row)))`. */
  function ParsedRow(names: seq<string>, row: Row): (d: Dict<string, Cell>)
    ensures d.Valid()
  {
    var cells := seq(|row|, i requires 0 <= i < |row| => ParseHtml(row[i]));
    var n := if |names| < |cells| then |names| else |cells|;
    OfItems(seq(n, i requires 0 <= i < n => (names[i], cells[i])))
  }

  /** With distinct column names, the row's dict has the names the row
      reaches, in order, each mapped to its own cell after `parse_html`,
      and no other key. */
  lemma ParsedRowFields(names: seq<string>, row: Row)
    requires Distinct(names)
    ensures var n := if |names| < |row| then |names| else |row|;
      && ParsedRow(names, row).keys == names[..n]
      && forall i :: 0 <= i < n ==> ParsedRow(names, row).values[names[i]] == ParseHtml(row[i])
  {
    var cells := seq(|row|, i requires 0 <= i < |row| => ParseHtml(row[i]));
    var n := if |names| < |cells| then |names| else |cells|;
    var items := seq(n, i requires 0 <= i < n => (names[i], cells[i]));
    assert Firsts(items) == names[..n];
    OfDistinctItems(items);
    forall i | 0 <= i < n ensures OfItems(items).values[names[i]] == ParseHtml(row[i]) {
      assert items[i].0 == names[i];
    }
  }

  /** What one row gives the loop: the vacancy when the filter keeps it,
      nothing when the filter drops it, or the failure of building or
      judging it. */
  function RowOutcome(names: seq<string>, row: Row, filter: string): (r: Result<Option<Vacancy>, Failure>)
    ensures r.Ok? && r.value.Some? ==> FilterCondition(r.value.value, filter) == Ok(true)
    ensures filter == "" && r.Ok? ==> r.value.Some?
  {
    match Built(Items(ParsedRow(names, row)))
    case Err(e) => Err(e)
    case Ok(vacancy) =>
      match FilterCondition(vacancy, filter)
      case Err(e) => Err(e)
      case Ok(keep) => Ok(if keep then Some(vacancy) else None)
  }

  /** The outcome of every row. */
  function Outcomes(rows: seq<Row>, names: seq<string>, filter: string): (outs: seq<Result<Option<Vacancy>, Failure>>)
    ensures |outs| == |rows|
    ensures forall i :: 0 <= i < |rows| ==> outs[i] == RowOutcome(names, rows[i], filter)
  {
    seq(|rows|, i requires 0 <= i < |rows| => RowOutcome(names, rows[i], filter))
  }

  /** The vacancies the outcomes keep, in order; the first failure stops
      everything. */
  function Kept(outs: seq<Result<Option<Vacancy>, Failure>>): Result<seq<Vacancy>, Failure>
  {
    if |outs| == 0 then Ok([])
    else
      match Kept(outs[..|outs| - 1])
      case Err(e) => Err(e)
      case Ok(kept) =>
        match outs[|outs| - 1]
        case Err(e) => Err(e)
        case Ok(None) => Ok(kept)
        case Ok(Some(v)) => Ok(kept + [v])
  }

  /** The kept vacancies when every outcome succeeded: each comes from an
      outcome that keeps it, in order, no outcome gives more than one, and
      when every outcome keeps its vacancy there is one per outcome. */
  lemma {:induction false} KeptSpec(outs: seq<Result<Option<Vacancy>, Failure>>)
    ensures var r := Kept(outs);
      r.Ok? ==> (|r.value| <= |outs| && (forall i :: 0 <= i < |outs| ==> outs[i].Ok?)
        && (forall j :: 0 <= j < |r.value| ==> exists i :: 0 <= i < |outs| && outs[i] == Ok(Some(r.value[j])))
        && ((forall i :: 0 <= i < |outs| ==> outs[i].Ok? && outs[i].value.Some?) ==> |r.value| == |outs|))
  {
    if |outs| > 0 {
      var n := |outs| - 1;
      KeptSpec(outs[..n]);
      var r := Kept(outs);
      if r.Ok? {
        var prev := Kept(outs[..n]).value;
        forall j | 0 <= j < |r.value| ensures exists i :: 0 <= i < |outs| && outs[i] == Ok(Some(r.value[j])) {
          if j < |prev| {
            assert r.value[j] == prev[j];
            var i :| 0 <= i < n && outs[..n][i] == Ok(Some(prev[j]));
            assert outs[i] == Ok(Some(r.value[j]));
          } else {
            assert outs[n] == Ok(Some(r.value[j]));
          }
        }
      }
    }
  }

  /** One more outcome: appended to what the ones before it kept. */
  lemma KeptNext(outs: seq<Result<Option<Vacancy>, Failure>>, i: nat)
    requires i < |outs|
    ensures Kept(outs[..i + 1]) == match Kept(outs[..i])
      case Err(e) => Err(e)
      case Ok(kept) => match outs[i]
        case Err(e) => Err(e)
        case Ok(None) => Ok(kept)
        case Ok(Some(v)) => Ok(kept + [v])
  {
    assert outs[..i + 1][..i] == outs[..i];
  }

  /** Once the outcomes up to `n` fail, every longer run fails with that
      error. */
  lemma {:induction false} KeptFails(outs: seq<Result<Option<Vacancy>, Failure>>, n: nat, e: Failure)
    requires n <= |outs| && Kept(outs[..n]) == Err(e)
    ensures Kept(outs) == Err(e)
    decreases |outs| - n
  {
    if n < |outs| {
      KeptNext(outs, n);
      KeptFails(outs, n + 1, e);
    } else {
      assert outs[..n] == outs;
    }
  }

  /** Every vacancy `get_vacancies` selects passes the filter and comes from
      a row, no row gives more than one, and with no filter every row gives
      one. */
  lemma SelectedSpec(rows: seq<Row>, names: seq<string>, filter: string)
    ensures var r := Kept(Outcomes(rows, names, filter));
      r.Ok? ==> (|r.value| <= |rows| && (filter == "" ==> |r.value| == |rows|)
        && forall j :: 0 <= j < |r.value| ==> FilterCondition(r.value[j], filter) == Ok(true))
  {
    var outs := Outcomes(rows, names, filter);
    KeptSpec(outs);
    var r := Kept(outs);
    if r.Ok? {
      forall j | 0 <= j < |r.value| ensures FilterCondition(r.value[j], filter) == Ok(true) {
        var i :| 0 <= i < |outs| && outs[i] == Ok(Some(r.value[j]));
        assert RowOutcome(names, rows[i], filter) == Ok(Some(r.value[j]));
      }
      if filter == "" {
        forall i | 0 <= i < |outs| ensures outs[i].Ok? && outs[i].value.Some? {
          assert RowOutcome(names, rows[i], filter).Ok?;
        }
      }
    }
  }

  /** One pass of the loop of `get_vacancies`: the row is cleaned and made a
      vacancy, which the filter keeps or drops; a row that cannot be built
      or judged gives its error. */
  method SelectRow(names: seq<string>, row: Row, filter: string) returns (r: Result<Option<Vacancy>, Failure>)
    ensures r == RowOutcome(names, row, filter)
  {
    var parsed := ParsedRow(names, row);
    var v := NewVacancy(parsed);
    if v.Err? {
      return Err(v.error);
    }
    var keep := FilterCondition(v.value, filter);
    if keep.Err? {
      return Err(keep.error);
    }
    if keep.value {
      return Ok(Some(v.value));
    }
    return Ok(None);
  }

  /** The loop of `get_vacancies`: the rows in order, each one's vacancy kept
      when it passes the filter; the first row that fails stops the loop. */
  method SelectAll(allData: seq<Row>, names: seq<string>, filter: string)
    returns (r: Result<seq<Vacancy>, Failure>)
    ensures r == Kept(Outcomes(allData, names, filter))
  {
    ghost var outs := Outcomes(allData, names, filter);
    var data: seq<Vacancy> := [];
    var i := 0;
    while i < |allData|
      invariant 0 <= i <= |allData|
      invariant Kept(outs[..i]) == Ok(data)
    {
      var next := SelectRow(names, allData[i], filter);
      KeptNext(outs, i);
      if next.Err? {
        KeptFails(outs, i + 1, next.error);
        return Err(next.error);
      }
      if next.value.Some? {
        data := data + [next.value.value];
      }
      i := i + 1;
    }
    assert outs[..i] == outs;
    return Ok(data);
  }

  /** `get_vacancies`: each row cleaned, made a vacancy and kept when it
      passes the filter, then the kept ones sorted. */
  method GetVacancies(allData: seq<Row>, filter: string, sortParam: string, reverse: bool, names: seq<string>)
    returns (r: Result<seq<Vacancy>, Failure>)
    ensures r == match Kept(Outcomes(allData, names, filter))
      case Err(e) => Err(e)
      case Ok(data) => SortVacancies(data, sortParam, reverse, ByText)
  {
    var selected := SelectAll(allData, names, filter);
    if selected.Err? {
      return Err(selected.error);
    }
    r := SortVacancies(selected.value, sortParam, reverse, ByText);
  }

  /** Python's normalisation of a slice bound for a list of `n` items. */
  function SliceBound(i: int, n: nat): (b: nat)
    ensures b <= n
    ensures 0 <= i <= n ==> b == i
  {
    if i < 0 then (if i + n < 0 then 0 else i + n) else if i > n then n else i
  }

  /** `print_vacancies`: the `start` and `end` handed to the table. */
  function PrintRange(count: nat, distance: seq<string>): (r: Result<(int, int), Failure>)
    ensures count == 0 <==> r == Err(Quit("Ничего не найдено"))
    ensures count > 0 && |distance| == 0 ==> r == Ok((0, count))
  {
    if count == 0 then Err(Quit("Ничего не найдено"))
    else
      var start := if |distance| >= 1 then ParseInt(distance[0]) else Some(1);
      var end := if |distance| >= 2 then ParseInt(distance[1]) else Some(count + 1);
      if start.None? then Err(NotNumber(distance[0]))
      else if end.None? then Err(NotNumber(distance[1]))
      else Ok((start.value - 1, end.value - 1))
  }

  /** The row numbers the table shows for `get_string(start=..., end=...)`:
      the rows of the slice `[start:end]`, numbered from 1. */
  function ShownNumbers(count: nat, start: int, end: int): (r: seq<nat>)
    ensures forall i :: 0 <= i < |r| ==> 1 <= r[i] <= count
    ensures forall i :: 0 < i < |r| ==> r[i] == r[i - 1] + 1
  {
    var low, high := SliceBound(start, count), SliceBound(end, count);
    if low >= high then [] else seq(high - low, i requires 0 <= i < high - low => low + i + 1)
  }

  /** The range typed as "a b" shows rows a to b - 1; "a" alone shows rows a
      to the last; nothing typed shows them all. */
  lemma PrintRangeSpec(count: nat, a: nat, b: nat)
    requires count > 0 && 1 <= a <= b <= count + 1
    ensures PrintRange(count, [IntToString(a), IntToString(b)]) == Ok((a - 1, b - 1))
    ensures ShownNumbers(count, a - 1, b - 1) == seq(b - a, i requires 0 <= i < b - a => a + i)
    ensures a <= count ==> PrintRange(count, [IntToString(a)]) == Ok((a - 1, count))
    ensures ShownNumbers(count, a - 1, count) == seq(count + 1 - a, i requires 0 <= i < count + 1 - a => a + i)
    ensures PrintRange(count, []) == Ok((0, count))
  {
    IntToStringParses(a);
    IntToStringParses(b);
    var both, one := [IntToString(a), IntToString(b)], [IntToString(a)];
    assert both[0] == IntToString(a) && both[1] == IntToString(b) && one[0] == IntToString(a);
  }
}

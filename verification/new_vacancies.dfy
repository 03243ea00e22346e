/** ApiCSVNewVacancies.py, `NewVacancies.get_data`: the vacancies of one
    page of the hh.ru answer become table rows of six fields, and those
    without a salary are dropped. */
module NewVacancies {
  import opened Wrappers

  /** The `salary` object of a vacancy; `from` and `to` may be null. */
  datatype Salary = Salary(from: Option<int>, to: Option<int>, currency: string)

  /** The fields of a vacancy that the table uses; `salary` is null when the
      employer gave none. */
  datatype Vacancy = Vacancy(name: string, salary: Option<Salary>, area: string, publishedAt: string)

  /** One cell of the table: a text, or an amount that may be missing. */
  datatype Cell = Text(text: string) | Amount(amount: Option<int>)

  /** The column names the rows are written under. */
  const Columns: seq<string> := ["name", "salary_from", "salary_to", "salary_currency", "area_name", "published_at"]

  /** `if vac["salary"]`: the vacancy has a salary object. */
  predicate Paid(v: Vacancy)
  {
    v.salary.Some?
  }

  /** The row of one vacancy with a salary, a cell per column. */
  function Project(v: Vacancy): (row: seq<Cell>)
    requires Paid(v)
    ensures |row| == |Columns|
  {
    [Text(v.name), Amount(v.salary.value.from), Amount(v.salary.value.to),
     Text(v.salary.value.currency), Text(v.area), Text(v.publishedAt)]
  }

  /** `get_data`: the rows of the vacancies with a salary, in input order. */
  function GetData(vacs: seq<Vacancy>): (rows: seq<seq<Cell>>)
    ensures |rows| <= |vacs|
    ensures forall i :: 0 <= i < |rows| ==> |rows[i]| == |Columns|
  {
    if |vacs| == 0 then []
    else
      var last := vacs[|vacs| - 1];
      GetData(vacs[..|vacs| - 1]) + (if Paid(last) then [Project(last)] else [])
  }

  /** The rows of two runs of vacancies are the rows of the first followed by
      those of the second: the order of the input is kept, and the pages
      concatenated afterwards give the rows of all of them. */
  lemma {:induction false} GetDataAppend(a: seq<Vacancy>, b: seq<Vacancy>)
    ensures GetData(a + b) == GetData(a) + GetData(b)
  {
    if |b| > 0 {
      var n := |b| - 1;
      GetDataAppend(a, b[..n]);
      assert (a + b)[..|a + b| - 1] == a + b[..n];
    } else {
      assert a + b == a;
    }
  }

  /** One vacancy gives its row when it has a salary and nothing otherwise. */
  lemma GetDataOne(v: Vacancy)
    ensures GetData([v]) == if Paid(v) then [Project(v)] else []
  {
    assert [v][..0] == [];
  }

  /** A row comes out exactly for each vacancy with a salary. */
  lemma {:induction false} GetDataMembers(vacs: seq<Vacancy>)
    ensures forall row :: row in GetData(vacs) <==> exists v :: v in vacs && Paid(v) && row == Project(v)
  {
    if |vacs| > 0 {
      var n := |vacs| - 1;
      GetDataMembers(vacs[..n]);
      assert forall v :: v in vacs <==> v in vacs[..n] || v == vacs[n];
    }
  }

  /** The indices of the vacancies with a salary. */
  function PaidIndices(vacs: seq<Vacancy>): set<nat>
  {
    set i: nat | i < |vacs| && Paid(vacs[i])
  }

  /** There are as many rows as vacancies with a salary. */
  lemma {:induction false} GetDataLength(vacs: seq<Vacancy>)
    ensures |GetData(vacs)| == |PaidIndices(vacs)|
  {
    if |vacs| > 0 {
      var n := |vacs| - 1;
      GetDataLength(vacs[..n]);
      if Paid(vacs[n]) {
        assert PaidIndices(vacs) == PaidIndices(vacs[..n]) + {n};
      } else {
        assert PaidIndices(vacs) == PaidIndices(vacs[..n]);
      }
    } else {
      assert PaidIndices(vacs) == {};
    }
  }

  /** When every vacancy has a salary, the rows are their projections one
      for one, in order. */
  lemma {:induction false} GetDataAllPaid(vacs: seq<Vacancy>)
    requires forall i :: 0 <= i < |vacs| ==> Paid(vacs[i])
    ensures |GetData(vacs)| == |vacs|
    ensures forall i :: 0 <= i < |vacs| ==> GetData(vacs)[i] == Project(vacs[i])
  {
    if |vacs| > 0 {
      GetDataAllPaid(vacs[..|vacs| - 1]);
    }
  }
}

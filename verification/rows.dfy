/** CSV rows after `csv.reader`: the row filter that several scripts share
    and `dict(zip(header, row))`. */
module Rows {
  import opened Dicts

  type Row = seq<string>

  /** The row has one field per header and no empty field:
      `len(row) == len(header) and row.count('') == 0`. */
  predicate WellFormed(row: Row, arity: nat)
  {
    |row| == arity && "" !in row
  }

  /** The rows that pass `WellFormed`, in their input order. */
  function KeepRows(rows: seq<Row>, arity: nat): (kept: seq<Row>)
    ensures |kept| <= |rows|
    ensures forall r :: r in kept ==> WellFormed(r, arity) && r in rows
    ensures forall i :: 0 <= i < |kept| ==> WellFormed(kept[i], arity)
  {
    if |rows| == 0 then []
    else KeepRows(rows[..|rows| - 1], arity) + (if WellFormed(rows[|rows| - 1], arity) then [rows[|rows| - 1]] else [])
  }

  /** Filtering keeps exactly the well-formed rows: every well-formed input
      row survives, and filtering twice changes nothing. */
  lemma {:induction false} KeepRowsExact(rows: seq<Row>, arity: nat)
    ensures forall r :: r in rows && WellFormed(r, arity) ==> r in KeepRows(rows, arity)
    ensures KeepRows(KeepRows(rows, arity), arity) == KeepRows(rows, arity)
  {
    if |rows| > 0 {
      var front := rows[..|rows| - 1];
      KeepRowsExact(front, arity);
      assert forall r :: r in rows ==> r in front || r == rows[|rows| - 1];
      KeepRowsAppend(KeepRows(front, arity), arity, rows[|rows| - 1]);
    }
  }

  lemma {:induction false} KeepRowsAppend(rows: seq<Row>, arity: nat, row: Row)
    requires KeepRows(rows, arity) == rows
    ensures KeepRows(rows + (if WellFormed(row, arity) then [row] else []), arity)
      == rows + (if WellFormed(row, arity) then [row] else [])
  {
    if WellFormed(row, arity) {
      var longer := rows + [row];
      assert longer[..|longer| - 1] == rows;
      assert longer[|longer| - 1] == row;
    } else {
      assert rows + [] == rows;
    }
  }

  /** `zip(header, row)`: pairs up to the shorter of the two. */
  function Zip(header: seq<string>, row: Row): (pairs: seq<(string, string)>)
    ensures |pairs| == if |header| < |row| then |header| else |row|
    ensures forall i :: 0 <= i < |pairs| ==> pairs[i] == (header[i], row[i])
  {
    if |header| == 0 || |row| == 0 then [] else [(header[0], row[0])] + Zip(header[1..], row[1..])
  }

  /** `dict(zip(header, row))`. */
  function RowDict(header: seq<string>, row: Row): Dict<string, string>
  {
    OfItems(Zip(header, row))
  }

  /** With distinct headers, a row of the header's arity becomes a dict whose
      keys are the headers in order, each mapped to its own field. */
  lemma RowDictFields(header: seq<string>, row: Row)
    requires Distinct(header) && |row| == |header|
    ensures RowDict(header, row).keys == header
    ensures forall i :: 0 <= i < |header| ==> RowDict(header, row).values[header[i]] == row[i]
  {
    var pairs := Zip(header, row);
    assert Firsts(pairs) == header;
    OfDistinctItems(pairs);
  }
}

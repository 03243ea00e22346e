/** csv_spliter.py: the rows of one CSV file are sorted into buckets by the
    first four characters of their `published_at` field, one bucket per
    year, before each bucket is written to a file of its own. */
module CsvSplitter {
  import opened Wrappers
  import opened Dicts
  import opened Rows
  import opened Timestamp

  /** A data row as `dict(zip(header, row))`. */
  type Record = Dict<string, string>

  /** Why the split stops: the file has no line at all ('Пустой файл'), or
      the record at this index has no `published_at` key (the `KeyError`
      of a missing column or of a row too short to reach it). */
  datatype SplitError = EmptyFile | MissingDate(index: nat)

  /** The data rows after the header, each zipped with the header. */
  function Records(data: seq<Row>): (recs: seq<Record>)
    requires |data| > 0
    ensures |recs| == |data| - 1
    ensures forall i :: 0 <= i < |recs| ==> recs[i] == RowDict(data[0], data[i + 1])
  {
    seq(|data| - 1, i requires 0 <= i < |data| - 1 => RowDict(data[0], data[i + 1]))
  }

  predicate HasDate(rec: Record)
  {
    "published_at" in rec.values
  }

  /** The year of a record that has a date: `published_at[:4]`. */
  function Year(rec: Record): string
    requires HasDate(rec)
  {
    YearText(rec.values["published_at"])
  }

  /** Each record paired with its year. */
  function YearPairs(recs: seq<Record>): (pairs: seq<(string, Record)>)
    requires forall i :: 0 <= i < |recs| ==> HasDate(recs[i])
    ensures |pairs| == |recs|
    ensures forall i :: 0 <= i < |recs| ==> pairs[i] == (Year(recs[i]), recs[i])
  {
    seq(|recs|, i requires 0 <= i < |recs| => (Year(recs[i]), recs[i]))
  }

  /** The invariant of the bucketing loop after `i` records. */
  ghost predicate BucketedUpTo(recs: seq<Record>, i: nat, buckets: Dict<string, seq<Record>>)
    requires i <= |recs|
  {
    (forall j :: 0 <= j < i ==> HasDate(recs[j])) &&
    buckets == Grouped(YearPairs(recs[..i]))
  }

  /** Putting an empty list and then appending to it, or appending to the
      list already there, is one `Append`. */
  lemma BucketStep(recs: seq<Record>, i: nat, buckets: Dict<string, seq<Record>>)
    requires i < |recs| && BucketedUpTo(recs, i, buckets) && HasDate(recs[i])
    ensures buckets.Valid()
    ensures var year := Year(recs[i]);
      var b := if year in buckets.values then buckets else Put(buckets, year, []);
      BucketedUpTo(recs, i + 1, Put(b, year, b.values[year] + [recs[i]]))
  {
    var year, rec := Year(recs[i]), recs[i];
    var pairs := YearPairs(recs[..i]);
    assert YearPairs(recs[..i + 1]) == pairs + [(year, rec)];
    GroupIntoSnoc(Empty(), pairs, year, rec);
    var b := if year in buckets.values then buckets else Put(buckets, year, []);
    var list := GetOr(buckets, year, []) + [rec];
    assert Append(buckets, year, rec) == Put(buckets, year, list);
    if year in buckets.values {
      assert b.values[year] + [rec] == list;
    } else {
      PutPut(buckets, year, [], [rec]);
      assert b.values[year] + [rec] == [rec] == list;
    }
    assert forall j :: 0 <= j < i + 1 ==> HasDate(recs[j]);
  }

  /** The loop of `csv_spliter`: the records are bucketed by year in input
      order; an empty file or a record without a date stops it. */
  method Split(data: seq<Row>) returns (r: Result<Dict<string, seq<Record>>, SplitError>)
    ensures |data| == 0 <==> r == Err(EmptyFile)
    ensures r.Ok? ==> (|data| > 0 && (forall i :: 0 <= i < |data| - 1 ==> HasDate(Records(data)[i])) &&
      r.value == Grouped(YearPairs(Records(data))))
    ensures r.Err? && r.error.MissingDate? ==> (|data| > 0 && r.error.index < |data| - 1 &&
      !HasDate(Records(data)[r.error.index]) &&
      forall j :: 0 <= j < r.error.index ==> HasDate(Records(data)[j]))
  {
    if |data| == 0 {
      return Err(EmptyFile);
    }
    var recs := Records(data);
    var buckets: Dict<string, seq<Record>> := Empty();
    var i := 0;
    assert recs[..0] == [];
    while i < |recs|
      invariant 0 <= i <= |recs|
      invariant BucketedUpTo(recs, i, buckets)
    {
      var rec := recs[i];
      if "published_at" !in rec.values {
        return Err(MissingDate(i));
      }
      BucketStep(recs, i, buckets);
      var year := YearText(rec.values["published_at"]);
      if year !in buckets.values {
        buckets := Put(buckets, year, []);
        buckets := Put(buckets, year, buckets.values[year] + [rec]);
      } else {
        buckets := Put(buckets, year, buckets.values[year] + [rec]);
      }
      i := i + 1;
    }
    assert recs[..i] == recs;
    return Ok(buckets);
  }

  /** The buckets are named by the years of the records, in order of first
      appearance. */
  lemma SplitYears(recs: seq<Record>)
    requires forall i :: 0 <= i < |recs| ==> HasDate(recs[i])
    ensures Grouped(YearPairs(recs)).keys == FirstOccurrences(Firsts(YearPairs(recs)))
    ensures forall y :: y in Grouped(YearPairs(recs)).values <==> exists i :: 0 <= i < |recs| && Year(recs[i]) == y
  {
    var pairs := YearPairs(recs);
    GroupedIsValuesOf(pairs);
    assert forall y :: y in Grouped(pairs).values <==> y in Firsts(pairs);
    forall y ensures y in Firsts(pairs) <==> exists i :: 0 <= i < |recs| && Year(recs[i]) == y {
      if y in Firsts(pairs) {
        var i :| 0 <= i < |pairs| && Firsts(pairs)[i] == y;
        assert Year(recs[i]) == y;
      }
      if exists i :: 0 <= i < |recs| && Year(recs[i]) == y {
        var i :| 0 <= i < |recs| && Year(recs[i]) == y;
        assert Firsts(pairs)[i] == y;
      }
    }
  }

  /** The records paired with a year are those of that year. */
  lemma {:induction false} YearValues(recs: seq<Record>, y: string)
    requires forall i :: 0 <= i < |recs| ==> HasDate(recs[i])
    ensures forall rec :: rec in ValuesOf(YearPairs(recs), y) <==> rec in recs && Year(rec) == y
  {
    if |recs| > 0 {
      var n := |recs| - 1;
      YearValues(recs[..n], y);
      assert YearPairs(recs)[..n] == YearPairs(recs[..n]);
      assert forall rec :: rec in recs <==> rec in recs[..n] || rec == recs[n];
    }
  }

  /** Under each year are exactly the records of that year, in input order,
      never none: a record lands in the bucket of its own year and in no
      other. */
  lemma SplitBucketContents(recs: seq<Record>)
    requires forall i :: 0 <= i < |recs| ==> HasDate(recs[i])
    ensures var buckets := Grouped(YearPairs(recs));
      forall y :: y in buckets.values ==>
        (|buckets.values[y]| > 0 && buckets.values[y] == ValuesOf(YearPairs(recs), y) &&
         forall rec :: rec in buckets.values[y] <==> rec in recs && Year(rec) == y)
  {
    GroupedIsValuesOf(YearPairs(recs));
    forall y ensures forall rec :: rec in ValuesOf(YearPairs(recs), y) <==> rec in recs && Year(rec) == y {
      YearValues(recs, y);
    }
  }

  /** The bucket sizes add up to the number of records. */
  lemma SplitTotal(recs: seq<Record>)
    requires forall i :: 0 <= i < |recs| ==> HasDate(recs[i])
    ensures SumValues(Sizes(Grouped(YearPairs(recs)))) == |recs|
  {
    GroupedSizes(YearPairs(recs));
  }
}

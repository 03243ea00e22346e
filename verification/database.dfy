/** 3.5.3/data_base_3.5.3.py, the part done in Python: the per-area rows
    of the salary query (area, rounded mean salary, number of rows) keep
    the areas with at least one percent of all rows, and
    `get_sorted_for_area_dict` ranks them by salary and keeps ten. */
module Database {
  import opened Dicts
  import opened Analysis

  /** One row of `select area_name, round(avg(salary)), count(area_name)
      ... group by area_name`. */
  datatype AreaGroup = AreaGroup(area: string, salary: int, count: nat)

  function Areas(groups: seq<AreaGroup>): (r: seq<string>)
    ensures |r| == |groups| && forall i :: 0 <= i < |groups| ==> r[i] == groups[i].area
  {
    seq(|groups|, i requires 0 <= i < |groups| => groups[i].area)
  }

  /** `groups[groups["count(area_name)"] >= 0.01 * len_database]`: the rows
      of the areas with at least one percent of all rows, in order. */
  function Frequent(groups: seq<AreaGroup>, total: nat): (r: seq<AreaGroup>)
    ensures forall g :: g in r <==> g in groups && Reaches(g.count, total, false)
    ensures Distinct(Areas(groups)) ==> Distinct(Areas(r))
  {
    if |groups| == 0 then []
    else
      var front, last := groups[..|groups| - 1], groups[|groups| - 1];
      assert forall g :: g in groups <==> g in front || g == last;
      assert Areas(front) == Areas(groups)[..|groups| - 1];
      Frequent(front, total) + (if Reaches(last.count, total, false) then [last] else [])
  }

  /** The (area, salary) pairs of some rows. */
  function SalaryPairs(groups: seq<AreaGroup>): (r: seq<(string, int)>)
    ensures Firsts(r) == Areas(groups)
    ensures forall i :: 0 <= i < |groups| ==> r[i] == (groups[i].area, groups[i].salary)
  {
    seq(|groups|, i requires 0 <= i < |groups| => (groups[i].area, groups[i].salary))
  }

  /** `dict_for_area_salary`: the frequent areas ranked by salary, ten at
      most. */
  function AreaSalaries(groups: seq<AreaGroup>, total: nat): (r: Dict<string, int>)
    ensures r.Valid()
  {
    TopByValue(OfItems(SalaryPairs(Frequent(groups, total))))
  }

  /** The areas of the frequent rows are those of the rows that reach one
      percent. */
  lemma FrequentAreas(groups: seq<AreaGroup>, total: nat)
    ensures forall c :: c in Areas(Frequent(groups, total)) <==> exists g :: g in groups && g.area == c && Reaches(g.count, total, false)
  {
    var f := Frequent(groups, total);
    forall c | c in Areas(f) ensures exists g :: g in groups && g.area == c && Reaches(g.count, total, false) {
      var i :| 0 <= i < |f| && Areas(f)[i] == c;
      assert f[i] in f;
    }
    forall g | g in groups && Reaches(g.count, total, false) ensures g.area in Areas(f) {
      var i :| 0 <= i < |f| && f[i] == g;
      assert Areas(f)[i] == g.area;
    }
  }

  /** The dict built from the frequent rows holds exactly their areas. */
  lemma FrequentDictKeys(groups: seq<AreaGroup>, total: nat)
    requires Distinct(Areas(groups))
    ensures var d := OfItems(SalaryPairs(Frequent(groups, total)));
      forall c :: c in d.values <==> exists g :: g in groups && g.area == c && Reaches(g.count, total, false)
  {
    var pairs := SalaryPairs(Frequent(groups, total));
    OfDistinctItems(pairs);
    FrequentAreas(groups, total);
  }

  /** Each frequent row's area maps to that row's salary. */
  lemma FrequentDictValues(groups: seq<AreaGroup>, total: nat)
    requires Distinct(Areas(groups))
    ensures var d := OfItems(SalaryPairs(Frequent(groups, total)));
      forall g :: g in groups && Reaches(g.count, total, false) ==> g.area in d.values && d.values[g.area] == g.salary
  {
    var f := Frequent(groups, total);
    var pairs := SalaryPairs(f);
    OfDistinctItems(pairs);
    var d := OfItems(pairs);
    forall g | g in groups && Reaches(g.count, total, false) ensures g.area in d.values && d.values[g.area] == g.salary {
      var i :| 0 <= i < |f| && f[i] == g;
      assert pairs[i] == (g.area, g.salary);
    }
  }

  /** Only areas with at least one percent of the rows are ranked, each with
      its own salary; there are ten at most, in non-increasing order of
      salary, and a frequent area left out earns no more than any kept
      one. */
  lemma AreaSalariesSpec(groups: seq<AreaGroup>, total: nat)
    requires Distinct(Areas(groups))
    ensures var r := AreaSalaries(groups, total);
      forall c :: c in r.values ==> exists g :: g in groups && g.area == c && g.salary == r.values[c] && Reaches(g.count, total, false)
    ensures |AreaSalaries(groups, total).keys| <= 10
    ensures var r := AreaSalaries(groups, total);
      forall i, j :: 0 <= i < j < |r.keys| ==> r.values[r.keys[i]] >= r.values[r.keys[j]]
    ensures var r := AreaSalaries(groups, total);
      forall g :: g in groups && Reaches(g.count, total, false) && g.area !in r.values ==>
        |r.keys| == 10 && forall i :: 0 <= i < |r.keys| ==> g.salary <= r.values[r.keys[i]]
  {
    var d := OfItems(SalaryPairs(Frequent(groups, total)));
    FrequentDictKeys(groups, total);
    FrequentDictValues(groups, total);
    TopByValueSize(d);
    TopByValueKept(d);
    TopByValueOrder(d);
    TopByValueLeftOut(d);
    var r := AreaSalaries(groups, total);
    forall c | c in r.values
      ensures exists g :: g in groups && g.area == c && g.salary == r.values[c] && Reaches(g.count, total, false)
    {
      var g :| g in groups && g.area == c && Reaches(g.count, total, false);
      assert d.values[g.area] == g.salary;
    }
  }
}

/** Python's insertion-ordered `dict`, and the two ways the scripts fill one:
    counting occurrences and collecting values per key. */
module Dicts {
  import opened Wrappers

  /** A dict: its keys in insertion order and the value of each key. */
  datatype Dict<K(==, !new), V> = Dict(keys: seq<K>, values: map<K, V>)
  {
    /** Keys are distinct and are exactly the mapped ones. */
    ghost predicate Valid()
    {
      Distinct(keys) && forall k :: k in values <==> k in keys
    }
  }

  /** A dict that keeps its invariant, for fields that hold one. */
  type ValidDict<K(==, !new), V> = d: Dict<K, V> | d.Valid() witness Dict([], map[])

  predicate Distinct<T(==, !new)>(s: seq<T>)
  {
    forall i, j :: 0 <= i < j < |s| ==> s[i] != s[j]
  }

  function Empty<K(==, !new), V>(): (d: Dict<K, V>)
    ensures d.Valid() && |d.keys| == 0
  {
    Dict([], map[])
  }

  /** `d[k] = v`: an existing key keeps its position, a new key goes last. */
  function Put<K(==, !new), V>(d: Dict<K, V>, k: K, v: V): (r: Dict<K, V>)
    requires d.Valid()
    ensures r.Valid()
    ensures r.values == d.values[k := v]
    ensures k in d.values ==> r.keys == d.keys
    ensures k !in d.values ==> r.keys == d.keys + [k]
  {
    if k in d.values then Dict(d.keys, d.values[k := v]) else Dict(d.keys + [k], d.values[k := v])
  }

  /** Putting a key twice leaves the second value. */
  lemma PutPut<K(!new), V>(d: Dict<K, V>, k: K, v: V, w: V)
    requires d.Valid()
    ensures Put(Put(d, k, v), k, w) == Put(d, k, w)
  {
    assert d.values[k := v][k := w] == d.values[k := w];
  }

  /** `d.get(k, default)`. */
  function GetOr<K(==, !new), V>(d: Dict<K, V>, k: K, default: V): V
  {
    if k in d.values then d.values[k] else default
  }

  /** `d.items()` in insertion order. */
  function Items<K(==, !new), V>(d: Dict<K, V>): (items: seq<(K, V)>)
    requires d.Valid()
    ensures |items| == |d.keys|
    ensures forall i :: 0 <= i < |items| ==> items[i] == (d.keys[i], d.values[d.keys[i]])
  {
    seq(|d.keys|, i requires 0 <= i < |d.keys| => (d.keys[i], d.values[d.keys[i]]))
  }

  function Firsts<K(==, !new), V>(items: seq<(K, V)>): (ks: seq<K>)
    ensures |ks| == |items|
    ensures forall i :: 0 <= i < |items| ==> ks[i] == items[i].0
  {
    seq(|items|, i requires 0 <= i < |items| => items[i].0)
  }

  /** `dict(items)`: a later pair overwrites the value of an earlier one with
      the same key but not its position. */
  function OfItems<K(==, !new), V>(items: seq<(K, V)>): (d: Dict<K, V>)
    ensures d.Valid()
  {
    if |items| == 0 then Empty()
    else
      var last := items[|items| - 1];
      Put(OfItems(items[..|items| - 1]), last.0, last.1)
  }

  /** Pairs with distinct keys become a dict with exactly those keys, in
      that order, each with its own value. */
  lemma {:induction false} OfDistinctItems<K(!new), V>(items: seq<(K, V)>)
    requires Distinct(Firsts(items))
    ensures OfItems(items).keys == Firsts(items)
    ensures forall i :: 0 <= i < |items| ==> OfItems(items).values[items[i].0] == items[i].1
  {
    if |items| > 0 {
      var n := |items| - 1;
      var front := items[..n];
      assert Firsts(front) == Firsts(items)[..n];
      OfDistinctItems(front);
      assert items[n].0 !in Firsts(front);
      assert Firsts(items) == Firsts(front) + [items[n].0];
    }
  }

  /** The items of a dict built from pairs with distinct keys are those
      pairs. */
  lemma ItemsOfDistinct<K(!new), V>(items: seq<(K, V)>)
    requires Distinct(Firsts(items))
    ensures Items(OfItems(items)) == items
  {
    OfDistinctItems(items);
  }

  /** A pair is an item of a dict exactly when it maps its key to its
      value. */
  lemma ItemsMembers<K(!new), V>(d: Dict<K, V>)
    requires d.Valid()
    ensures forall p :: p in Items(d) <==> p.0 in d.values && p.1 == d.values[p.0]
  {
    forall p: (K, V) | p.0 in d.values && p.1 == d.values[p.0] ensures p in Items(d) {
      var i :| 0 <= i < |d.keys| && d.keys[i] == p.0;
      assert Items(d)[i] == p;
    }
  }

  /** Adding one more pair to `dict(items)` is one more `Put`. */
  lemma OfItemsSnoc<K(!new), V>(items: seq<(K, V)>, k: K, v: V)
    ensures OfItems(items + [(k, v)]) == Put(OfItems(items), k, v)
  {
    assert (items + [(k, v)])[..|items|] == items;
  }

  /** `dict(d.items())` is `d`. */
  lemma OfItemsOfDict<K(!new), V>(d: Dict<K, V>)
    requires d.Valid()
    ensures OfItems(Items(d)) == d
  {
    var items := Items(d);
    assert Firsts(items) == d.keys;
    OfDistinctItems(items);
    var r := OfItems(items);
    forall k | k in r.values ensures k in d.values && r.values[k] == d.values[k] {
      var i :| 0 <= i < |d.keys| && d.keys[i] == k;
      assert items[i].0 == k;
    }
    assert r.values == d.values;
  }

  /** `d.update(e)`: the pairs of `e` put into `d` in order. */
  function Update<K(==, !new), V>(d: Dict<K, V>, e: Dict<K, V>): (r: Dict<K, V>)
    requires d.Valid() && e.Valid()
    ensures r.Valid()
  {
    OfItems(Items(d) + Items(e))
  }

  /** The mapping `dict(items)` ends with, without the key order. */
  function MapOf<K(==, !new), V>(items: seq<(K, V)>): map<K, V>
  {
    if |items| == 0 then map[]
    else MapOf(items[..|items| - 1])[items[|items| - 1].0 := items[|items| - 1].1]
  }

  lemma {:induction false} OfItemsMap<K(!new), V>(items: seq<(K, V)>)
    ensures OfItems(items).values == MapOf(items)
  {
    if |items| > 0 {
      OfItemsMap(items[..|items| - 1]);
    }
  }

  lemma {:induction false} MapOfAppend<K(!new), V>(a: seq<(K, V)>, b: seq<(K, V)>)
    ensures MapOf(a + b) == MapOf(a) + MapOf(b)
  {
    if |b| == 0 {
      assert a + b == a;
    } else {
      var front, last := b[..|b| - 1], b[|b| - 1];
      MapOfAppend(a, front);
      assert (a + b)[..|a + b| - 1] == a + front;
      assert (MapOf(a) + MapOf(front))[last.0 := last.1] == MapOf(a) + MapOf(front)[last.0 := last.1];
    }
  }

  /** After `d.update(e)` a key has its value in `e` when `e` has it and its
      value in `d` otherwise. */
  lemma UpdateValues<K(!new), V>(d: Dict<K, V>, e: Dict<K, V>)
    requires d.Valid() && e.Valid()
    ensures Update(d, e).values == d.values + e.values
  {
    OfItemsMap(Items(d) + Items(e));
    MapOfAppend(Items(d), Items(e));
    OfItemsMap(Items(d));
    OfItemsMap(Items(e));
    OfItemsOfDict(d);
    OfItemsOfDict(e);
  }

  /** `dict(ChainMap(*maps))`: the keys of all the maps, each with its value
      in the first map that has it. The keys of the last map come first,
      then the new keys of the one before, and so on. */
  function ChainMap<K(==, !new), V>(maps: seq<Dict<K, V>>): (r: Dict<K, V>)
    requires forall i :: 0 <= i < |maps| ==> maps[i].Valid()
    ensures r.Valid()
  {
    if |maps| == 0 then Empty() else Update(ChainMap(maps[1..]), maps[0])
  }

  /** A key of the chain is a key of some map. */
  lemma {:induction false} ChainMapKeys<K(!new), V>(maps: seq<Dict<K, V>>, k: K)
    requires forall i :: 0 <= i < |maps| ==> maps[i].Valid()
    ensures k in ChainMap(maps).values <==> exists i :: 0 <= i < |maps| && k in maps[i].values
  {
    if |maps| > 0 {
      var rest := maps[1..];
      ChainMapKeys(rest, k);
      UpdateValues(ChainMap(rest), maps[0]);
      if exists i :: 0 <= i < |maps| && k in maps[i].values {
        var i :| 0 <= i < |maps| && k in maps[i].values;
        if i > 0 {
          assert k in rest[i - 1].values;
        }
      }
      if k in ChainMap(rest).values {
        var i :| 0 <= i < |rest| && k in rest[i].values;
        assert k in maps[i + 1].values;
      }
    }
  }

  /** The value of a key in the chain is its value in the first map that
      has it. */
  lemma {:induction false} ChainMapFirst<K(!new), V>(maps: seq<Dict<K, V>>, k: K, i: nat)
    requires forall j :: 0 <= j < |maps| ==> maps[j].Valid()
    requires i < |maps| && k in maps[i].values && forall j :: 0 <= j < i ==> k !in maps[j].values
    ensures k in ChainMap(maps).values && ChainMap(maps).values[k] == maps[i].values[k]
  {
    var rest := maps[1..];
    UpdateValues(ChainMap(rest), maps[0]);
    if i > 0 {
      assert k !in maps[0].values;
      forall j | 0 <= j < i - 1 ensures k !in rest[j].values {
        assert rest[j] == maps[j + 1];
      }
      ChainMapFirst(rest, k, i - 1);
    }
  }

  /** Updating with a dict of one key puts that key. */
  lemma UpdateOne<K(!new), V>(d: Dict<K, V>, k: K, v: V)
    requires d.Valid()
    ensures Dict([k], map[k := v]).Valid()
    ensures Update(d, Dict([k], map[k := v])) == Put(d, k, v)
  {
    assert Items(Dict([k], map[k := v])) == [(k, v)];
    OfItemsSnoc(Items(d), k, v);
    OfItemsOfDict(d);
  }

  /** The number of times `x` occurs in `s`. */
  function Occurrences<T(==, !new)>(s: seq<T>, x: T): nat
  {
    if |s| == 0 then 0
    else Occurrences(s[..|s| - 1], x) + (if s[|s| - 1] == x then 1 else 0)
  }

  /** The keys of `s` in order of first occurrence. */
  function FirstOccurrences<T(==, !new)>(s: seq<T>): (r: seq<T>)
    ensures Distinct(r)
    ensures forall x :: x in r <==> x in s
  {
    if |s| == 0 then []
    else
      var front := FirstOccurrences(s[..|s| - 1]);
      var x := s[|s| - 1];
      assert forall y :: y in s <==> y in s[..|s| - 1] || y == x;
      if x in front then front else front + [x]
  }

  /** `d[x] = d.get(x, 0) + 1`: one more for `x`. */
  function Bump<T(==, !new)>(d: Dict<T, nat>, x: T): (r: Dict<T, nat>)
    requires d.Valid()
    ensures r.Valid()
    ensures x in r.values && r.values[x] == (if x in d.values then d.values[x] + 1 else 1)
    ensures forall y :: y != x ==> (y in r.values <==> y in d.values)
    ensures forall y :: y != x && y in d.values ==> r.values[y] == d.values[y]
    ensures r.keys == if x in d.values then d.keys else d.keys + [x]
  {
    Put(d, x, GetOr(d, x, 0) + 1)
  }

  /** `if x not in d: d[x] = 0` followed by `d[x] += 1` is one increment. */
  lemma PutZeroThenAdd<T(!new)>(d: Dict<T, nat>, x: T)
    requires d.Valid()
    ensures var e := if x in d.values then d else Put(d, x, 0);
      Put(e, x, e.values[x] + 1) == Bump(d, x)
  {
    if x !in d.values {
      PutPut(d, x, 0, 1);
    }
  }

  /** The dict that `for x in s: d[x] = d.get(x, 0) + 1` leaves in `d`
      (the counting of `CountDict.add` and its copies). */
  function CountInto<T(==, !new)>(d: Dict<T, nat>, s: seq<T>): (r: Dict<T, nat>)
    requires d.Valid()
    ensures r.Valid()
  {
    if |s| == 0 then d
    else
      Bump(CountInto(d, s[..|s| - 1]), s[|s| - 1])
  }

  /** One more element is one more increment. */
  lemma CountIntoSnoc<T(!new)>(d: Dict<T, nat>, s: seq<T>, x: T)
    requires d.Valid()
    ensures CountInto(d, s + [x]) == Bump(CountInto(d, s), x)
  {
    assert (s + [x])[..|s|] == s;
  }

  /** Counting into an empty dict. */
  function Counted<T(==, !new)>(s: seq<T>): Dict<T, nat>
  {
    CountInto(Empty(), s)
  }

  /** Counting gives each value seen its number of occurrences, with keys in
      order of first occurrence. */
  lemma {:induction false} CountedIsOccurrences<T(!new)>(s: seq<T>)
    ensures Counted(s).keys == FirstOccurrences(s)
    ensures forall x :: x in Counted(s).values ==> Counted(s).values[x] == Occurrences(s, x) > 0
  {
    if |s| > 0 {
      var front := s[..|s| - 1];
      var x := s[|s| - 1];
      CountedIsOccurrences(front);
      if x !in Counted(front).values {
        assert x !in FirstOccurrences(front);
        OccurrencesAbsent(front, x);
      }
    }
  }

  lemma {:induction false} OccurrencesAbsent<T(!new)>(s: seq<T>, x: T)
    requires x !in s
    ensures Occurrences(s, x) == 0
  {
    if |s| > 0 {
      OccurrencesAbsent(s[..|s| - 1], x);
    }
  }

  /** The values paired with key `k`, in order. */
  function ValuesOf<K(==, !new), V>(pairs: seq<(K, V)>, k: K): seq<V>
  {
    if |pairs| == 0 then []
    else ValuesOf(pairs[..|pairs| - 1], k) + (if pairs[|pairs| - 1].0 == k then [pairs[|pairs| - 1].1] else [])
  }

  /** `d.setdefault(k, []).append(v)`: `v` goes at the end of the list of
      `k`, which starts empty. */
  function Append<K(==, !new), V>(d: Dict<K, seq<V>>, k: K, v: V): (r: Dict<K, seq<V>>)
    requires d.Valid()
    ensures r.Valid()
    ensures k in r.values && r.values[k] == (if k in d.values then d.values[k] else []) + [v]
    ensures forall y :: y != k ==> (y in r.values <==> y in d.values)
    ensures forall y :: y != k && y in d.values ==> r.values[y] == d.values[y]
    ensures r.keys == if k in d.values then d.keys else d.keys + [k]
  {
    Put(d, k, GetOr(d, k, []) + [v])
  }

  /** The dict of lists that `for k, v in pairs: d.setdefault(k, []).append(v)`
      leaves in `d` (`SalaryDict.add`, the year buckets). */
  function GroupInto<K(==, !new), V>(d: Dict<K, seq<V>>, pairs: seq<(K, V)>): (r: Dict<K, seq<V>>)
    requires d.Valid()
    ensures r.Valid()
  {
    if |pairs| == 0 then d
    else
      Append(GroupInto(d, pairs[..|pairs| - 1]), pairs[|pairs| - 1].0, pairs[|pairs| - 1].1)
  }

  /** One more pair is one more append. */
  lemma GroupIntoSnoc<K(!new), V>(d: Dict<K, seq<V>>, pairs: seq<(K, V)>, k: K, v: V)
    requires d.Valid()
    ensures GroupInto(d, pairs + [(k, v)]) == Append(GroupInto(d, pairs), k, v)
  {
    assert (pairs + [(k, v)])[..|pairs|] == pairs;
  }

  /** Grouping into an empty dict. */
  function Grouped<K(==, !new), V>(pairs: seq<(K, V)>): Dict<K, seq<V>>
  {
    GroupInto(Empty(), pairs)
  }

  /** Grouping gives each key exactly its values in input order, never an
      empty list, with keys in order of first occurrence. */
  lemma {:induction false} GroupedIsValuesOf<K(!new), V>(pairs: seq<(K, V)>)
    ensures Grouped(pairs).keys == FirstOccurrences(Firsts(pairs))
    ensures forall k :: k in Grouped(pairs).values ==>
      Grouped(pairs).values[k] == ValuesOf(pairs, k) && |ValuesOf(pairs, k)| > 0
  {
    if |pairs| > 0 {
      var n := |pairs| - 1;
      var front, last := pairs[..n], pairs[n];
      assert Firsts(front) == Firsts(pairs)[..n];
      GroupedIsValuesOf(front);
      var g := Grouped(front);
      assert Grouped(pairs) == Append(g, last.0, last.1);
      forall k | k in Grouped(pairs).values
        ensures Grouped(pairs).values[k] == ValuesOf(pairs, k) && |ValuesOf(pairs, k)| > 0
      {
        assert ValuesOf(pairs, k) == ValuesOf(front, k) + (if k == last.0 then [last.1] else []);
        if k !in g.values {
          ValuesOfAbsent(front, k);
        }
      }
    }
  }

  lemma {:induction false} ValuesOfAbsent<K(!new), V>(pairs: seq<(K, V)>, k: K)
    requires k !in Grouped(pairs).values
    ensures ValuesOf(pairs, k) == []
  {
    if |pairs| > 0 {
      ValuesOfAbsent(pairs[..|pairs| - 1], k);
    }
  }

  /** The list of `k` is as long as `k` occurs among the keys. */
  lemma {:induction false} ValuesOfLength<K(!new), V>(pairs: seq<(K, V)>, k: K)
    ensures |ValuesOf(pairs, k)| == Occurrences(Firsts(pairs), k)
  {
    if |pairs| > 0 {
      var n := |pairs| - 1;
      assert Firsts(pairs[..n]) == Firsts(pairs)[..n];
      ValuesOfLength(pairs[..n], k);
    }
  }

  /** The length of each list of a dict of lists, keys in the same order. */
  function Sizes<K(==, !new), V>(d: Dict<K, seq<V>>): (r: Dict<K, nat>)
    requires d.Valid()
    ensures r.Valid() && r.keys == d.keys
    ensures forall k :: k in d.values ==> k in r.values && r.values[k] == |d.values[k]|
  {
    Dict(d.keys, map k | k in d.values :: |d.values[k]|)
  }

  /** The lists of a grouping hold every pair once: their lengths are the
      counts of the keys, and they add up to the number of pairs. */
  lemma GroupedSizes<K(!new), V>(pairs: seq<(K, V)>)
    ensures Sizes(Grouped(pairs)) == Counted(Firsts(pairs))
    ensures SumValues(Sizes(Grouped(pairs))) == |pairs|
  {
    SizesAreCounts(pairs);
    CountIntoSum(Empty(), Firsts(pairs));
  }

  lemma SizesAreCounts<K(!new), V>(pairs: seq<(K, V)>)
    ensures Sizes(Grouped(pairs)) == Counted(Firsts(pairs))
  {
    var g, c := Grouped(pairs), Counted(Firsts(pairs));
    var sizes := Sizes(g);
    GroupedIsValuesOf(pairs);
    CountedIsOccurrences(Firsts(pairs));
    assert sizes.keys == c.keys;
    forall k ensures k in sizes.values <==> k in c.values {
      assert k in sizes.values <==> k in sizes.keys;
      assert k in c.values <==> k in c.keys;
    }
    forall k | k in c.values ensures sizes.values[k] == c.values[k] {
      ValuesOfLength(pairs, k);
    }
    assert sizes.values == c.values;
  }

  /** Sum of the values of a dict of counts. */
  function SumValues<K(==, !new)>(d: Dict<K, nat>): nat
    requires d.Valid()
  {
    SumOver(d.keys, d.values)
  }

  function SumOver<K(==, !new)>(ks: seq<K>, m: map<K, nat>): nat
    requires forall k :: k in ks ==> k in m
  {
    if |ks| == 0 then 0 else SumOver(ks[..|ks| - 1], m) + m[ks[|ks| - 1]]
  }

  /** Adding one to a key (0 when absent) adds one to the sum of the counts:
      what keeps `CountDict.length` equal to the total. */
  lemma Increment<K(!new)>(d: Dict<K, nat>, k: K)
    requires d.Valid()
    ensures SumValues(Bump(d, k)) == SumValues(d) + 1
  {
    if k in d.values {
      var i :| 0 <= i < |d.keys| && d.keys[i] == k;
      SumOverBump(d.keys, d.values, i, d.values[k] + 1);
    } else {
      SumOverAppend(d.keys, d.values, k, 1);
    }
  }

  lemma {:induction false} SumOverBump<K(!new)>(ks: seq<K>, m: map<K, nat>, i: nat, v: nat)
    requires Distinct(ks) && i < |ks|
    requires forall k :: k in ks ==> k in m
    ensures SumOver(ks, m[ks[i] := v]) == SumOver(ks, m) - m[ks[i]] + v
  {
    var n := |ks| - 1;
    var front := ks[..n];
    if i < n {
      SumOverBump(front, m, i, v);
    } else {
      assert ks[i] !in front;
      SumOverOutside(front, m, ks[i], v);
    }
  }

  lemma {:induction false} SumOverOutside<K(!new)>(ks: seq<K>, m: map<K, nat>, k: K, v: nat)
    requires k !in ks
    requires forall j :: j in ks ==> j in m
    ensures SumOver(ks, m[k := v]) == SumOver(ks, m)
  {
    if |ks| > 0 {
      var front := ks[..|ks| - 1];
      assert forall j :: j in front ==> j in ks;
      SumOverOutside(front, m, k, v);
    }
  }

  /** Counts that are all zero sum to zero. */
  lemma {:induction false} SumOverZero<K(!new)>(ks: seq<K>, m: map<K, nat>)
    requires forall k :: k in ks ==> k in m && m[k] == 0
    ensures SumOver(ks, m) == 0
  {
    if |ks| > 0 {
      SumOverZero(ks[..|ks| - 1], m);
    }
  }

  /** Counts that are all positive sum to at least the number of keys. */
  lemma {:induction false} SumOverPositive<K(!new)>(ks: seq<K>, m: map<K, nat>)
    requires forall k :: k in ks ==> k in m && m[k] >= 1
    ensures SumOver(ks, m) >= |ks|
  {
    if |ks| > 0 {
      SumOverPositive(ks[..|ks| - 1], m);
    }
  }

  lemma SumOverAppend<K(!new)>(ks: seq<K>, m: map<K, nat>, k: K, v: nat)
    requires k !in ks
    requires forall j :: j in ks ==> j in m
    ensures SumOver(ks + [k], m[k := v]) == SumOver(ks, m) + v
  {
    SumOverOutside(ks, m, k, v);
    assert (ks + [k])[..|ks|] == ks;
  }

  /** Counting a sequence adds its length to the sum of the counts. */
  lemma {:induction false} CountIntoSum<T(!new)>(d: Dict<T, nat>, s: seq<T>)
    requires d.Valid()
    ensures SumValues(CountInto(d, s)) == SumValues(d) + |s|
  {
    if |s| > 0 {
      CountIntoSum(d, s[..|s| - 1]);
      Increment(CountInto(d, s[..|s| - 1]), s[|s| - 1]);
    }
  }
}

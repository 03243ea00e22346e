/** Python's `sorted(..., key=..., reverse=...)`, a stable sort, and the
    "sort then keep the first ten" idiom the reports use. */
module Ranking {
  import opened Text
  import opened Dicts

  /** A sort key as Python compares it: numbers by value, strings by code
      point. The scripts never compare a number with a string; putting every
      number first only makes the order total. */
  datatype Key = Num(x: real) | Str(s: string)

  predicate KeyLe(a: Key, b: Key)
  {
    match (a, b)
    case (Num(x), Num(y)) => x <= y
    case (Num(_), Str(_)) => true
    case (Str(_), Num(_)) => false
    case (Str(s), Str(t)) => LexLe(s, t)
  }

  lemma KeyLeTotal(a: Key, b: Key)
    ensures KeyLe(a, b) || KeyLe(b, a)
  {
    if a.Str? && b.Str? {
      LexLeTotal(a.s, b.s);
    }
  }

  lemma KeyLeTransitive(a: Key, b: Key, c: Key)
    requires KeyLe(a, b) && KeyLe(b, c)
    ensures KeyLe(a, c)
  {
    if a.Str? && b.Str? && c.Str? {
      LexLeTransitive(a.s, b.s, c.s);
    }
  }

  lemma KeyLeAntisymmetric(a: Key, b: Key)
    requires KeyLe(a, b) && KeyLe(b, a)
    ensures a == b
  {
    if a.Str? && b.Str? {
      LexLeAntisymmetric(a.s, b.s);
    }
  }

  lemma KeyLeReflexive(a: Key)
    ensures KeyLe(a, a)
  {
    if a.Str? {
      LexLeTotal(a.s, a.s);
    }
  }

  /** `a` may come before `b` in the output: ascending `a <= b`, or with
      `reverse=True` descending `a >= b`. */
  predicate Le(a: Key, b: Key, desc: bool)
  {
    if desc then KeyLe(b, a) else KeyLe(a, b)
  }

  lemma LeTransitive(a: Key, b: Key, c: Key, desc: bool)
    requires Le(a, b, desc) && Le(b, c, desc)
    ensures Le(a, c, desc)
  {
    if desc {
      KeyLeTransitive(c, b, a);
    } else {
      KeyLeTransitive(a, b, c);
    }
  }

  lemma LeTotal(a: Key, b: Key, desc: bool)
    ensures Le(a, b, desc) || Le(b, a, desc)
  {
    KeyLeTotal(a, b);
  }

  predicate Sorted<T>(s: seq<T>, key: T -> Key, desc: bool)
  {
    forall i, j :: 0 <= i < j < |s| ==> Le(key(s[i]), key(s[j]), desc)
  }

  /** Inserts `x` after every element that does not sort strictly after it,
      so that `x` follows the elements with an equal key. */
  function Insert<T>(s: seq<T>, x: T, key: T -> Key, desc: bool): seq<T>
  {
    if |s| == 0 then [x]
    else if !Le(key(s[0]), key(x), desc) then [x] + s
    else [s[0]] + Insert(s[1..], x, key, desc)
  }

  /** `sorted(s, key=key, reverse=desc)`: a stable insertion sort. */
  function StableSort<T>(s: seq<T>, key: T -> Key, desc: bool): seq<T>
  {
    if |s| == 0 then []
    else Insert(StableSort(s[..|s| - 1], key, desc), s[|s| - 1], key, desc)
  }

  lemma {:induction false} InsertPermutes<T>(s: seq<T>, x: T, key: T -> Key, desc: bool)
    ensures multiset(Insert(s, x, key, desc)) == multiset(s) + multiset{x}
  {
    if |s| > 0 && Le(key(s[0]), key(x), desc) {
      InsertPermutes(s[1..], x, key, desc);
      assert s == [s[0]] + s[1..];
    }
  }

  lemma {:induction false} InsertSorted<T>(s: seq<T>, x: T, key: T -> Key, desc: bool)
    requires Sorted(s, key, desc)
    ensures Sorted(Insert(s, x, key, desc), key, desc)
  {
    var r := Insert(s, x, key, desc);
    if |s| == 0 {
    } else if !Le(key(s[0]), key(x), desc) {
      LeTotal(key(s[0]), key(x), desc);
      forall j | 0 < j < |r| ensures Le(key(r[0]), key(r[j]), desc) {
        if j > 1 {
          LeTransitive(key(x), key(s[0]), key(s[j - 1]), desc);
        }
      }
    } else {
      var tail := Insert(s[1..], x, key, desc);
      InsertSorted(s[1..], x, key, desc);
      InsertPermutes(s[1..], x, key, desc);
      forall j | 0 <= j < |tail| ensures Le(key(s[0]), key(tail[j]), desc) {
        assert tail[j] in multiset(s[1..]) + multiset{x};
        if tail[j] != x {
          assert tail[j] in s[1..];
        }
      }
    }
  }

  /** The sorted list is a permutation of the input. */
  lemma {:induction false} SortPermutes<T>(s: seq<T>, key: T -> Key, desc: bool)
    ensures multiset(StableSort(s, key, desc)) == multiset(s)
  {
    if |s| > 0 {
      var front := s[..|s| - 1];
      SortPermutes(front, key, desc);
      InsertPermutes(StableSort(front, key, desc), s[|s| - 1], key, desc);
      assert s == front + [s[|s| - 1]];
    }
  }

  /** The sorted list is ordered by the key. */
  lemma {:induction false} SortSorts<T>(s: seq<T>, key: T -> Key, desc: bool)
    ensures Sorted(StableSort(s, key, desc), key, desc)
  {
    if |s| > 0 {
      SortSorts(s[..|s| - 1], key, desc);
      InsertSorted(StableSort(s[..|s| - 1], key, desc), s[|s| - 1], key, desc);
    }
  }

  /** The elements of `s` whose key is `k`, in order. */
  function WithKey<T>(s: seq<T>, key: T -> Key, k: Key): seq<T>
  {
    if |s| == 0 then []
    else WithKey(s[..|s| - 1], key, k) + (if key(s[|s| - 1]) == k then [s[|s| - 1]] else [])
  }

  lemma {:induction false} WithKeyConcat<T>(a: seq<T>, b: seq<T>, key: T -> Key, k: Key)
    ensures WithKey(a + b, key, k) == WithKey(a, key, k) + WithKey(b, key, k)
    decreases |b|
  {
    if |b| > 0 {
      var n := |b| - 1;
      assert (a + b)[..|a| + n] == a + b[..n];
      WithKeyConcat(a, b[..n], key, k);
    } else {
      assert a + b == a;
    }
  }

  lemma {:induction false} WithKeyNone<T>(s: seq<T>, key: T -> Key, k: Key)
    requires forall i :: 0 <= i < |s| ==> key(s[i]) != k
    ensures WithKey(s, key, k) == []
  {
    if |s| > 0 {
      WithKeyNone(s[..|s| - 1], key, k);
    }
  }

  lemma {:induction false} InsertStable<T>(s: seq<T>, x: T, key: T -> Key, desc: bool, k: Key)
    requires Sorted(s, key, desc)
    ensures WithKey(Insert(s, x, key, desc), key, k)
      == WithKey(s, key, k) + (if key(x) == k then [x] else [])
  {
    var one := if key(x) == k then [x] else [];
    assert WithKey([x], key, k) == WithKey([], key, k) + one;
    if |s| == 0 {
    } else if !Le(key(s[0]), key(x), desc) {
      WithKeyConcat([x], s, key, k);
      if key(x) == k {
        forall i | 0 <= i < |s| ensures key(s[i]) != k {
          KeyLeReflexive(k);
          if i > 0 && key(s[i]) == k {
            LeTransitive(key(s[0]), key(s[i]), key(x), desc);
          }
        }
        WithKeyNone(s, key, k);
      }
    } else {
      InsertStable(s[1..], x, key, desc, k);
      WithKeyCons(s[0], Insert(s[1..], x, key, desc), s[1..], one, key, k);
      assert s == [s[0]] + s[1..];
    }
  }

  lemma WithKeyCons<T>(h: T, a: seq<T>, b: seq<T>, extra: seq<T>, key: T -> Key, k: Key)
    requires WithKey(a, key, k) == WithKey(b, key, k) + extra
    ensures WithKey([h] + a, key, k) == WithKey([h] + b, key, k) + extra
  {
    WithKeyConcat([h], a, key, k);
    WithKeyConcat([h], b, key, k);
  }

  /** Stability: the elements that share a key come out in their input
      order. */
  lemma {:induction false} SortStable<T>(s: seq<T>, key: T -> Key, desc: bool, k: Key)
    ensures WithKey(StableSort(s, key, desc), key, k) == WithKey(s, key, k)
  {
    if |s| > 0 {
      var front := s[..|s| - 1];
      SortStable(front, key, desc, k);
      SortSorts(front, key, desc);
      InsertStable(StableSort(front, key, desc), s[|s| - 1], key, desc, k);
    }
  }

  /** `s[:n]`. */
  function Take<T>(s: seq<T>, n: nat): (r: seq<T>)
    ensures |r| <= n && |r| <= |s|
    ensures |s| <= n ==> r == s
    ensures r == s[..|r|]
  {
    if |s| <= n then s else s[..n]
  }

  /** The first ten after sorting by the key in descending order. */
  function TopTen<T>(s: seq<T>, key: T -> Key): seq<T>
  {
    Take(StableSort(s, key, true), 10)
  }

  /** What the top-ten idiom promises: at most ten input elements, largest
      key first, all of the input when it has no more than ten, and nothing
      left out ranks above anything kept. */
  lemma TopTenSpec<T>(s: seq<T>, key: T -> Key)
    ensures var r := TopTen(s, key);
      && |r| == (if |s| < 10 then |s| else 10)
      && multiset(r) <= multiset(s)
      && (|s| <= 10 ==> multiset(r) == multiset(s))
      && Sorted(r, key, true)
      && forall i, j :: 0 <= i < |r| <= j < |StableSort(s, key, true)| ==>
        KeyLe(key(StableSort(s, key, true)[j]), key(r[i]))
  {
    var sorted := StableSort(s, key, true);
    SortPermutes(s, key, true);
    SortSorts(s, key, true);
    var r := TopTen(s, key);
    assert |sorted| == |s| by {
      assert |multiset(sorted)| == |multiset(s)|;
    }
    assert sorted == r + sorted[|r|..];
    assert multiset(sorted) == multiset(r) + multiset(sorted[|r|..]);
  }

  /** The sort key `lambda x: x[1]` of a dict item with a numeric value. */
  function ByValue<K>(p: (K, int)): Key
  {
    Num(p.1 as real)
  }

  lemma {:induction false} InsertKeepsKeys<K(!new), V>(s: seq<(K, V)>, x: (K, V), key: ((K, V)) -> Key, desc: bool)
    requires Distinct(Firsts(s)) && x.0 !in Firsts(s)
    ensures Distinct(Firsts(Insert(s, x, key, desc)))
  {
    if |s| > 0 && Le(key(s[0]), key(x), desc) {
      assert Firsts(s[1..]) == Firsts(s)[1..];
      InsertKeepsKeys(s[1..], x, key, desc);
      var tail := Insert(s[1..], x, key, desc);
      InsertPermutes(s[1..], x, key, desc);
      forall j | 0 <= j < |tail| ensures tail[j].0 != s[0].0 {
        assert tail[j] in multiset(s[1..]) + multiset{x};
        if tail[j] != x {
          var i :| 0 <= i < |s[1..]| && s[1..][i] == tail[j];
          assert Firsts(s)[i + 1] == tail[j].0;
        }
      }
    }
  }

  /** Sorting the items of a dict keeps their keys distinct. */
  lemma {:induction false} SortKeepsKeys<K(!new), V>(s: seq<(K, V)>, key: ((K, V)) -> Key, desc: bool)
    requires Distinct(Firsts(s))
    ensures Distinct(Firsts(StableSort(s, key, desc)))
  {
    if |s| > 0 {
      var front := s[..|s| - 1];
      assert Firsts(front) == Firsts(s)[..|s| - 1];
      SortKeepsKeys(front, key, desc);
      SortPermutes(front, key, desc);
      var sorted := StableSort(front, key, desc);
      forall j | 0 <= j < |sorted| ensures sorted[j].0 != s[|s| - 1].0 {
        assert sorted[j] in multiset(front);
        var i :| 0 <= i < |front| && front[i] == sorted[j];
      }
      InsertKeepsKeys(sorted, s[|s| - 1], key, desc);
    }
  }

  /** `{x: d[x] for x in list(d)[:n]}` where `d` was built from items sorted
      by value in descending order: at most `n` entries, the first `n` items
      in order, values non-increasing, and no item left out has a value above
      a kept one. */
  lemma TopPrefix<K(!new)>(items: seq<(K, int)>, n: nat)
    requires Sorted(items, ByValue, true) && Distinct(Firsts(items))
    ensures var r := OfItems(Take(items, n));
      && |r.keys| == (if |items| < n then |items| else n)
      && (forall i :: 0 <= i < |r.keys| ==> r.keys[i] == items[i].0 && r.values[r.keys[i]] == items[i].1)
      && (forall i, j :: 0 <= i < j < |r.keys| ==> r.values[r.keys[i]] >= r.values[r.keys[j]])
      && (forall i, j :: 0 <= i < |r.keys| <= j < |items| ==> items[j].1 <= r.values[r.keys[i]])
  {
    var kept := Take(items, n);
    var m := |kept|;
    assert m == if |items| < n then |items| else n;
    assert Firsts(kept) == Firsts(items)[..m];
    OfDistinctItems(kept);
    var r := OfItems(kept);
    forall i | 0 <= i < m ensures r.keys[i] == items[i].0 && r.values[r.keys[i]] == items[i].1 {
      assert kept[i] == items[i];
      assert r.keys[i] == Firsts(kept)[i];
    }
    forall i, j | 0 <= i < j < m ensures r.values[r.keys[i]] >= r.values[r.keys[j]] {
      SortedValues(items, i, j);
    }
    forall i, j | 0 <= i < m <= j < |items| ensures items[j].1 <= r.values[r.keys[i]] {
      SortedValues(items, i, j);
    }
  }

  /** Membership form of `TopPrefix`: every kept key is a pair of the input
      with its value, the values are non-increasing, and an input pair whose
      key was not kept has a value no higher than any kept one, which only
      happens once `n` keys were kept. */
  lemma SortedTop<K(!new)>(items: seq<(K, int)>, n: nat)
    requires Sorted(items, ByValue, true) && Distinct(Firsts(items))
    ensures var r := OfItems(Take(items, n));
      && |r.keys| <= n
      && (forall k :: k in r.values ==> (k, r.values[k]) in items)
      && (forall i, j :: 0 <= i < j < |r.keys| ==> r.values[r.keys[i]] >= r.values[r.keys[j]])
      && (forall p :: p in items && p.0 !in r.values ==>
            |r.keys| == n && forall i :: 0 <= i < |r.keys| ==> p.1 <= r.values[r.keys[i]])
  {
    TopPrefix(items, n);
    SortedTopMembers(items, n);
    SortedTopLeftOut(items, n);
  }

  lemma SortedTopMembers<K(!new)>(items: seq<(K, int)>, n: nat)
    requires Sorted(items, ByValue, true) && Distinct(Firsts(items))
    ensures var r := OfItems(Take(items, n));
      forall k :: k in r.values ==> (k, r.values[k]) in items
  {
    var kept := Take(items, n);
    assert Firsts(kept) == Firsts(items)[..|kept|];
    OfDistinctItems(kept);
    var r := OfItems(kept);
    forall k | k in r.values ensures (k, r.values[k]) in items {
      var i :| 0 <= i < |r.keys| && r.keys[i] == k;
      assert items[i] == kept[i];
    }
  }

  lemma SortedTopLeftOut<K(!new)>(items: seq<(K, int)>, n: nat)
    requires Sorted(items, ByValue, true) && Distinct(Firsts(items))
    ensures var r := OfItems(Take(items, n));
      forall p :: p in items && p.0 !in r.values ==>
        |r.keys| == n && forall i :: 0 <= i < |r.keys| ==> p.1 <= r.values[r.keys[i]]
  {
    var kept := Take(items, n);
    assert Firsts(kept) == Firsts(items)[..|kept|];
    OfDistinctItems(kept);
    var r := OfItems(kept);
    forall p | p in items && p.0 !in r.values
      ensures |r.keys| == n && forall i :: 0 <= i < |r.keys| ==> p.1 <= r.values[r.keys[i]]
    {
      var j :| 0 <= j < |items| && items[j] == p;
      assert j >= |kept|;
      forall i | 0 <= i < |r.keys| ensures p.1 <= r.values[r.keys[i]] {
        assert kept[i] == items[i];
        SortedValues(items, i, j);
      }
    }
  }

  /** Sorting keeps exactly the same elements. */
  lemma SortMembers<T>(s: seq<T>, key: T -> Key, desc: bool)
    ensures forall x :: x in StableSort(s, key, desc) <==> x in s
  {
    SortPermutes(s, key, desc);
    forall x ensures x in StableSort(s, key, desc) <==> x in s {
      assert x in StableSort(s, key, desc) <==> x in multiset(StableSort(s, key, desc));
      assert x in s <==> x in multiset(s);
    }
  }

  lemma SortedValues<K>(items: seq<(K, int)>, i: nat, j: nat)
    requires Sorted(items, ByValue, true) && i < j < |items|
    ensures items[j].1 <= items[i].1
  {
    assert Le(ByValue(items[i]), ByValue(items[j]), true);
  }
}

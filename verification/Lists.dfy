/** Filtering, mapping and sorting by key: what the source gets from its array methods. */
module Lists {
  import opened Wrappers

  function Filter<T>(s: seq<T>, keep: T -> bool): (kept: seq<T>)
    ensures |kept| <= |s|
  {
    if s == [] then [] else (if keep(s[0]) then [s[0]] else []) + Filter(s[1..], keep)
  }

  function Map<T, U>(s: seq<T>, f: T -> U): (mapped: seq<U>)
    ensures |mapped| == |s|
  {
    if s == [] then [] else [f(s[0])] + Map(s[1..], f)
  }

  /** The first index whose element the test accepts. */
  function IndexWhere<T>(s: seq<T>, accepts: T -> bool): (k: Option<nat>)
    ensures k.Some? ==> k.value < |s| && accepts(s[k.value]) && forall i :: 0 <= i < k.value ==> !accepts(s[i])
    ensures k.None? ==> forall i :: 0 <= i < |s| ==> !accepts(s[i])
  {
    if s == [] then None
    else if accepts(s[0]) then Some(0)
    else match IndexWhere(s[1..], accepts)
         case None => None
         case Some(k) => Some(k + 1)
  }

  lemma EqualSizedSubset<T>(a: set<T>, b: set<T>)
    requires a <= b && |a| == |b|
    ensures a == b
  {
    assert b == a + (b - a);
  }

  lemma {:induction false} FilterContains<T>(s: seq<T>, keep: T -> bool, x: T)
    ensures x in Filter(s, keep) <==> x in s && keep(x)
  {
    if s != [] {
      FilterContains(s[1..], keep, x);
      assert s == [s[0]] + s[1..];
    }
  }

  lemma {:induction false} MapIndex<T, U>(s: seq<T>, f: T -> U, i: nat)
    requires i < |s|
    ensures Map(s, f)[i] == f(s[i])
  {
    if i > 0 {
      MapIndex(s[1..], f, i - 1);
    }
  }

  lemma MapIndexes<T, U>(s: seq<T>, f: T -> U)
    ensures forall i :: 0 <= i < |s| ==> Map(s, f)[i] == f(s[i])
  {
    forall i | 0 <= i < |s| ensures Map(s, f)[i] == f(s[i]) {
      MapIndex(s, f, i);
    }
  }

  lemma {:induction false} FilterGrows<T>(s: seq<T>, x: T, keep: T -> bool)
    ensures Filter(s + [x], keep) == Filter(s, keep) + if keep(x) then [x] else []
  {
    if s == [] {
      assert [] + [x] == [x] && [x][1..] == [];
    } else {
      FilterGrows(s[1..], x, keep);
      var longer, head := s + [x], if keep(s[0]) then [s[0]] else [];
      assert longer[1..] == s[1..] + [x] && longer[0] == s[0];
      assert Filter(longer, keep) == head + Filter(longer[1..], keep);
      assert head + (Filter(s[1..], keep) + if keep(x) then [x] else [])
          == head + Filter(s[1..], keep) + if keep(x) then [x] else [];
    }
  }

  lemma {:induction false} FilterAppends<T>(s: seq<T>, t: seq<T>, keep: T -> bool)
    ensures Filter(s + t, keep) == Filter(s, keep) + Filter(t, keep)
  {
    if s == [] {
      assert s + t == t;
    } else {
      var longer, head := s + t, if keep(s[0]) then [s[0]] else [];
      FilterAppends(s[1..], t, keep);
      assert longer[1..] == s[1..] + t && longer[0] == s[0];
      assert Filter(longer, keep) == head + Filter(longer[1..], keep);
      assert head + (Filter(s[1..], keep) + Filter(t, keep)) == head + Filter(s[1..], keep) + Filter(t, keep);
    }
  }

  lemma {:induction false} MapGrows<T, U>(s: seq<T>, x: T, f: T -> U)
    ensures Map(s + [x], f) == Map(s, f) + [f(x)]
  {
    if s == [] {
      assert [] + [x] == [x] && [x][1..] == [];
    } else {
      MapGrows(s[1..], x, f);
      assert (s + [x])[1..] == s[1..] + [x] && (s + [x])[0] == s[0];
    }
  }

  /** The filter does not see what f changes. */
  lemma {:induction false} FilterOfMap<T(!new)>(s: seq<T>, f: T -> T, keep: T -> bool)
    requires forall x :: keep(f(x)) == keep(x)
    ensures Filter(Map(s, f), keep) == Map(Filter(s, keep), f)
  {
    if s != [] {
      FilterOfMap(s[1..], f, keep);
      assert Map(s, f)[1..] == Map(s[1..], f) && Map(s, f)[0] == f(s[0]);
      assert keep(f(s[0])) == keep(s[0]);
      if keep(s[0]) {
        assert ([s[0]] + Filter(s[1..], keep))[1..] == Filter(s[1..], keep);
      } else {
        assert [] + Filter(s[1..], keep) == Filter(s[1..], keep);
        assert [] + Filter(Map(s, f)[1..], keep) == Filter(Map(s[1..], f), keep);
      }
    }
  }

  lemma {:induction false} MapSame<T(!new), U>(s: seq<T>, f: T -> U, g: T -> U)
    requires forall x :: f(x) == g(x)
    ensures Map(s, f) == Map(s, g)
  {
    if s != [] {
      MapSame(s[1..], f, g);
      assert f(s[0]) == g(s[0]);
    }
  }

  lemma {:induction false} FilterSame<T(!new)>(s: seq<T>, keep: T -> bool, other: T -> bool)
    requires forall x :: keep(x) == other(x)
    ensures Filter(s, keep) == Filter(s, other)
  {
    if s != [] {
      FilterSame(s[1..], keep, other);
      assert keep(s[0]) == other(s[0]);
    }
  }

  /** Mapping what f left unchanged for g. */
  lemma {:induction false} MapOfMap<T(!new), U>(s: seq<T>, f: T -> T, g: T -> U)
    requires forall x :: g(f(x)) == g(x)
    ensures Map(Map(s, f), g) == Map(s, g)
  {
    if s != [] {
      MapOfMap(s[1..], f, g);
      assert Map(s, f)[1..] == Map(s[1..], f) && Map(s, f)[0] == f(s[0]);
      assert g(f(s[0])) == g(s[0]);
    }
  }

  lemma {:induction false} FilterCounts<T>(s: seq<T>, keep: T -> bool, x: T)
    ensures multiset(Filter(s, keep))[x] == if keep(x) then multiset(s)[x] else 0
  {
    if s != [] {
      FilterCounts(s[1..], keep, x);
      assert s == [s[0]] + s[1..];
    }
  }

  lemma FilterForgetsOrder<T(!new)>(s: seq<T>, t: seq<T>, keep: T -> bool)
    requires multiset(s) == multiset(t)
    ensures multiset(Filter(s, keep)) == multiset(Filter(t, keep))
  {
    forall x ensures multiset(Filter(s, keep))[x] == multiset(Filter(t, keep))[x] {
      FilterCounts(s, keep, x);
      FilterCounts(t, keep, x);
    }
  }

  /** The values f gives, in order, for the elements that have one. */
  function Collect<T, U>(s: seq<T>, f: T -> Option<U>): seq<U> {
    if s == [] then [] else (if f(s[0]).Some? then [f(s[0]).value] else []) + Collect(s[1..], f)
  }

  lemma {:induction false} CollectGrows<T, U>(s: seq<T>, x: T, f: T -> Option<U>)
    ensures Collect(s + [x], f) == Collect(s, f) + if f(x).Some? then [f(x).value] else []
  {
    if s == [] {
      assert [] + [x] == [x] && [x][1..] == [];
    } else {
      CollectGrows(s[1..], x, f);
      var longer, head := s + [x], if f(s[0]).Some? then [f(s[0]).value] else [];
      assert longer[1..] == s[1..] + [x] && longer[0] == s[0];
      assert Collect(longer, f) == head + Collect(longer[1..], f);
    }
  }

  lemma {:induction false} CollectsNothing<T, U>(s: seq<T>, f: T -> Option<U>)
    ensures Collect(s, f) == [] <==> forall x :: x in s ==> f(x).None?
  {
    if s != [] {
      CollectsNothing(s[1..], f);
      assert s == [s[0]] + s[1..];
      assert forall x :: x in s <==> x == s[0] || x in s[1..];
    }
  }

  lemma {:induction false} CollectContains<T, U>(s: seq<T>, f: T -> Option<U>, y: U)
    ensures y in Collect(s, f) <==> exists x :: x in s && f(x) == Some(y)
  {
    if s != [] {
      CollectContains(s[1..], f, y);
      assert s == [s[0]] + s[1..];
      assert forall x :: x in s <==> x == s[0] || x in s[1..];
    }
  }

  lemma {:induction false} CollectOfMap<T(!new), U>(s: seq<T>, g: T -> T, f: T -> Option<U>, h: T -> Option<U>)
    requires forall x :: f(g(x)) == h(x)
    ensures Collect(Map(s, g), f) == Collect(s, h)
  {
    if s != [] {
      CollectOfMap(s[1..], g, f, h);
      assert Map(s, g)[1..] == Map(s[1..], g) && Map(s, g)[0] == g(s[0]);
      assert f(g(s[0])) == h(s[0]);
    }
  }

  lemma {:induction false} CollectSame<T(!new), U>(s: seq<T>, f: T -> Option<U>, h: T -> Option<U>)
    requires forall x :: f(x) == h(x)
    ensures Collect(s, f) == Collect(s, h)
  {
    if s != [] {
      CollectSame(s[1..], f, h);
      assert f(s[0]) == h(s[0]);
    }
  }

  // ------------------------------------------------------------------ sorting by a key

  function Insert<T>(x: T, sorted: seq<T>, key: T -> nat): (longer: seq<T>)
    ensures |longer| == |sorted| + 1
  {
    if sorted == [] || key(x) <= key(sorted[0]) then [x] + sorted else [sorted[0]] + Insert(x, sorted[1..], key)
  }

  function SortBy<T>(s: seq<T>, key: T -> nat): (sorted: seq<T>)
    ensures |sorted| == |s|
  {
    if s == [] then [] else Insert(s[0], SortBy(s[1..], key), key)
  }

  /** Each element's key is at most its successor's. */
  predicate Ascending<T>(s: seq<T>, key: T -> nat) {
    |s| < 2 || (key(s[0]) <= key(s[1]) && Ascending(s[1..], key))
  }

  lemma {:induction false} InsertSorts<T>(x: T, sorted: seq<T>, key: T -> nat)
    requires Ascending(sorted, key)
    ensures Ascending(Insert(x, sorted, key), key)
    ensures multiset(Insert(x, sorted, key)) == multiset{x} + multiset(sorted)
  {
    if sorted == [] || key(x) <= key(sorted[0]) {
      assert ([x] + sorted)[1..] == sorted;
    } else {
      InsertSorts(x, sorted[1..], key);
      assert sorted == [sorted[0]] + sorted[1..];
      assert Insert(x, sorted, key)[1..] == Insert(x, sorted[1..], key);
    }
  }

  lemma {:induction false} SortBySorts<T>(s: seq<T>, key: T -> nat)
    ensures Ascending(SortBy(s, key), key)
    ensures multiset(SortBy(s, key)) == multiset(s)
  {
    if s != [] {
      SortBySorts(s[1..], key);
      InsertSorts(s[0], SortBy(s[1..], key), key);
      assert s == [s[0]] + s[1..];
    }
  }

  lemma SortByContains<T>(s: seq<T>, key: T -> nat, x: T)
    ensures x in SortBy(s, key) <==> x in s
  {
    SortBySorts(s, key);
    assert x in multiset(SortBy(s, key)) <==> x in multiset(s);
  }

  lemma {:induction false} InsertsCommute<T>(x: T, y: T, s: seq<T>, key: T -> nat)
    requires key(x) != key(y)
    ensures Insert(x, Insert(y, s, key), key) == Insert(y, Insert(x, s, key), key)
  {
    if s != [] && key(x) > key(s[0]) && key(y) > key(s[0]) {
      InsertsCommute(x, y, s[1..], key);
      assert Insert(x, s, key)[1..] == Insert(x, s[1..], key) && Insert(y, s, key)[1..] == Insert(y, s[1..], key);
    } else if s != [] && key(y) > key(s[0]) {
      assert ([x] + s)[1..] == s && Insert(y, s, key)[0] == s[0];
    } else if s != [] && key(x) > key(s[0]) {
      assert ([y] + s)[1..] == s && Insert(x, s, key)[0] == s[0];
    } else {
      assert ([x] + s)[1..] == s && ([y] + s)[1..] == s;
    }
  }

  function Without<T>(s: seq<T>, i: nat): seq<T>
    requires i < |s|
  {
    s[..i] + s[i + 1..]
  }

  /** Any element may be sorted in last, when its key is its own. */
  lemma {:induction false} SortPicks<T>(s: seq<T>, i: nat, key: T -> nat)
    requires i < |s| && forall j :: 0 <= j < i ==> key(s[j]) != key(s[i])
    ensures SortBy(s, key) == Insert(s[i], SortBy(Without(s, i), key), key)
  {
    if i == 0 {
      assert Without(s, 0) == s[1..];
    } else {
      SortPicks(s[1..], i - 1, key);
      assert Without(s, i)[0] == s[0] && Without(s, i)[1..] == Without(s[1..], i - 1);
      InsertsCommute(s[0], s[i], SortBy(Without(s[1..], i - 1), key), key);
    }
  }

  /** The key tells the elements at different indices apart. */
  ghost predicate DistinctKeys<T>(s: seq<T>, key: T -> nat) {
    forall i, j :: 0 <= i < j < |s| ==> key(s[i]) != key(s[j])
  }

  lemma WithoutMultiset<T>(s: seq<T>, i: nat)
    requires i < |s|
    ensures multiset(Without(s, i)) == multiset(s) - multiset{s[i]}
  {
    assert s == s[..i] + [s[i]] + s[i + 1..];
  }

  lemma WithoutDistinct<T>(s: seq<T>, i: nat, key: T -> nat)
    requires i < |s| && DistinctKeys(s, key)
    ensures DistinctKeys(Without(s, i), key)
  {
    assert forall j :: 0 <= j < |Without(s, i)| ==> Without(s, i)[j] == s[if j < i then j else j + 1];
  }

  /** Sorting by a distinct key forgets the order the elements came in. */
  lemma {:induction false} SortForgetsOrder<T>(s: seq<T>, t: seq<T>, key: T -> nat)
    requires multiset(s) == multiset(t) && DistinctKeys(t, key)
    ensures SortBy(s, key) == SortBy(t, key)
  {
    if s == [] {
      assert |multiset(t)| == 0;
    } else {
      assert s[0] in multiset(t);
      var i :| 0 <= i < |t| && t[i] == s[0];
      WithoutMultiset(s, 0);
      WithoutMultiset(t, i);
      assert Without(s, 0) == s[1..];
      WithoutDistinct(t, i, key);
      SortForgetsOrder(s[1..], Without(t, i), key);
      SortPicks(t, i, key);
    }
  }

  lemma {:induction false} InsertOfMap<T(!new)>(x: T, s: seq<T>, f: T -> T, key: T -> nat)
    requires forall y :: key(f(y)) == key(y)
    ensures Insert(f(x), Map(s, f), key) == Map(Insert(x, s, key), f)
  {
    if s == [] || key(x) <= key(s[0]) {
      assert ([x] + s)[1..] == s;
    } else {
      InsertOfMap(x, s[1..], f, key);
      assert Map(s, f)[1..] == Map(s[1..], f);
      assert ([s[0]] + Insert(x, s[1..], key))[1..] == Insert(x, s[1..], key);
    }
  }

  /** Sorting does not see what f changes. */
  lemma {:induction false} SortOfMap<T(!new)>(s: seq<T>, f: T -> T, key: T -> nat)
    requires forall x :: key(f(x)) == key(x)
    ensures SortBy(Map(s, f), key) == Map(SortBy(s, key), f)
  {
    if s != [] {
      SortOfMap(s[1..], f, key);
      assert Map(s, f)[1..] == Map(s[1..], f);
      InsertOfMap(s[0], SortBy(s[1..], key), f, key);
    }
  }

  lemma {:induction false} FilterKeepsDistinct<T>(s: seq<T>, keep: T -> bool, key: T -> nat)
    requires DistinctKeys(s, key)
    ensures DistinctKeys(Filter(s, keep), key)
  {
    if s != [] {
      FilterKeepsDistinct(s[1..], keep, key);
      var rest := Filter(s[1..], keep);
      forall i | 0 <= i < |rest| ensures key(rest[i]) != key(s[0]) {
        FilterContains(s[1..], keep, rest[i]);
        var j :| 0 <= j < |s[1..]| && s[1..][j] == rest[i];
        assert key(s[0]) != key(s[j + 1]);
      }
    }
  }
}

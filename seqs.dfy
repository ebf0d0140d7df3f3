/**
 * The LINQ operators the queries are built from: Where (Filter), Count with a
 * predicate, and OrderBy/ThenBy (SortBy over a lexicographic key).
 */
module Seqs {
  import opened Domain

  /** Where: the elements satisfying p, in their original order. */
  function Filter<T>(s: seq<T>, p: T -> bool): (r: seq<T>)
    ensures |r| <= |s|
    ensures forall i :: 0 <= i < |r| ==> r[i] in s && p(r[i])
    ensures forall i :: 0 <= i < |s| && p(s[i]) ==> s[i] in r
    ensures multiset(r) <= multiset(s)
  {
    if s == [] then []
    else
      assert s == [s[0]] + s[1..];
      (if p(s[0]) then [s[0]] else []) + Filter(s[1..], p)
  }

  lemma FilterMembers<T>(s: seq<T>, p: T -> bool)
    ensures forall x :: x in Filter(s, p) <==> x in s && p(x)
  {
    forall x | x in s && p(x) ensures x in Filter(s, p) {
      var i :| 0 <= i < |s| && s[i] == x;
    }
  }

  lemma FilterEmpty<T>(s: seq<T>, p: T -> bool)
    ensures Filter(s, p) == [] <==> forall i :: 0 <= i < |s| ==> !p(s[i])
  {
    var r := Filter(s, p);
    if r != [] {
      var k :| 0 <= k < |s| && s[k] == r[0];
    }
  }

  lemma {:induction false} FilterAppend<T>(a: seq<T>, b: seq<T>, p: T -> bool)
    ensures Filter(a + b, p) == Filter(a, p) + Filter(b, p)
  {
    if a != [] {
      assert (a + b)[0] == a[0] && (a + b)[1..] == a[1..] + b;
      FilterAppend(a[1..], b, p);
    } else {
      assert a + b == b;
    }
  }

  /** Filtering twice is filtering once by both predicates. */
  lemma {:induction false} FilterFilter<T>(s: seq<T>, p: T -> bool, q: T -> bool)
    ensures Filter(Filter(s, p), q) == Filter(s, x => p(x) && q(x))
  {
    if s != [] {
      FilterFilter(s[1..], p, q);
      FilterAppend(if p(s[0]) then [s[0]] else [], Filter(s[1..], p), q);
    }
  }

  /** A filter whose predicate agrees with another on every element gives the same result. */
  lemma {:induction false} FilterCongruent<T>(s: seq<T>, p: T -> bool, q: T -> bool)
    requires forall i :: 0 <= i < |s| ==> p(s[i]) == q(s[i])
    ensures Filter(s, p) == Filter(s, q)
  {
    if s != [] {
      FilterCongruent(s[1..], p, q);
    }
  }

  /** ok holds of every two elements, taken in their order in s. */
  predicate Pairwise<T>(s: seq<T>, ok: (T, T) -> bool)
  {
    forall i, j :: 0 <= i < j < |s| ==> ok(s[i], s[j])
  }

  /** Where keeps every pairwise fact about the elements it keeps. */
  lemma {:induction false} FilterPairwise<T>(s: seq<T>, p: T -> bool, ok: (T, T) -> bool)
    requires Pairwise(s, ok)
    ensures Pairwise(Filter(s, p), ok)
  {
    if s != [] {
      var rest := s[1..];
      assert Pairwise(rest, ok) by {
        forall i, j | 0 <= i < j < |rest| ensures ok(rest[i], rest[j]) {
          assert rest[i] == s[i + 1] && rest[j] == s[j + 1];
        }
      }
      FilterPairwise(rest, p, ok);
      var t := Filter(rest, p);
      var r := Filter(s, p);
      if p(s[0]) {
        assert r == [s[0]] + t;
        forall i, j | 0 <= i < j < |r| ensures ok(r[i], r[j]) {
          if i == 0 {
            assert r[0] == s[0] && r[j] == t[j - 1] && t[j - 1] in rest;
            var k :| 0 <= k < |rest| && rest[k] == r[j];
            assert s[k + 1] == r[j];
          } else {
            assert r[i] == t[i - 1] && r[j] == t[j - 1];
          }
        }
      } else {
        assert r == t;
      }
    }
  }

  /** SelectMany: the lists f gives for the elements, concatenated in order. */
  function SelectMany<T, U>(s: seq<T>, f: T -> seq<U>): seq<U>
  {
    if s == [] then [] else SelectMany(s[..|s| - 1], f) + f(s[|s| - 1])
  }

  lemma {:induction false} SelectManyAppend<T, U>(a: seq<T>, b: seq<T>, f: T -> seq<U>)
    ensures SelectMany(a + b, f) == SelectMany(a, f) + SelectMany(b, f)
  {
    if b == [] {
      assert a + b == a;
    } else {
      var n := |b| - 1;
      var ab := a + b;
      assert ab[..|ab| - 1] == a + b[..n] && ab[|ab| - 1] == b[n];
      SelectManyAppend(a, b[..n], f);
    }
  }

  /** Flattening in two steps is flattening once by the composed function. */
  lemma {:induction false} SelectManyNested<T, U, V>(s: seq<T>, g: T -> seq<U>, h: U -> seq<V>, gh: T -> seq<V>)
    requires forall x :: gh(x) == SelectMany(g(x), h)
    ensures SelectMany(s, gh) == SelectMany(SelectMany(s, g), h)
  {
    if s != [] {
      var n := |s| - 1;
      SelectManyNested(s[..n], g, h, gh);
      SelectManyAppend(SelectMany(s[..n], g), g(s[n]), h);
    }
  }

  /** Elements that contribute nothing can be filtered out first. */
  lemma {:induction false} SelectManySkipsEmpty<T, U>(s: seq<T>, p: T -> bool, f: T -> seq<U>)
    requires forall i :: 0 <= i < |s| && !p(s[i]) ==> f(s[i]) == []
    ensures SelectMany(s, f) == SelectMany(Filter(s, p), f)
  {
    if s != [] {
      var n := |s| - 1;
      assert s == s[..n] + [s[n]];
      SelectManySkipsEmpty(s[..n], p, f);
      FilterAppend(s[..n], [s[n]], p);
      assert Filter([s[n]], p) == if p(s[n]) then [s[n]] else [] by {
        assert [s[n]][1..] == [];
      }
      SelectManyAppend(Filter(s[..n], p), Filter([s[n]], p), f);
      assert SelectMany([s[n]], f) == f(s[n]) by {
        assert [s[n]][..0] == [];
      }
    }
  }

  /** Count(p): how many elements satisfy p. */
  function Count<T>(s: seq<T>, p: T -> bool): (n: nat)
    ensures n <= |s|
    ensures n == 0 <==> forall i :: 0 <= i < |s| ==> !p(s[i])
  {
    FilterEmpty(s, p);
    |Filter(s, p)|
  }

  /** Counting a stronger predicate never gives more. */
  lemma {:induction false} CountImplies<T>(s: seq<T>, p: T -> bool, q: T -> bool)
    requires forall i :: 0 <= i < |s| && p(s[i]) ==> q(s[i])
    ensures Count(s, p) <= Count(s, q)
  {
    if s != [] {
      CountImplies(s[1..], p, q);
      assert Filter(s, p) == (if p(s[0]) then [s[0]] else []) + Filter(s[1..], p);
      assert Filter(s, q) == (if q(s[0]) then [s[0]] else []) + Filter(s[1..], q);
    }
  }

  /** Two predicates no element satisfies together count at most the elements. */
  lemma {:induction false} CountDisjoint<T>(s: seq<T>, p: T -> bool, q: T -> bool)
    requires forall i :: 0 <= i < |s| ==> !(p(s[i]) && q(s[i]))
    ensures Count(s, p) + Count(s, q) <= |s|
  {
    if s != [] {
      CountDisjoint(s[1..], p, q);
      assert Filter(s, p) == (if p(s[0]) then [s[0]] else []) + Filter(s[1..], p);
      assert Filter(s, q) == (if q(s[0]) then [s[0]] else []) + Filter(s[1..], q);
    }
  }

  /** The index of the first element satisfying p, or |s| when there is none. */
  function FirstIndex<T>(s: seq<T>, p: T -> bool): (i: nat)
    ensures i <= |s|
    ensures i < |s| ==> p(s[i])
    ensures forall j :: 0 <= j < i ==> !p(s[j])
  {
    if s == [] then 0 else if p(s[0]) then 0 else 1 + FirstIndex(s[1..], p)
  }

  /** Where the first element with a key stands (|s| when none has it). */
  function FirstWithKey<T, K(==)>(s: seq<T>, key: T -> K, k: K): (i: nat)
    ensures i <= |s|
    ensures i < |s| ==> key(s[i]) == k
    ensures forall j :: 0 <= j < i ==> key(s[j]) != k
  {
    FirstIndex(s, (x: T) => key(x) == k)
  }

  /** Appending an element moves no first position; a new key first stands at the end. */
  lemma FirstWithKeySnoc<T, K>(s: seq<T>, x: T, key: T -> K, k: K)
    ensures FirstWithKey(s, key, k) < |s| ==> FirstWithKey(s + [x], key, k) == FirstWithKey(s, key, k)
    ensures FirstWithKey(s, key, k) == |s| ==>
              FirstWithKey(s + [x], key, k) == if key(x) == k then |s| else |s| + 1
  {
    var i, j := FirstWithKey(s, key, k), FirstWithKey(s + [x], key, k);
    if i < |s| {
      assert (s + [x])[i] == s[i];
    } else {
      assert (s + [x])[|s|] == x;
    }
  }

  /**
   * GroupBy(key).Select(First): the first element of each key, the groups in
   * the order their keys first occur.
   */
  function GroupFirsts<T, K(==)>(s: seq<T>, key: T -> K): (r: seq<T>)
    ensures |r| <= |s|
  {
    if s == [] then []
    else
      var n := |s| - 1;
      var kept := GroupFirsts(s[..n], key);
      if FirstWithKey(s[..n], key, key(s[n])) < n then kept else kept + [s[n]]
  }

  /** Each kept element is the first one with its key. */
  lemma {:induction false} GroupFirstsKeepsFirst<T, K>(s: seq<T>, key: T -> K, k: int)
    requires 0 <= k < |GroupFirsts(s, key)|
    ensures var r := GroupFirsts(s, key);
            FirstWithKey(s, key, key(r[k])) < |s| && r[k] == s[FirstWithKey(s, key, key(r[k]))]
  {
    var n := |s| - 1;
    var prefix, x := s[..n], s[n];
    assert prefix + [x] == s;
    var kept, r := GroupFirsts(prefix, key), GroupFirsts(s, key);
    if k < |kept| {
      assert r[k] == kept[k];
      GroupFirstsKeepsFirst(prefix, key, k);
      FirstWithKeySnoc(prefix, x, key, key(kept[k]));
      var i := FirstWithKey(prefix, key, key(kept[k]));
      assert s[i] == prefix[i];
    } else {
      assert r == kept + [x] && r[k] == x;
      FirstWithKeySnoc(prefix, x, key, key(x));
    }
  }

  /** The kept elements keep the order in which their keys first occur. */
  lemma {:induction false} GroupFirstsKeepsOrder<T, K>(s: seq<T>, key: T -> K, k: int, l: int)
    requires 0 <= k < l < |GroupFirsts(s, key)|
    ensures var r := GroupFirsts(s, key);
            FirstWithKey(s, key, key(r[k])) < FirstWithKey(s, key, key(r[l]))
  {
    var n := |s| - 1;
    var prefix, x := s[..n], s[n];
    assert prefix + [x] == s;
    var kept, r := GroupFirsts(prefix, key), GroupFirsts(s, key);
    assert r[k] == kept[k];
    GroupFirstsKeepsFirst(prefix, key, k);
    FirstWithKeySnoc(prefix, x, key, key(kept[k]));
    if l < |kept| {
      assert r[l] == kept[l];
      GroupFirstsKeepsOrder(prefix, key, k, l);
      GroupFirstsKeepsFirst(prefix, key, l);
      FirstWithKeySnoc(prefix, x, key, key(kept[l]));
    } else {
      assert r == kept + [x] && r[l] == x;
      FirstWithKeySnoc(prefix, x, key, key(x));
    }
  }

  /** Every key of the input is the key of some kept element. */
  lemma {:induction false} GroupFirstsCoversKeys<T, K>(s: seq<T>, key: T -> K, i: int)
    requires 0 <= i < |s|
    ensures var r := GroupFirsts(s, key);
            FirstWithKey(r, key, key(s[i])) < |r|
  {
    var n := |s| - 1;
    var prefix, x := s[..n], s[n];
    var kept, r := GroupFirsts(prefix, key), GroupFirsts(s, key);
    if i < n {
      assert s[i] == prefix[i];
      GroupFirstsCoversKeys(prefix, key, i);
      if r != kept {
        FirstWithKeySnoc(kept, x, key, key(s[i]));
      }
    } else if r == kept {
      var j := FirstWithKey(prefix, key, key(x));
      assert prefix[j] == s[j];
      GroupFirstsCoversKeys(prefix, key, j);
    } else {
      FirstWithKeySnoc(kept, x, key, key(x));
    }
  }

  /** No two kept elements share a key. */
  lemma GroupFirstsKeysDistinct<T, K>(s: seq<T>, key: T -> K, k: int, l: int)
    requires 0 <= k < l < |GroupFirsts(s, key)|
    ensures var r := GroupFirsts(s, key);
            key(r[k]) != key(r[l])
  {
    GroupFirstsKeepsOrder(s, key, k, l);
  }

  /** When the keys are already distinct, nothing is dropped. */
  lemma {:induction false} GroupFirstsOfDistinctKeys<T, K>(s: seq<T>, key: T -> K)
    requires forall i, j :: 0 <= i < j < |s| ==> key(s[i]) != key(s[j])
    ensures GroupFirsts(s, key) == s
  {
    if s != [] {
      var n := |s| - 1;
      GroupFirstsOfDistinctKeys(s[..n], key);
      assert FirstWithKey(s[..n], key, key(s[n])) == n;
      assert s[..n] + [s[n]] == s;
    }
  }

  /** FirstOrDefault(p): the first element satisfying p, or None. */
  function FirstWhere<T>(s: seq<T>, p: T -> bool): (r: Option<T>)
    ensures r.Some? ==> r.value in s && p(r.value)
    ensures r.None? <==> forall i :: 0 <= i < |s| ==> !p(s[i])
  {
    var i := FirstIndex(s, p);
    if i < |s| then Some(s[i]) else None
  }

  /** When exactly one element satisfies p, FirstOrDefault finds that one. */
  lemma FirstWhereUnique<T>(s: seq<T>, p: T -> bool, k: int)
    requires 0 <= k < |s| && p(s[k])
    requires forall i :: 0 <= i < |s| && i != k ==> !p(s[i])
    ensures FirstWhere(s, p) == Some(s[k])
  {
  }

  /** Ordinal, lexicographic order on keys; a proper prefix comes first. */
  predicate LexLe(a: seq<int>, b: seq<int>)
  {
    a == [] || (b != [] && (a[0] < b[0] || (a[0] == b[0] && LexLe(a[1..], b[1..]))))
  }

  lemma {:induction false} LexLeTotal(a: seq<int>, b: seq<int>)
    ensures LexLe(a, b) || LexLe(b, a)
  {
    if a != [] && b != [] && a[0] == b[0] {
      LexLeTotal(a[1..], b[1..]);
    }
  }

  lemma {:induction false} LexLeTransitive(a: seq<int>, b: seq<int>, c: seq<int>)
    requires LexLe(a, b) && LexLe(b, c)
    ensures LexLe(a, c)
  {
    if a != [] && b != [] && c != [] && a[0] == b[0] == c[0] {
      LexLeTransitive(a[1..], b[1..], c[1..]);
    }
  }

  lemma {:induction false} LexLeAntisymmetric(a: seq<int>, b: seq<int>)
    requires LexLe(a, b) && LexLe(b, a)
    ensures a == b
  {
    if a != [] {
      LexLeAntisymmetric(a[1..], b[1..]);
      assert a == [a[0]] + a[1..] && b == [b[0]] + b[1..];
    }
  }

  /** The ordinal key of a string: its characters' code points. */
  function StringKey(s: string): (k: seq<int>)
    ensures |k| == |s|
  {
    seq(|s|, i requires 0 <= i < |s| => s[i] as int)
  }

  predicate SortedBy<T>(s: seq<T>, key: T -> seq<int>)
  {
    forall i, j :: 0 <= i < j < |s| ==> LexLe(key(s[i]), key(s[j]))
  }

  /** Inserts x before the first element whose key is not below it. */
  function Insert<T>(x: T, s: seq<T>, key: T -> seq<int>): (r: seq<T>)
    ensures multiset(r) == multiset(s) + multiset{x}
    ensures |r| == |s| + 1
  {
    if s == [] || LexLe(key(x), key(s[0])) then [x] + s
    else
      assert s == [s[0]] + s[1..];
      [s[0]] + Insert(x, s[1..], key)
  }

  lemma {:induction false} InsertSorted<T>(x: T, s: seq<T>, key: T -> seq<int>)
    requires SortedBy(s, key)
    ensures SortedBy(Insert(x, s, key), key)
  {
    var r := Insert(x, s, key);
    if s == [] {
    } else if LexLe(key(x), key(s[0])) {
      forall i, j | 0 <= i < j < |r| ensures LexLe(key(r[i]), key(r[j])) {
        if i == 0 && j > 1 {
          LexLeTransitive(key(x), key(s[0]), key(s[j - 1]));
        }
      }
    } else {
      LexLeTotal(key(x), key(s[0]));
      var t := Insert(x, s[1..], key);
      InsertSorted(x, s[1..], key);
      forall i, j | 0 <= i < j < |r| ensures LexLe(key(r[i]), key(r[j])) {
        if i == 0 {
          var y := t[j - 1];
          assert y in multiset(t);
          assert y == x || y in multiset(s[1..]);
          if y != x {
            var k :| 1 <= k < |s| && s[k] == y;
          }
        }
      }
    }
  }

  /** OrderBy(key): a sorted permutation of s. */
  function SortBy<T>(s: seq<T>, key: T -> seq<int>): (r: seq<T>)
    ensures multiset(r) == multiset(s)
    ensures |r| == |s|
    ensures SortedBy(r, key)
  {
    if s == [] then []
    else
      var t := SortBy(s[1..], key);
      InsertSorted(s[0], t, key);
      assert s == [s[0]] + s[1..];
      Insert(s[0], t, key)
  }

  /** The elements whose key is k, in order. */
  function WithKey<T>(s: seq<T>, key: T -> seq<int>, k: seq<int>): (r: seq<T>)
    ensures forall i :: 0 <= i < |r| ==> key(r[i]) == k
  {
    if s == [] then []
    else if key(s[0]) == k then [s[0]] + WithKey(s[1..], key, k)
    else WithKey(s[1..], key, k)
  }

  /** Insert puts x before every element of its own key and moves no element past another of the same key. */
  lemma {:induction false} InsertKeepsEqualKeys<T>(x: T, s: seq<T>, key: T -> seq<int>, k: seq<int>)
    ensures WithKey(Insert(x, s, key), key, k) == (if key(x) == k then [x] else []) + WithKey(s, key, k)
  {
    if s == [] || LexLe(key(x), key(s[0])) {
      assert ([x] + s)[1..] == s;
    } else {
      LexLeTotal(key(x), key(x));
      InsertKeepsEqualKeys(x, s[1..], key, k);
      assert ([s[0]] + Insert(x, s[1..], key))[1..] == Insert(x, s[1..], key);
    }
  }

  /** OrderBy is stable: the elements of any one key come in their original order. */
  lemma {:induction false} SortByStable<T>(s: seq<T>, key: T -> seq<int>, k: seq<int>)
    ensures WithKey(SortBy(s, key), key, k) == WithKey(s, key, k)
  {
    if s != [] {
      SortByStable(s[1..], key, k);
      InsertKeepsEqualKeys(s[0], SortBy(s[1..], key), key, k);
    }
  }

  lemma SortByMembers<T>(s: seq<T>, key: T -> seq<int>)
    ensures forall x :: x in SortBy(s, key) <==> x in s
  {
    var r := SortBy(s, key);
    forall x ensures x in r <==> x in s {
      assert x in r <==> x in multiset(r);
      assert x in s <==> x in multiset(s);
    }
  }

  /** Where keeps an ordered sequence ordered. */
  lemma {:induction false} FilterSorted<T>(s: seq<T>, p: T -> bool, key: T -> seq<int>)
    requires SortedBy(s, key)
    ensures SortedBy(Filter(s, p), key)
  {
    if s != [] {
      FilterSorted(s[1..], p, key);
      var r := Filter(s, p);
      var t := Filter(s[1..], p);
      if p(s[0]) {
        forall i, j | 0 <= i < j < |r| ensures LexLe(key(r[i]), key(r[j])) {
          if i == 0 {
            assert r[j] in t;
            var k :| 0 <= k < |s[1..]| && s[1..][k] == r[j];
            assert s[k + 1] == r[j];
          }
        }
      }
    }
  }
}

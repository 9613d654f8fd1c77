/**
 * A stable insertion sort by key, standing for Python's `sorted`/`list.sort`
 * (stable, also with `reverse=True`) and for pandas' `sort_values`.
 * `before(a, b)` says that an element with key `a` may come before one with
 * key `b`; an element is moved behind those in front of it only when its key
 * may not come before theirs, so equal keys keep their input order.
 */
module Sorting {

  ghost predicate TotalPreorder<K(!new)>(before: (K, K) -> bool)
  {
    (forall a, b :: before(a, b) || before(b, a)) &&
    (forall a, b, c :: before(a, b) && before(b, c) ==> before(a, c))
  }

  ghost predicate SortedBy<T, K>(s: seq<T>, key: T -> K, before: (K, K) -> bool)
  {
    forall i, j :: 0 <= i < j < |s| ==> before(key(s[i]), key(s[j]))
  }

  function Insert<T, K>(x: T, s: seq<T>, key: T -> K, before: (K, K) -> bool): (r: seq<T>)
    ensures multiset(r) == multiset(s) + multiset{x}
    ensures |r| == |s| + 1
  {
    if s == [] then [x]
    else if before(key(x), key(s[0])) then [x] + s
    else
      assert s == [s[0]] + s[1..];
      [s[0]] + Insert(x, s[1..], key, before)
  }

  function SortBy<T, K>(s: seq<T>, key: T -> K, before: (K, K) -> bool): (r: seq<T>)
    ensures multiset(r) == multiset(s)
    ensures |r| == |s|
  {
    if s == [] then []
    else
      assert s == [s[0]] + s[1..];
      Insert(s[0], SortBy(s[1..], key, before), key, before)
  }

  /** The tail of an ordered sequence is ordered, and its head may come before every element of it. */
  lemma SortedTail<T, K>(s: seq<T>, key: T -> K, before: (K, K) -> bool)
    requires s != [] && SortedBy(s, key, before)
    ensures SortedBy(s[1..], key, before)
    ensures forall y :: y in s[1..] ==> before(key(s[0]), key(y))
  {
    forall i, j | 0 <= i < j < |s[1..]| ensures before(key(s[1..][i]), key(s[1..][j])) {
      assert s[1..][i] == s[i + 1] && s[1..][j] == s[j + 1];
    }
    forall y | y in s[1..] ensures before(key(s[0]), key(y)) {
      var j :| 0 <= j < |s[1..]| && s[1..][j] == y;
      assert s[j + 1] == y;
    }
  }

  /** An element that may come before every element of an ordered sequence can be put in front of it. */
  lemma SortedCons<T, K>(a: T, t: seq<T>, key: T -> K, before: (K, K) -> bool)
    requires SortedBy(t, key, before) && forall y :: y in t ==> before(key(a), key(y))
    ensures SortedBy([a] + t, key, before)
  {
    var r := [a] + t;
    forall i, j | 0 <= i < j < |r| ensures before(key(r[i]), key(r[j])) {
      assert r[j] == t[j - 1] && t[j - 1] in t;
      if i > 0 {
        assert r[i] == t[i - 1];
      }
    }
  }

  /** Inserting adds only the new element. */
  lemma InsertedElements<T, K>(y: T, x: T, s: seq<T>, key: T -> K, before: (K, K) -> bool)
    requires y in Insert(x, s, key, before)
    ensures y == x || y in s
  {
    assert y in multiset(Insert(x, s, key, before));
  }

  lemma {:induction false} InsertSorted<T, K(!new)>(x: T, s: seq<T>, key: T -> K, before: (K, K) -> bool)
    requires TotalPreorder(before) && SortedBy(s, key, before)
    ensures SortedBy(Insert(x, s, key, before), key, before)
  {
    if s == [] {
    } else if before(key(x), key(s[0])) {
      SortedTail(s, key, before);
      forall y | y in s ensures before(key(x), key(y)) {
        if y != s[0] {
          assert y in s[1..] by {
            assert s == [s[0]] + s[1..];
          }
        }
      }
      SortedCons(x, s, key, before);
    } else {
      SortedTail(s, key, before);
      var t := Insert(x, s[1..], key, before);
      InsertSorted(x, s[1..], key, before);
      forall y | y in t ensures before(key(s[0]), key(y)) {
        InsertedElements(y, x, s[1..], key, before);
      }
      SortedCons(s[0], t, key, before);
    }
  }

  /** The result of `SortBy` is ordered by `before`. */
  lemma {:induction false} SortBySorted<T, K(!new)>(s: seq<T>, key: T -> K, before: (K, K) -> bool)
    requires TotalPreorder(before)
    ensures SortedBy(SortBy(s, key, before), key, before)
  {
    if s != [] {
      SortBySorted(s[1..], key, before);
      InsertSorted(s[0], SortBy(s[1..], key, before), key, before);
    }
  }

  /** The elements of `s` whose key is `k`, in their order in `s`. */
  function WithKey<T, K(==)>(s: seq<T>, key: T -> K, k: K): (r: seq<T>)
    ensures |r| <= |s|
  {
    if s == [] then [] else (if key(s[0]) == k then [s[0]] else []) + WithKey(s[1..], key, k)
  }

  lemma WithKeyCons<T, K>(a: T, t: seq<T>, key: T -> K, k: K)
    ensures WithKey([a] + t, key, k) == (if key(a) == k then [a] else []) + WithKey(t, key, k)
  {
    assert ([a] + t)[1..] == t;
  }

  /** Only an element whose key may come before itself is inserted in front of equal keys. */
  lemma {:induction false} InsertWithKey<T, K>(x: T, s: seq<T>, key: T -> K, before: (K, K) -> bool, k: K)
    requires before(key(x), key(x))
    ensures WithKey(Insert(x, s, key, before), key, k)
         == (if key(x) == k then [x] else []) + WithKey(s, key, k)
  {
    if s == [] {
      WithKeyCons(x, s, key, k);
      assert [x] + s == [x] == Insert(x, s, key, before);
    } else if before(key(x), key(s[0])) {
      WithKeyCons(x, s, key, k);
      assert Insert(x, s, key, before) == [x] + s;
    } else {
      var t := Insert(x, s[1..], key, before);
      assert Insert(x, s, key, before) == [s[0]] + t;
      InsertWithKey(x, s[1..], key, before, k);
      WithKeyCons(s[0], t, key, k);
      WithKeyCons(s[0], s[1..], key, k);
      assert [s[0]] + s[1..] == s;
      var r := Insert(x, s, key, before);
      var rest := WithKey(s[1..], key, k);
      if key(x) == k {
        assert key(s[0]) != k;
        assert WithKey(r, key, k) == WithKey(t, key, k) == [x] + rest;
        assert WithKey(s, key, k) == rest;
      } else if key(s[0]) == k {
        assert WithKey(t, key, k) == rest;
        assert WithKey(r, key, k) == [s[0]] + rest == WithKey(s, key, k);
      } else {
        assert WithKey(t, key, k) == rest;
        assert WithKey(r, key, k) == rest == WithKey(s, key, k);
      }
    }
  }

  /** Stability: the elements sharing any one key keep their input order. */
  lemma {:induction false} SortByStable<T, K(!new)>(s: seq<T>, key: T -> K, before: (K, K) -> bool, k: K)
    requires TotalPreorder(before)
    ensures WithKey(SortBy(s, key, before), key, k) == WithKey(s, key, k)
  {
    if s != [] {
      SortByStable(s[1..], key, before, k);
      assert before(key(s[0]), key(s[0]));
      InsertWithKey(s[0], SortBy(s[1..], key, before), key, before, k);
    }
  }

  /** A sequence that is already ordered is left as it is. */
  lemma {:induction false} SortBySortedIdentity<T, K>(s: seq<T>, key: T -> K, before: (K, K) -> bool)
    requires SortedBy(s, key, before)
    ensures SortBy(s, key, before) == s
  {
    if s != [] {
      var rest := s[1..];
      SortedTail(s, key, before);
      SortBySortedIdentity(rest, key, before);
      assert SortBy(s, key, before) == Insert(s[0], rest, key, before);
      if rest != [] {
        assert rest[0] in rest;
        assert before(key(s[0]), key(rest[0]));
      }
      assert Insert(s[0], rest, key, before) == [s[0]] + rest;
      assert s == [s[0]] + rest;
    }
  }

  /** No element occurs twice. */
  predicate Distinct<T(==)>(s: seq<T>)
  {
    forall i, j :: 0 <= i < j < |s| ==> s[i] != s[j]
  }

  /** Without repeats, the head is not in the tail and the tail has no repeats. */
  lemma DistinctTail<T>(s: seq<T>)
    requires s != [] && Distinct(s)
    ensures s[0] !in s[1..] && Distinct(s[1..])
  {
    forall k | 0 <= k < |s[1..]| ensures s[1..][k] != s[0] {
      assert s[1..][k] == s[k + 1];
    }
    forall i, j | 0 <= i < j < |s[1..]| ensures s[1..][i] != s[1..][j] {
      assert s[1..][i] == s[i + 1] && s[1..][j] == s[j + 1];
    }
  }

  /** A new element in front of a sequence without repeats keeps it without repeats. */
  lemma DistinctCons<T>(a: T, t: seq<T>)
    requires a !in t && Distinct(t)
    ensures Distinct([a] + t)
  {
    var r := [a] + t;
    forall i, j | 0 <= i < j < |r| ensures r[i] != r[j] {
      assert r[j] == t[j - 1];
      if i > 0 {
        assert r[i] == t[i - 1];
      }
    }
  }

  /** An element not yet present is not present after a permutation that leaves it out. */
  lemma AbsentFromInsert<T, K>(y: T, x: T, s: seq<T>, key: T -> K, before: (K, K) -> bool)
    requires y !in s && y != x
    ensures y !in Insert(x, s, key, before)
  {
    assert multiset(s)[y] == 0;
    assert multiset(Insert(x, s, key, before))[y] == 0;
  }

  lemma {:induction false} InsertDistinct<T, K>(x: T, s: seq<T>, key: T -> K, before: (K, K) -> bool)
    requires x !in s && Distinct(s)
    ensures Distinct(Insert(x, s, key, before))
  {
    if s == [] {
    } else if before(key(x), key(s[0])) {
      assert Insert(x, s, key, before) == [x] + s;
      DistinctCons(x, s);
    } else {
      DistinctTail(s);
      assert x !in s[1..];
      InsertDistinct(x, s[1..], key, before);
      AbsentFromInsert(s[0], x, s[1..], key, before);
      DistinctCons(s[0], Insert(x, s[1..], key, before));
    }
  }

  /** Sorting a sequence without repeats gives one without repeats. */
  lemma {:induction false} SortByDistinct<T, K>(s: seq<T>, key: T -> K, before: (K, K) -> bool)
    requires Distinct(s)
    ensures Distinct(SortBy(s, key, before))
  {
    if s != [] {
      var t := SortBy(s[1..], key, before);
      DistinctTail(s);
      SortByDistinct(s[1..], key, before);
      assert s[0] !in t by {
        assert multiset(s[1..])[s[0]] == 0;
        assert multiset(t)[s[0]] == 0;
      }
      InsertDistinct(s[0], t, key, before);
    }
  }

  /** `[f(x) for x in s]`. */
  function MapSeq<T, U>(s: seq<T>, f: T -> U): (r: seq<U>)
    ensures |r| == |s|
  {
    if s == [] then [] else MapSeq(s[..|s| - 1], f) + [f(s[|s| - 1])]
  }

  lemma {:induction false} MapSeqMeaning<T, U>(s: seq<T>, f: T -> U)
    ensures forall i :: 0 <= i < |s| ==> MapSeq(s, f)[i] == f(s[i])
  {
    if s != [] {
      var init := s[..|s| - 1];
      MapSeqMeaning(init, f);
      assert MapSeq(s, f) == MapSeq(init, f) + [f(s[|s| - 1])];
      forall i | 0 <= i < |s| ensures MapSeq(s, f)[i] == f(s[i]) {
        if i < |init| {
          assert init[i] == s[i];
        }
      }
    }
  }

  lemma MapSeqSnoc<T, U>(s: seq<T>, j: nat, f: T -> U)
    requires j < |s|
    ensures MapSeq(s[..j + 1], f) == MapSeq(s[..j], f) + [f(s[j])]
  {
    assert s[..j + 1][..j] == s[..j];
  }

  /** `s[:n]` for `n >= 0`. */
  function Take<T>(s: seq<T>, n: nat): (r: seq<T>)
    ensures |r| == if n < |s| then n else |s|
    ensures r <= s
  {
    if n < |s| then s[..n] else s
  }

  /** `s[:n]` and `s[n:]` put back together give `s`. */
  lemma TakeDrop<T>(s: seq<T>, n: nat)
    ensures Take(s, n) + s[|Take(s, n)|..] == s
    ensures multiset(Take(s, n)) + multiset(s[|Take(s, n)|..]) == multiset(s)
  {
    assert s == s[..|Take(s, n)|] + s[|Take(s, n)|..];
  }

  /** In a sorted sequence every element before a cut comes before every element after it. */
  lemma SortedCut<T, K>(s: seq<T>, key: T -> K, before: (K, K) -> bool, k: nat)
    requires SortedBy(s, key, before) && k <= |s|
    ensures forall x, y :: x in s[..k] && y in s[k..] ==> before(key(x), key(y))
  {
    forall x, y | x in s[..k] && y in s[k..] ensures before(key(x), key(y)) {
      var i :| 0 <= i < k && s[i] == x;
      var j :| 0 <= j < |s[k..]| && s[k..][j] == y;
      assert s[k + j] == y;
    }
  }

  /** Descending order on real keys (`sort(..., reverse=True)`). */
  predicate RealDesc(a: real, b: real) { a >= b }

  /** Ascending order on real keys. */
  predicate RealAsc(a: real, b: real) { a <= b }

  /** Ascending order on integer keys. */
  predicate IntAsc(a: int, b: int) { a <= b }

  lemma RealDescTotal()
    ensures TotalPreorder(RealDesc)
  {
  }

  lemma RealAscTotal()
    ensures TotalPreorder(RealAsc)
  {
  }

  lemma IntAscTotal()
    ensures TotalPreorder(IntAsc)
  {
  }
}

/**
 * The two orderings scripts/plot_results.py sorts with: `sorted()` of a
 * collection of str (implementation names) or int (thread counts), and the
 * stable `list.sort(key=...)` that orders a series by its x value.
 *
 * Both are modelled as insertion sorts that move an element left past the
 * elements strictly greater than it, which yields the same list as Python's
 * stable sort.
 */
module PySort {

  // =======================================================================
  // str ordering and sorted() of strings
  // =======================================================================

  /** Python's `a <= b` on str: code point by code point, a proper prefix
      first. */
  predicate StrLe(a: string, b: string)
    decreases |a|
  {
    a == [] || (b != [] && (a[0] < b[0] || (a[0] == b[0] && StrLe(a[1..], b[1..]))))
  }

  /** Any two strings are ordered one way or the other. */
  lemma {:induction false} StrLeTotal(a: string, b: string)
    ensures StrLe(a, b) || StrLe(b, a)
    decreases |a|
  {
    if a != [] && b != [] && a[0] == b[0] {
      StrLeTotal(a[1..], b[1..]);
    }
  }

  /** Two strings ordered both ways are the same string. */
  lemma {:induction false} StrLeAntisymmetric(a: string, b: string)
    requires StrLe(a, b) && StrLe(b, a)
    ensures a == b
    decreases |a|
  {
    if a != [] {
      StrLeAntisymmetric(a[1..], b[1..]);
      assert a == [a[0]] + a[1..] && b == [b[0]] + b[1..];
    }
  }

  /** The str ordering is transitive. */
  lemma {:induction false} StrLeTransitive(a: string, b: string, c: string)
    requires StrLe(a, b) && StrLe(b, c)
    ensures StrLe(a, c)
    decreases |a|
  {
    if a != [] && a[0] == b[0] && b[0] == c[0] {
      StrLeTransitive(a[1..], b[1..], c[1..]);
    }
  }

  ghost predicate StrSorted(s: seq<string>)
  {
    forall i, j :: 0 <= i < j < |s| ==> StrLe(s[i], s[j])
  }

  function InsertStr(s: seq<string>, x: string): (r: seq<string>)
    ensures multiset(r) == multiset(s) + multiset{x} && |r| == |s| + 1
    decreases |s|
  {
    if s == [] || StrLe(s[|s| - 1], x) then s + [x]
    else
      assert s == s[..|s| - 1] + [s[|s| - 1]];
      InsertStr(s[..|s| - 1], x) + [s[|s| - 1]]
  }

  /** sorted() of a list of str. */
  function SortStrings(s: seq<string>): (r: seq<string>)
    ensures multiset(r) == multiset(s) && |r| == |s|
    decreases |s|
  {
    if s == [] then []
    else
      assert s == s[..|s| - 1] + [s[|s| - 1]];
      InsertStr(SortStrings(s[..|s| - 1]), s[|s| - 1])
  }

  lemma {:induction false} InsertStrSorted(s: seq<string>, x: string)
    requires StrSorted(s)
    ensures StrSorted(InsertStr(s, x))
    decreases |s|
  {
    if s != [] && StrLe(s[|s| - 1], x) {
      forall i | 0 <= i < |s| - 1
        ensures StrLe(s[i], x)
      {
        StrLeTransitive(s[i], s[|s| - 1], x);
      }
    } else if s != [] {
      var prefix, last := s[..|s| - 1], s[|s| - 1];
      InsertStrSorted(prefix, x);
      StrLeTotal(last, x);
      var head := InsertStr(prefix, x);
      forall i | 0 <= i < |head|
        ensures StrLe(head[i], last)
      {
        assert head[i] in multiset(head);
        if head[i] != x {
          assert head[i] in multiset(prefix);
        }
      }
    }
  }

  /** sorted() of strings is in ascending order. */
  lemma {:induction false} SortStringsSorted(s: seq<string>)
    ensures StrSorted(SortStrings(s))
    decreases |s|
  {
    if s != [] {
      SortStringsSorted(s[..|s| - 1]);
      InsertStrSorted(SortStrings(s[..|s| - 1]), s[|s| - 1]);
    }
  }

  // =======================================================================
  // Stable sort by an integer key
  // =======================================================================

  ghost predicate SortedByKey<T>(s: seq<T>, key: T -> int)
  {
    forall i, j :: 0 <= i < j < |s| ==> key(s[i]) <= key(s[j])
  }

  /** The elements of s whose key is v, in their order in s. */
  function WithKey<T(!new)>(s: seq<T>, key: T -> int, v: int): (r: seq<T>)
    ensures forall x :: x in r <==> x in s && key(x) == v
    decreases |s|
  {
    if s == [] then []
    else WithKey(s[..|s| - 1], key, v) + (if key(s[|s| - 1]) == v then [s[|s| - 1]] else [])
  }

  function InsertByKey<T(==,!new)>(s: seq<T>, x: T, key: T -> int): (r: seq<T>)
    ensures multiset(r) == multiset(s) + multiset{x} && |r| == |s| + 1
    decreases |s|
  {
    if s == [] || key(s[|s| - 1]) <= key(x) then s + [x]
    else
      assert s == s[..|s| - 1] + [s[|s| - 1]];
      InsertByKey(s[..|s| - 1], x, key) + [s[|s| - 1]]
  }

  /** list.sort(key=key): a stable sort on key. */
  function SortByKey<T(==,!new)>(s: seq<T>, key: T -> int): (r: seq<T>)
    ensures multiset(r) == multiset(s) && |r| == |s|
    decreases |s|
  {
    if s == [] then []
    else
      assert s == s[..|s| - 1] + [s[|s| - 1]];
      InsertByKey(SortByKey(s[..|s| - 1], key), s[|s| - 1], key)
  }

  lemma {:induction false} InsertByKeySorted<T(!new)>(s: seq<T>, x: T, key: T -> int)
    requires SortedByKey(s, key)
    ensures SortedByKey(InsertByKey(s, x, key), key)
    decreases |s|
  {
    if s != [] && key(s[|s| - 1]) > key(x) {
      var prefix, last := s[..|s| - 1], s[|s| - 1];
      InsertByKeySorted(prefix, x, key);
      var head := InsertByKey(prefix, x, key);
      forall i | 0 <= i < |head|
        ensures key(head[i]) <= key(last)
      {
        assert head[i] in multiset(head);
        if head[i] != x {
          assert head[i] in multiset(prefix);
        }
      }
    }
  }

  /** The sorted list is in ascending key order. */
  lemma {:induction false} SortByKeySorted<T(!new)>(s: seq<T>, key: T -> int)
    ensures SortedByKey(SortByKey(s, key), key)
    decreases |s|
  {
    if s != [] {
      SortByKeySorted(s[..|s| - 1], key);
      InsertByKeySorted(SortByKey(s[..|s| - 1], key), s[|s| - 1], key);
    }
  }

  lemma WithKeySnoc<T(!new)>(s: seq<T>, y: T, key: T -> int, v: int)
    ensures WithKey(s + [y], key, v) == WithKey(s, key, v) + (if key(y) == v then [y] else [])
  {
    assert (s + [y])[..|s|] == s;
  }

  /** Inserting x appends it to the elements with its key: the elements it is
      moved past all have a strictly greater key. */
  lemma {:induction false} InsertByKeyStable<T(!new)>(s: seq<T>, x: T, key: T -> int, v: int)
    ensures WithKey(InsertByKey(s, x, key), key, v) == WithKey(s, key, v) + (if key(x) == v then [x] else [])
    decreases |s|
  {
    if s == [] || key(s[|s| - 1]) <= key(x) {
      WithKeySnoc(s, x, key, v);
    } else {
      var prefix, last := s[..|s| - 1], s[|s| - 1];
      var inserted := InsertByKey(prefix, x, key);
      InsertByKeyStable(prefix, x, key, v);
      WithKeySnoc(inserted, last, key, v);
      SwapAround(WithKey(prefix, key, v), if key(x) == v then [x] else [], if key(last) == v then [last] else []);
    }
  }

  /** Two pieces of which at least one is empty commute. */
  lemma SwapAround<T>(a: seq<T>, b: seq<T>, c: seq<T>)
    requires b == [] || c == []
    ensures (a + b) + c == (a + c) + b
  {
  }

  /** Stability: the elements with equal keys keep their input order. */
  lemma {:induction false} SortByKeyStable<T(!new)>(s: seq<T>, key: T -> int, v: int)
    ensures WithKey(SortByKey(s, key), key, v) == WithKey(s, key, v)
    decreases |s|
  {
    if s != [] {
      var prefix := s[..|s| - 1];
      SortByKeyStable(prefix, key, v);
      InsertByKeyStable(SortByKey(prefix, key), s[|s| - 1], key, v);
    }
  }

  /** The key of an int is itself: sorted() of a list of int. */
  function IntKey(n: int): int
  {
    n
  }

  /** The first element of a list of ints sorted ascending is its minimum
      and the last one its maximum. */
  lemma SortedIntsEnds(s: seq<int>)
    requires s != []
    ensures var r := SortByKey(s, IntKey);
      && r[0] in s && r[|r| - 1] in s
      && forall x :: x in s ==> r[0] <= x <= r[|r| - 1]
  {
    var r := SortByKey(s, IntKey);
    SortByKeySorted(s, IntKey);
    assert r[0] in multiset(r) && r[|r| - 1] in multiset(r);
    forall x | x in s
      ensures r[0] <= x <= r[|r| - 1]
    {
      assert x in multiset(s);
      assert x in r;
      var k :| 0 <= k < |r| && r[k] == x;
      if 0 < k {
        assert IntKey(r[0]) <= IntKey(r[k]);
      }
      if k < |r| - 1 {
        assert IntKey(r[k]) <= IntKey(r[|r| - 1]);
      }
    }
  }
}

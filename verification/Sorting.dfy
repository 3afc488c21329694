/** Stable sorting by an integer key: Python's `list.sort(key=...)`, JavaScript's
    `Array.prototype.sort` and SQL's `ORDER BY` on a key. */
module Sorting {
  function InsertBy<T>(x: T, s: seq<T>, key: T -> int): seq<T> {
    if s == [] || key(x) <= key(s[0]) then [x] + s else [s[0]] + InsertBy(x, s[1..], key)
  }

  function SortBy<T>(s: seq<T>, key: T -> int): seq<T> {
    if s == [] then [] else InsertBy(s[0], SortBy(s[1..], key), key)
  }

  ghost predicate SortedBy<T>(s: seq<T>, key: T -> int) {
    forall i, j :: 0 <= i < j < |s| ==> key(s[i]) <= key(s[j])
  }

  ghost predicate StrictlySortedBy<T>(s: seq<T>, key: T -> int) {
    forall i, j :: 0 <= i < j < |s| ==> key(s[i]) < key(s[j])
  }

  /** The elements whose key is `k`, in order. */
  ghost function WithKey<T>(s: seq<T>, key: T -> int, k: int): seq<T> {
    if s == [] then [] else (if key(s[0]) == k then [s[0]] else []) + WithKey(s[1..], key, k)
  }

  lemma {:induction false} InsertPermutes<T>(x: T, s: seq<T>, key: T -> int)
    ensures multiset(InsertBy(x, s, key)) == multiset([x]) + multiset(s)
  {
    if s == [] || key(x) <= key(s[0]) {
    } else {
      InsertPermutes(x, s[1..], key);
      assert s == [s[0]] + s[1..];
    }
  }

  lemma {:induction false} InsertSorts<T>(x: T, s: seq<T>, key: T -> int)
    requires SortedBy(s, key)
    ensures SortedBy(InsertBy(x, s, key), key)
    ensures forall y :: y in InsertBy(x, s, key) ==> y == x || y in s
  {
    if s == [] || key(x) <= key(s[0]) {
    } else {
      InsertSorts(x, s[1..], key);
      var r := InsertBy(x, s[1..], key);
      forall j | 0 <= j < |r| ensures key(s[0]) <= key(r[j]) {
        assert r[j] in r;
        if r[j] in s[1..] {
          var k :| 0 <= k < |s[1..]| && s[1..][k] == r[j];
          assert s[k + 1] == r[j];
        }
      }
    }
  }

  ghost function IfKey<T>(x: T, key: T -> int, k: int): seq<T> { if key(x) == k then [x] else [] }

  lemma WithKeyCons<T>(x: T, s: seq<T>, key: T -> int, k: int)
    ensures WithKey([x] + s, key, k) == IfKey(x, key, k) + WithKey(s, key, k)
  {
    assert ([x] + s)[1..] == s;
  }

  lemma {:induction false} InsertKeepsTies<T>(x: T, s: seq<T>, key: T -> int, k: int)
    ensures WithKey(InsertBy(x, s, key), key, k) == IfKey(x, key, k) + WithKey(s, key, k)
  {
    if s == [] || key(x) <= key(s[0]) {
      WithKeyCons(x, s, key, k);
    } else {
      var y, rest := s[0], s[1..];
      InsertKeepsTies(x, rest, key, k);
      WithKeyCons(y, InsertBy(x, rest, key), key, k);
      OneOfTwo(IfKey(y, key, k), IfKey(x, key, k), WithKey(rest, key, k));
    }
  }

  lemma OneOfTwo<T>(a: seq<T>, b: seq<T>, c: seq<T>)
    requires a == [] || b == []
    ensures a + (b + c) == b + (a + c)
  {
    assert [] + c == c && [] + (a + c) == a + c && [] + (b + c) == b + c;
  }

  /** Sorting orders the elements, loses and invents none, and keeps ties in input order. */
  lemma {:induction false} SortByCorrect<T>(s: seq<T>, key: T -> int)
    ensures SortedBy(SortBy(s, key), key)
    ensures multiset(SortBy(s, key)) == multiset(s)
    ensures forall k :: WithKey(SortBy(s, key), key, k) == WithKey(s, key, k)
  {
    if s != [] {
      SortByCorrect(s[1..], key);
      InsertSorts(s[0], SortBy(s[1..], key), key);
      InsertPermutes(s[0], SortBy(s[1..], key), key);
      assert s == [s[0]] + s[1..];
      forall k ensures WithKey(SortBy(s, key), key, k) == WithKey(s, key, k) {
        InsertKeepsTies(s[0], SortBy(s[1..], key), key, k);
      }
    }
  }

  lemma SameElements<T>(s: seq<T>, t: seq<T>)
    requires multiset(s) == multiset(t)
    ensures |s| == |t|
    ensures forall x :: x in s <==> x in t
  {
    assert |multiset(s)| == |s| && |multiset(t)| == |t|;
    forall x ensures x in s <==> x in t {
      assert x in s <==> x in multiset(s);
      assert x in t <==> x in multiset(t);
    }
  }

  lemma NonEmptyInto<T>(s: seq<T>, t: seq<T>)
    requires |s| > 0 && forall x :: x in s ==> x in t
    ensures |t| > 0
  {
    assert s[0] in t;
  }

  /** A strictly sorted list is determined by the set of its elements. */
  lemma {:induction false} StrictlySortedUnique<T>(s: seq<T>, t: seq<T>, key: T -> int)
    requires StrictlySortedBy(s, key) && StrictlySortedBy(t, key)
    requires forall x :: x in s <==> x in t
    ensures s == t
  {
    if |t| > 0 { NonEmptyInto(t, s); }
    if |s| > 0 {
      NonEmptyInto(s, t);
      assert s[0] in t;
      assert t[0] in s;
      assert s[0] == t[0];
      forall x ensures x in s[1..] <==> x in t[1..] {
        if x in s[1..] {
          var i :| 0 <= i < |s[1..]| && s[1..][i] == x;
          assert key(s[0]) < key(s[i + 1]);
          assert x in s && x in t && x != t[0];
        }
        if x in t[1..] {
          var i :| 0 <= i < |t[1..]| && t[1..][i] == x;
          assert key(t[0]) < key(t[i + 1]);
          assert x in t && x in s && x != s[0];
        }
      }
      StrictlySortedUnique(s[1..], t[1..], key);
      assert s == [s[0]] + s[1..] && t == [t[0]] + t[1..];
    }
  }

  /** With pairwise different keys the sorted list is strictly sorted. */
  lemma SortDistinct<T>(s: seq<T>, key: T -> int)
    requires forall i, j :: 0 <= i < j < |s| ==> key(s[i]) != key(s[j])
    ensures StrictlySortedBy(SortBy(s, key), key)
  {
    SortByCorrect(s, key);
    var t := SortBy(s, key);
    forall i, j | 0 <= i < j < |t| ensures key(t[i]) < key(t[j]) {
      if key(t[i]) == key(t[j]) {
        TwoOccurrences(t, key, i, j);
        AtMostOneOccurrence(s, key, key(t[i]));
        assert false;
      }
    }
  }

  lemma {:induction false} AtMostOneOccurrence<T>(s: seq<T>, key: T -> int, k: int)
    requires forall i, j :: 0 <= i < j < |s| ==> key(s[i]) != key(s[j])
    ensures |WithKey(s, key, k)| <= 1
    ensures (forall i :: 0 <= i < |s| ==> key(s[i]) != k) ==> WithKey(s, key, k) == []
  {
    if s != [] {
      forall i | 0 <= i < |s[1..]| ensures key(s[1..][i]) != key(s[0]) { assert s[1..][i] == s[i + 1]; }
      AtMostOneOccurrence(s[1..], key, k);
    }
  }

  lemma {:induction false} TwoOccurrences<T>(s: seq<T>, key: T -> int, i: nat, j: nat)
    requires i < j < |s| && key(s[i]) == key(s[j])
    ensures |WithKey(s, key, key(s[i]))| >= 2
  {
    if i > 0 {
      TwoOccurrences(s[1..], key, i - 1, j - 1);
    } else {
      OneOccurrence(s[1..], key, j - 1);
    }
  }

  lemma {:induction false} OneOccurrence<T>(s: seq<T>, key: T -> int, i: nat)
    requires i < |s|
    ensures |WithKey(s, key, key(s[i]))| >= 1
  {
    if i > 0 { OneOccurrence(s[1..], key, i - 1); }
  }

  /** The last element with a given key, in a list and in its stable sort, is the same. */
  lemma {:induction false} LastWithKey<T>(s: seq<T>, key: T -> int, i: nat)
    requires i < |s|
    requires forall j :: i < j < |s| ==> key(s[j]) != key(s[i])
    ensures var f := WithKey(s, key, key(s[i])); f != [] && f[|f| - 1] == s[i]
  {
    if i > 0 {
      LastWithKey(s[1..], key, i - 1);
    } else {
      AbsentKey(s[1..], key, key(s[i]));
    }
  }

  lemma {:induction false} AbsentKey<T>(s: seq<T>, key: T -> int, k: int)
    requires forall j :: 0 <= j < |s| ==> key(s[j]) != k
    ensures WithKey(s, key, k) == []
  {
    if s != [] { AbsentKey(s[1..], key, k); }
  }

  lemma {:induction false} FirstWithKey<T>(s: seq<T>, key: T -> int, i: nat)
    requires i < |s|
    requires forall j :: 0 <= j < i ==> key(s[j]) != key(s[i])
    ensures var f := WithKey(s, key, key(s[i])); f != [] && f[0] == s[i]
  {
    if i > 0 { FirstWithKey(s[1..], key, i - 1); }
  }

  lemma TailSorted<T>(s: seq<T>, key: T -> int)
    requires s != [] && SortedBy(s, key)
    ensures SortedBy(s[1..], key)
    ensures |s| > 1 ==> key(s[0]) <= key(s[1..][0])
  {
    if |s| > 1 { assert s[1..][0] == s[1]; }
  }

  lemma {:induction false} SortKeepsSorted<T>(s: seq<T>, key: T -> int)
    requires SortedBy(s, key)
    ensures SortBy(s, key) == s
  {
    if s != [] {
      TailSorted(s, key);
      var rest := s[1..];
      SortKeepsSorted(rest, key);
      assert SortBy(s, key) == InsertBy(s[0], rest, key);
      assert s == [s[0]] + rest;
    }
  }

  /** Of the elements with one key, the last stays last. */
  lemma LastTieStays<T>(s: seq<T>, key: T -> int, i: nat, j: nat)
    requires i < |s| && j < |SortBy(s, key)| && key(SortBy(s, key)[j]) == key(s[i])
    requires forall n :: i < n < |s| ==> key(s[n]) != key(s[i])
    requires forall n :: j < n < |SortBy(s, key)| ==> key(SortBy(s, key)[n]) != key(s[i])
    ensures SortBy(s, key)[j] == s[i]
  {
    SortByCorrect(s, key);
    LastWithKey(s, key, i);
    LastWithKey(SortBy(s, key), key, j);
  }

  /** Of the elements with one key, the first stays first. */
  lemma FirstTieStays<T>(s: seq<T>, key: T -> int, i: nat, j: nat)
    requires i < |s| && j < |SortBy(s, key)| && key(SortBy(s, key)[j]) == key(s[i])
    requires forall n :: 0 <= n < i ==> key(s[n]) != key(s[i])
    requires forall n :: 0 <= n < j ==> key(SortBy(s, key)[n]) != key(s[i])
    ensures SortBy(s, key)[j] == s[i]
  {
    SortByCorrect(s, key);
    FirstWithKey(s, key, i);
    FirstWithKey(SortBy(s, key), key, j);
  }
}

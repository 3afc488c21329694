/** Looking rows up in sequences, dropping one row, and selecting some. */
module Sequences {
  import opened Prelude

  function At<T>(s: seq<T>, i: nat): Option<T> {
    if i < |s| then Some(s[i]) else None
  }

  /** The first position where `p` holds, or the length. */
  function IndexWhere<T>(s: seq<T>, p: T -> bool): (i: nat)
    ensures i <= |s|
    ensures i < |s| ==> p(s[i])
    ensures forall j :: 0 <= j < i ==> !p(s[j])
  {
    if s == [] || p(s[0]) then 0 else 1 + IndexWhere(s[1..], p)
  }

  /** The first element where `p` holds. */
  function First<T>(s: seq<T>, p: T -> bool): (x: Option<T>)
    ensures x == At(s, IndexWhere(s, p))
  {
    if s == [] then None else if p(s[0]) then Some(s[0]) else First(s[1..], p)
  }

  function Drop<T>(s: seq<T>, i: nat): seq<T>
    requires i < |s|
  {
    s[..i] + s[i + 1..]
  }

  /** All elements of all lists, in order. */
  function Flatten<T>(lists: seq<seq<T>>): seq<T> {
    if lists == [] then [] else Flatten(lists[..|lists| - 1]) + lists[|lists| - 1]
  }

  lemma {:induction false} IndexInConcat<T>(s: seq<T>, t: seq<T>, p: T -> bool)
    ensures IndexWhere(s + t, p) == if IndexWhere(s, p) < |s| then IndexWhere(s, p) else |s| + IndexWhere(t, p)
  {
    if s == [] {
      assert s + t == t;
    } else {
      assert (s + t)[1..] == s[1..] + t;
      IndexInConcat(s[1..], t, p);
    }
  }

  lemma {:induction false} IndexSame<T>(s: seq<T>, t: seq<T>, p: T -> bool)
    requires |s| == |t| && forall i :: 0 <= i < |s| ==> p(s[i]) == p(t[i])
    ensures IndexWhere(s, p) == IndexWhere(t, p)
  {
    if s != [] {
      assert p(s[0]) == p(t[0]);
      forall i | 0 <= i < |s[1..]| ensures p(s[1..][i]) == p(t[1..][i]) {
        assert p(s[i + 1]) == p(t[i + 1]);
      }
      IndexSame(s[1..], t[1..], p);
    }
  }

  lemma {:induction false} FirstInConcat<T>(s: seq<T>, t: seq<T>, p: T -> bool)
    ensures First(s + t, p) == if First(s, p).Some? then First(s, p) else First(t, p)
  {
    if s == [] {
      assert s + t == t;
    } else {
      assert (s + t)[0] == s[0] && (s + t)[1..] == s[1..] + t;
      FirstInConcat(s[1..], t, p);
    }
  }

  /** Dropping an element that is not looked for does not change what is found. */
  lemma FirstAfterDrop<T>(s: seq<T>, i: nat, p: T -> bool)
    requires i < |s| && !p(s[i])
    ensures First(Drop(s, i), p) == First(s, p)
  {
    SplitsAround(s, i);
    FirstWithout(s[..i], s[i], s[i + 1..], p);
  }

  lemma SplitsAround<T>(s: seq<T>, i: nat)
    requires i < |s|
    ensures s[..i] + ([s[i]] + s[i + 1..]) == s
  {
  }

  lemma FirstWithout<T>(before: seq<T>, x: T, after: seq<T>, p: T -> bool)
    requires !p(x)
    ensures First(before + after, p) == First(before + ([x] + after), p)
  {
    FirstInConcat(before, after, p);
    FirstInConcat(before, [x] + after, p);
    FirstInConcat([x], after, p);
    assert First([x], p) == None;
  }

  lemma DroppedRow<T>(s: seq<T>, i: nat, j: nat)
    requires i < |s| && j < |s| - 1
    ensures Drop(s, i)[j] == s[if j < i then j else j + 1]
  {
  }

  // ----- Filters -----

  function Filter<T>(s: seq<T>, p: T -> bool): seq<T> {
    if s == [] then [] else (if p(s[0]) then [s[0]] else []) + Filter(s[1..], p)
  }

  lemma {:induction false} FilterConcat<T>(s: seq<T>, t: seq<T>, p: T -> bool)
    ensures Filter(s + t, p) == Filter(s, p) + Filter(t, p)
  {
    if s == [] {
      assert s + t == t;
    } else {
      var head := if p(s[0]) then [s[0]] else [];
      assert (s + t)[0] == s[0] && (s + t)[1..] == s[1..] + t;
      FilterConcat(s[1..], t, p);
      assert head + (Filter(s[1..], p) + Filter(t, p)) == (head + Filter(s[1..], p)) + Filter(t, p);
    }
  }

  lemma {:induction false} FilterAll<T>(s: seq<T>, p: T -> bool)
    requires forall x :: x in s ==> p(x)
    ensures Filter(s, p) == s
  {
    if s != [] { FilterAll(s[1..], p); assert s == [s[0]] + s[1..]; }
  }

  lemma {:induction false} FilterNone<T>(s: seq<T>, p: T -> bool)
    requires forall x :: x in s ==> !p(x)
    ensures Filter(s, p) == []
  {
    if s != [] { FilterNone(s[1..], p); }
  }

  lemma {:induction false} FilterAgrees<T>(s: seq<T>, p: T -> bool, q: T -> bool)
    requires forall x :: x in s ==> p(x) == q(x)
    ensures Filter(s, p) == Filter(s, q)
  {
    if s != [] { FilterAgrees(s[1..], p, q); }
  }

  lemma {:induction false} FilterIn<T>(s: seq<T>, p: T -> bool)
    ensures forall x :: x in Filter(s, p) <==> x in s && p(x)
    ensures NoDuplicates(s) ==> NoDuplicates(Filter(s, p))
  {
    if s != [] {
      FilterIn(s[1..], p);
      assert s == [s[0]] + s[1..];
      if NoDuplicates(s) {
        assert s[0] !in s[1..];
        forall i, j | 0 <= i < j < |s[1..]| ensures s[1..][i] != s[1..][j] { assert s[i + 1] != s[j + 1]; }
      }
    }
  }

  /** Dropping what `q` rejects does not affect a selection inside it. */
  lemma {:induction false} FilterTwice<T>(s: seq<T>, p: T -> bool, q: T -> bool)
    requires forall x :: x in s && p(x) ==> q(x)
    ensures Filter(Filter(s, q), p) == Filter(s, p)
  {
    if s != [] {
      FilterTwice(s[1..], p, q);
      FilterConcat(if q(s[0]) then [s[0]] else [], Filter(s[1..], q), p);
      assert s == [s[0]] + s[1..];
    }
  }
}

/** Pages of an ordered query: `OFFSET page * size LIMIT size` and the page count of
    backend-python/app/common/pagination.py. */
module Pagination {
  import opened Prelude
  import opened Sorting

  function Least(a: int, b: int): int { if a < b then a else b }

  /** The offset of a page, `page * size`. */
  function Offset(page: nat, size: nat): nat {
    if page == 0 then 0 else Offset(page - 1, size) + size
  }

  lemma {:induction false} OffsetIsProduct(page: nat, size: nat)
    ensures Offset(page, size) == page * size
  {
    if page > 0 {
      OffsetIsProduct(page - 1, size);
      assert (page - 1) * size == page * size - size;
    }
  }

  /** Where page `page` starts in a result of `total` rows. */
  function Cut(total: nat, page: nat, size: nat): (c: nat)
    ensures c <= total && c <= Least(Offset(page + 1, size), total)
  {
    Least(Offset(page, size), total)
  }

  /** The rows a database returns for one page of an ordered result. */
  function PageOf<T>(rows: seq<T>, page: nat, size: nat): seq<T> {
    rows[Cut(|rows|, page, size)..Cut(|rows|, page + 1, size)]
  }

  /** The ceiling of total / size, and no pages for size zero. */
  function TotalPages(total: nat, size: nat): nat {
    if size == 0 then 0 else (total + size - 1) / size
  }

  /** Pages 0..n of one ordered result, one after the other. */
  function Concatenated<T>(rows: seq<T>, n: nat, size: nat): seq<T> {
    if n == 0 then [] else Concatenated(rows, n - 1, size) + PageOf(rows, n - 1, size)
  }

  lemma {:induction false} PagesArePrefix<T>(rows: seq<T>, n: nat, size: nat)
    ensures Concatenated(rows, n, size) == rows[..Cut(|rows|, n, size)]
  {
    if n > 0 { PagesArePrefix(rows, n - 1, size); }
  }

  lemma PagesCover(total: nat, size: nat)
    requires size >= 1
    ensures total <= Offset(TotalPages(total, size), size)
    ensures TotalPages(total, size) > 0 ==> Offset(TotalPages(total, size) - 1, size) < total
  {
    var p := TotalPages(total, size);
    assert total + size - 1 == p * size + (total + size - 1) % size;
    OffsetIsProduct(p, size);
  }

  /** With one fixed order the pages 0..totalPages-1 give every row once, in order, none of them is
      empty, and every later page is. */
  lemma PagesPartition<T>(rows: seq<T>, size: nat)
    requires size >= 1
    ensures Concatenated(rows, TotalPages(|rows|, size), size) == rows
    ensures forall k :: 0 <= k < TotalPages(|rows|, size) ==> PageOf(rows, k, size) != []
    ensures forall k :: TotalPages(|rows|, size) <= k ==> PageOf(rows, k, size) == []
  {
    var n := TotalPages(|rows|, size);
    PagesCover(|rows|, size);
    PagesArePrefix(rows, n, size);
    forall k | 0 <= k < n ensures PageOf(rows, k, size) != [] {
      OffsetMonotone(k, n - 1, size);
    }
    forall k | n <= k ensures PageOf(rows, k, size) == [] {
      OffsetMonotone(n, k, size);
    }
  }

  lemma {:induction false} OffsetMonotone(a: nat, b: nat, size: nat)
    requires a <= b
    ensures Offset(a, size) <= Offset(b, size)
  {
    if a < b { OffsetMonotone(a, b - 1, size); }
  }

  // ----- Pages fetched by separate queries -----

  /** An order the database may return: all rows, sorted by the key, ties in any order. */
  ghost predicate OrderedAnswer<T>(rows: seq<T>, key: T -> int, order: seq<T>) {
    multiset(order) == multiset(rows) && SortedBy(order, key)
  }

  /** Page k taken from the order of query k. */
  function Fetched<T>(orders: seq<seq<T>>, n: nat, size: nat): seq<T>
    requires n <= |orders|
  {
    if n == 0 then [] else Fetched(orders, n - 1, size) + PageOf(orders[n - 1], n - 1, size)
  }

  ghost predicate AllOrdered<T>(rows: seq<T>, key: T -> int, orders: seq<seq<T>>) {
    forall k :: 0 <= k < |orders| ==> OrderedAnswer(rows, key, orders[k])
  }

  /** No two rows with equal keys stand on either side of a page boundary. */
  ghost predicate NoTieAtBoundary<T>(order: seq<T>, key: T -> int, size: nat) {
    forall k: nat :: k < TotalPages(|order|, size) && 0 < Offset(k, size) < |order| ==>
      key(order[Offset(k, size) - 1]) != key(order[Offset(k, size)])
  }

  lemma {:induction false} PrefixCounts<T>(s: seq<T>, key: T -> int, c: nat, r: int, x: T)
    requires c <= |s|
    requires forall i :: 0 <= i < c ==> key(s[i]) <= r
    requires forall i :: c <= i < |s| ==> key(s[i]) > r
    ensures multiset(s[..c])[x] == if key(x) <= r then multiset(s)[x] else 0
  {
    assert s == s[..c] + s[c..];
    assert forall i :: 0 <= i < |s[c..]| ==> s[c..][i] == s[c + i];
    assert forall y :: y in s[c..] ==> key(y) > r;
    assert forall y :: y in s[..c] ==> key(y) <= r;
    if key(x) <= r {
      assert x !in s[c..];
    } else {
      assert x !in s[..c];
    }
  }

  lemma {:induction false} SplitPoint<T>(s: seq<T>, key: T -> int, r: int) returns (c: nat)
    requires SortedBy(s, key)
    ensures c <= |s|
    ensures forall i :: 0 <= i < c ==> key(s[i]) <= r
    ensures forall i :: c <= i < |s| ==> key(s[i]) > r
  {
    c := 0;
    while c < |s| && key(s[c]) <= r
      invariant c <= |s|
      invariant forall i :: 0 <= i < c ==> key(s[i]) <= r
    {
      c := c + 1;
    }
    forall i | c <= i < |s| ensures key(s[i]) > r { assert i == c || key(s[c]) <= key(s[i]); }
  }

  /** Where the key rises, every order has the same rows in front. */
  lemma PrefixFixed<T>(s: seq<T>, t: seq<T>, key: T -> int, b: nat)
    requires SortedBy(s, key) && SortedBy(t, key) && multiset(s) == multiset(t)
    requires b <= |s| && (0 < b < |s| ==> key(s[b - 1]) != key(s[b]))
    ensures b <= |t| && multiset(s[..b]) == multiset(t[..b])
  {
    SameElements(s, t);
    if b == 0 || b == |s| {
      assert s[..|s|] == s && t[..|t|] == t;
    } else {
      var r := key(s[b - 1]);
      var c := SplitPoint(t, key, r);
      forall i | 0 <= i < b ensures key(s[i]) <= r { assert i == b - 1 || key(s[i]) <= key(s[b - 1]); }
      forall i | b <= i < |s| ensures key(s[i]) > r {
        assert key(s[b - 1]) <= key(s[b]);
        assert i == b || key(s[b]) <= key(s[i]);
      }
      forall x ensures multiset(s[..b])[x] == multiset(t[..c])[x] {
        PrefixCounts(s, key, b, r, x);
        PrefixCounts(t, key, c, r, x);
      }
      var ms, mt := multiset(s[..b]), multiset(t[..c]);
      assert ms == mt;
      assert |ms| == b && |mt| == c;
    }
  }

  lemma BoundaryPrefix<T>(rows: seq<T>, key: T -> int, base: seq<T>, order: seq<T>, k: nat, size: nat)
    requires size >= 1 && OrderedAnswer(rows, key, base) && OrderedAnswer(rows, key, order)
    requires NoTieAtBoundary(base, key, size) && k <= TotalPages(|base|, size)
    ensures PrefixAgrees(base, order, k, size)
  {
    SameElements(base, order);
    PagesCover(|base|, size);
    var b := Cut(|base|, k, size);
    PrefixFixed(base, order, key, b);
  }

  /** Up to the start of page k the order has the same rows as `base`. */
  ghost predicate PrefixAgrees<T>(base: seq<T>, order: seq<T>, k: nat, size: nat) {
    |order| == |base|
    && multiset(order[..Cut(|order|, k, size)]) == multiset(base[..Cut(|base|, k, size)])
  }

  lemma {:induction false} FetchedIsPrefix<T>(base: seq<T>, orders: seq<seq<T>>, n: nat, size: nat)
    requires n <= |orders|
    requires forall j :: 0 <= j < n ==>
               PrefixAgrees(base, orders[j], j, size) && PrefixAgrees(base, orders[j], j + 1, size)
    ensures multiset(Fetched(orders, n, size)) == multiset(base[..Cut(|base|, n, size)])
  {
    if n > 0 {
      FetchedIsPrefix(base, orders, n - 1, size);
      var order := orders[n - 1];
      ExtendPrefix(Fetched(orders, n - 1, size), base, order, Cut(|order|, n - 1, size), Cut(|order|, n, size));
    }
  }

  lemma ExtendPrefix<T>(f: seq<T>, s: seq<T>, t: seq<T>, lo: nat, hi: nat)
    requires lo <= hi <= |s| && |s| == |t| && multiset(f) == multiset(s[..lo])
    requires multiset(t[..lo]) == multiset(s[..lo]) && multiset(t[..hi]) == multiset(s[..hi])
    ensures multiset(f + t[lo..hi]) == multiset(s[..hi])
  {
    assert t[..hi] == t[..lo] + t[lo..hi];
  }

  function Swapped<T>(s: seq<T>, b: nat): seq<T>
    requires 0 < b < |s|
  {
    s[b - 1 := s[b]][b := s[b - 1]]
  }

  lemma SwapKeepsOrder<T>(rows: seq<T>, key: T -> int, base: seq<T>, b: nat)
    requires OrderedAnswer(rows, key, base) && 0 < b < |base| && key(base[b - 1]) == key(base[b])
    ensures OrderedAnswer(rows, key, Swapped(base, b))
  {
    var t := Swapped(base, b);
    assert multiset(t) == multiset(base);
    forall i, j | 0 <= i < j < |t| ensures key(t[i]) <= key(t[j]) {
      assert key(t[i]) == key(base[i]) && key(t[j]) == key(base[j]);
    }
  }

  /** The same order for every query but the k-th, which exchanges the rows around its start. */
  function OneSwap<T>(base: seq<T>, m: nat, k: nat, b: nat): seq<seq<T>>
    requires 0 < b < |base|
  {
    seq(m, i => if i == k then Swapped(base, b) else base)
  }

  /** The page that starts at `b` no longer shows the row that stood there. */
  lemma SwappedPage<T>(base: seq<T>, b: nat, hi: nat)
    requires NoDuplicates(base) && 0 < b < hi <= |base|
    ensures base[b] !in Swapped(base, b)[b..hi]
  {
  }

  lemma OtherSlice<T>(base: seq<T>, b: nat, lo: nat, hi: nat)
    requires NoDuplicates(base) && b < |base| && lo <= hi <= |base| && !(lo <= b < hi)
    ensures base[b] !in base[lo..hi]
  {
  }

  lemma PageLacks<T>(base: seq<T>, m: nat, k: nat, page: nat, size: nat)
    requires size >= 1 && NoDuplicates(base) && page < m && 0 < Offset(k, size) < |base|
    ensures base[Offset(k, size)] !in PageOf(OneSwap(base, m, k, Offset(k, size))[page], page, size)
  {
    if page == k {
      SwappedPage(base, Offset(k, size), Cut(|base|, page + 1, size));
    } else {
      OtherPageLacks(base, k, page, size);
    }
  }

  lemma OtherPageLacks<T>(base: seq<T>, k: nat, page: nat, size: nat)
    requires size >= 1 && NoDuplicates(base) && page != k && 0 < Offset(k, size) < |base|
    ensures base[Offset(k, size)] !in PageOf(base, page, size)
  {
    if page < k { OffsetMonotone(page + 1, k, size); } else { OffsetMonotone(k + 1, page, size); }
    OtherSlice(base, Offset(k, size), Cut(|base|, page, size), Cut(|base|, page + 1, size));
  }

  lemma {:induction false} LostRow<T>(orders: seq<seq<T>>, n: nat, size: nat, x: T)
    requires n <= |orders| && forall page :: 0 <= page < n ==> x !in PageOf(orders[page], page, size)
    ensures x !in Fetched(orders, n, size)
  {
    if n > 0 { LostRow(orders, n - 1, size, x); }
  }

  lemma OneSwapOrdered<T>(rows: seq<T>, key: T -> int, base: seq<T>, m: nat, k: nat, b: nat)
    requires OrderedAnswer(rows, key, base) && 0 < b < |base| && key(base[b - 1]) == key(base[b])
    ensures AllOrdered(rows, key, OneSwap(base, m, k, b))
  {
    SwapKeepsOrder(rows, key, base, b);
  }

  lemma NoTieGivesEveryRow<T>(rows: seq<T>, key: T -> int, base: seq<T>, orders: seq<seq<T>>, size: nat)
    requires size >= 1 && OrderedAnswer(rows, key, base) && NoTieAtBoundary(base, key, size)
    requires |orders| == TotalPages(|base|, size) && AllOrdered(rows, key, orders)
    ensures multiset(Fetched(orders, |orders|, size)) == multiset(rows)
  {
    var n := |orders|;
    forall j | 0 <= j < n
      ensures PrefixAgrees(base, orders[j], j, size) && PrefixAgrees(base, orders[j], j + 1, size)
    {
      BoundaryPrefix(rows, key, base, orders[j], j, size);
      BoundaryPrefix(rows, key, base, orders[j], j + 1, size);
    }
    FetchedIsPrefix(base, orders, n, size);
    PagesCover(|base|, size);
    assert base[..Cut(|base|, n, size)] == base;
  }

  /** The orders that break the promise when rows with equal keys meet at a boundary. */
  lemma TieLosesRow<T>(rows: seq<T>, key: T -> int, base: seq<T>, size: nat) returns (orders: seq<seq<T>>)
    requires size >= 1 && NoDuplicates(base) && OrderedAnswer(rows, key, base) && !NoTieAtBoundary(base, key, size)
    ensures |orders| == TotalPages(|base|, size) && AllOrdered(rows, key, orders)
    ensures multiset(Fetched(orders, |orders|, size)) != multiset(rows)
  {
    var n := TotalPages(|base|, size);
    var k: nat :| k < n && 0 < Offset(k, size) < |base| && key(base[Offset(k, size) - 1]) == key(base[Offset(k, size)]);
    var b := Offset(k, size);
    orders := OneSwap(base, n, k, b);
    OneSwapOrdered(rows, key, base, n, k, b);
    forall page | 0 <= page < n ensures base[b] !in PageOf(orders[page], page, size) {
      PageLacks(base, n, k, page, size);
    }
    LostRow(orders, n, size, base[b]);
    SameElements(rows, base);
    assert base[b] in multiset(rows) && base[b] !in multiset(Fetched(orders, n, size));
  }

  ghost predicate EveryRowOnce<T(!new)>(rows: seq<T>, key: T -> int, size: nat) {
    forall orders: seq<seq<T>> :: |orders| == TotalPages(|rows|, size) && AllOrdered(rows, key, orders) ==>
      multiset(Fetched(orders, |orders|, size)) == multiset(rows)
  }

  /** Fetching the pages by separate queries gives every row once, however the database breaks
      ties in each query, exactly when no two rows with equal keys meet at a page boundary. */
  lemma SeparateQueriesExactly<T(!new)>(rows: seq<T>, key: T -> int, base: seq<T>, size: nat)
    requires size >= 1 && NoDuplicates(base) && OrderedAnswer(rows, key, base)
    ensures EveryRowOnce(rows, key, size) <==> NoTieAtBoundary(base, key, size)
  {
    SameElements(rows, base);
    if NoTieAtBoundary(base, key, size) {
      forall orders: seq<seq<T>> | |orders| == TotalPages(|rows|, size) && AllOrdered(rows, key, orders)
        ensures multiset(Fetched(orders, |orders|, size)) == multiset(rows)
      {
        NoTieGivesEveryRow(rows, key, base, orders, size);
      }
    } else {
      var orders := TieLosesRow(rows, key, base, size);
    }
  }
}

/** The state timeline of frontend/src/modules/devices/lib/contactSegments.ts. Times are whole
    milliseconds. */
module Timeline {
  import opened Sorting

  datatype Reading = Reading(time: int, value: real)
  datatype Segment = Segment(active: bool, start: int, end: int)

  function TimeOf(p: Reading): int { p.time }

  /** The segments still to be produced when `pts` remain, `cur` is the state since `start`. */
  function Fold(pts: seq<Reading>, isActive: real -> bool, cur: bool, start: int, to: int): seq<Segment> {
    if pts == [] then [Segment(cur, start, to)]
    else if pts[0].time <= start then Fold(pts[1..], isActive, isActive(pts[0].value), start, to)
    else if isActive(pts[0].value) != cur then
      [Segment(cur, start, pts[0].time)] + Fold(pts[1..], isActive, isActive(pts[0].value), pts[0].time, to)
    else Fold(pts[1..], isActive, cur, start, to)
  }

  function StateSegments(points: seq<Reading>, from: int, to: int, isActive: real -> bool): seq<Segment> {
    var sorted := SortBy(points, TimeOf);
    if sorted == [] then [] else Fold(sorted, isActive, isActive(sorted[0].value), from, to)
  }

  method BuildStateSegments(points: seq<Reading>, from: int, to: int, isActive: real -> bool)
    returns (segments: seq<Segment>)
    ensures segments == StateSegments(points, from, to, isActive)
  {
    SortedFacts(points);
    if |points| == 0 {
      return [];
    }
    var sorted := SortBy(points, TimeOf);
    segments := [];
    var currentState := isActive(sorted[0].value);
    var segmentStart := from;
    ghost var goal := StateSegments(points, from, to, isActive);
    assert sorted[0..] == sorted;
    for i := 0 to |sorted|
      invariant segments + Fold(sorted[i..], isActive, currentState, segmentStart, to) == goal
    {
      FoldStep(sorted, i, isActive, currentState, segmentStart, to);
      var t := sorted[i].time;
      var state := isActive(sorted[i].value);
      if t <= segmentStart {
        currentState := state;
        continue;
      }
      if state != currentState {
        var segment := Segment(currentState, segmentStart, t);
        ConcatAssociates(segments, segment, Fold(sorted[i + 1..], isActive, state, t, to));
        segments := segments + [segment];
        segmentStart := t;
        currentState := state;
      }
    }
    segments := segments + [Segment(currentState, segmentStart, to)];
  }

  lemma ConcatAssociates<T>(s: seq<T>, x: T, t: seq<T>)
    ensures s + ([x] + t) == (s + [x]) + t
  {
  }

  lemma FoldStep(sorted: seq<Reading>, i: nat, isActive: real -> bool, cur: bool, start: int, to: int)
    requires i < |sorted|
    ensures var state, rest := isActive(sorted[i].value), sorted[i + 1..];
      Fold(sorted[i..], isActive, cur, start, to) ==
      if sorted[i].time <= start then Fold(rest, isActive, state, start, to)
      else if state != cur then [Segment(cur, start, sorted[i].time)] + Fold(rest, isActive, state, sorted[i].time, to)
      else Fold(rest, isActive, cur, start, to)
  {
    assert sorted[i..][1..] == sorted[i + 1..];
  }

  // ----- What the timeline should show, stated on the unsorted input -----

  /** Point `k` is the latest one at or before `x`; of several at one time, the last in the list. */
  ghost predicate InForce(points: seq<Reading>, x: int, k: int) {
    0 <= k < |points| && points[k].time <= x
    && forall j :: 0 <= j < |points| && points[j].time <= x ==>
         points[j].time < points[k].time || (points[j].time == points[k].time && j <= k)
  }

  /** Point `k` is the earliest one; of several at one time, the first in the list. */
  ghost predicate Earliest(points: seq<Reading>, k: int) {
    0 <= k < |points|
    && forall j :: 0 <= j < |points| ==>
         points[k].time < points[j].time || (points[j].time == points[k].time && k <= j)
  }

  lemma {:induction false} EarliestExists(points: seq<Reading>)
    requires points != []
    ensures exists k :: Earliest(points, k)
  {
    if |points| == 1 {
      assert Earliest(points, 0);
    } else {
      EarliestExists(points[1..]);
      var k :| Earliest(points[1..], k);
      forall j | 1 <= j < |points|
        ensures points[k + 1].time < points[j].time || (points[j].time == points[k + 1].time && k + 1 <= j)
      {
        assert points[j] == points[1..][j - 1];
      }
      if points[0].time <= points[k + 1].time {
        assert Earliest(points, 0);
      } else {
        assert Earliest(points, k + 1);
      }
    }
  }

  /** The state at instant `x`: that of the point in force, or of the earliest point before any
      point is in force. */
  ghost function StateAt(points: seq<Reading>, isActive: real -> bool, x: int): bool
    requires points != []
  {
    if exists k :: InForce(points, x, k) then
      var k :| InForce(points, x, k); isActive(points[k].value)
    else
      EarliestExists(points);
      var k :| Earliest(points, k); isActive(points[k].value)
  }

  // ----- Tiling -----

  ghost predicate Contiguous(segs: seq<Segment>) {
    forall i :: 0 < i < |segs| ==> segs[i - 1].end == segs[i].start
  }

  ghost predicate StartsIncrease(segs: seq<Segment>) {
    forall i, j :: 0 <= i < j < |segs| ==> segs[i].start < segs[j].start
  }

  ghost predicate Tiles(segs: seq<Segment>, from: int, to: int) {
    segs != [] && segs[0].start == from && segs[|segs| - 1].end == to && Contiguous(segs) && StartsIncrease(segs)
  }

  function TotalDuration(segs: seq<Segment>): int {
    if segs == [] then 0 else segs[0].end - segs[0].start + TotalDuration(segs[1..])
  }

  lemma TilesCons(seg: Segment, rest: seq<Segment>, to: int)
    requires Tiles(rest, seg.end, to) && seg.start < seg.end
    ensures Tiles([seg] + rest, seg.start, to)
    ensures TotalDuration([seg] + rest) == seg.end - seg.start + TotalDuration(rest)
  {
    var segs := [seg] + rest;
    assert segs[1..] == rest;
    forall i | 0 < i < |segs| ensures segs[i - 1].end == segs[i].start {
      if i > 1 { assert rest[i - 1 - 1].end == rest[i - 1].start; }
    }
    forall i, j | 0 <= i < j < |segs| ensures segs[i].start < segs[j].start {
      assert j == 1 || rest[0].start < rest[j - 1].start;
      if i > 0 { assert rest[i - 1].start < rest[j - 1].start; }
    }
  }

  lemma {:induction false} FoldTiles(pts: seq<Reading>, isActive: real -> bool, cur: bool, start: int, to: int)
    ensures Tiles(Fold(pts, isActive, cur, start, to), start, to)
    ensures TotalDuration(Fold(pts, isActive, cur, start, to)) == to - start
  {
    if pts == [] {
    } else if pts[0].time <= start {
      FoldTiles(pts[1..], isActive, isActive(pts[0].value), start, to);
    } else if isActive(pts[0].value) != cur {
      FoldTiles(pts[1..], isActive, isActive(pts[0].value), pts[0].time, to);
      var rest := Fold(pts[1..], isActive, isActive(pts[0].value), pts[0].time, to);
      TilesCons(Segment(cur, start, pts[0].time), rest, to);
    } else {
      FoldTiles(pts[1..], isActive, cur, start, to);
    }
  }

  lemma SortedFacts(points: seq<Reading>)
    ensures var sorted := SortBy(points, TimeOf);
      SortedBy(sorted, TimeOf) && |sorted| == |points| && (forall p :: p in sorted <==> p in points)
  {
    SortByCorrect(points, TimeOf);
    SameElements(points, SortBy(points, TimeOf));
  }

  /** The timeline has no gaps or overlaps, whatever the points: it starts at `from`, ends at
      `to`, each segment starts where the previous one ends, and the durations sum to `to - from`. */
  lemma TimelineTiles(points: seq<Reading>, from: int, to: int, isActive: real -> bool)
    requires points != []
    ensures Tiles(StateSegments(points, from, to, isActive), from, to)
    ensures TotalDuration(StateSegments(points, from, to, isActive)) == to - from
  {
    SortedFacts(points);
    var sorted := SortBy(points, TimeOf);
    FoldTiles(sorted, isActive, isActive(sorted[0].value), from, to);
  }

  // ----- The state at every instant -----

  /** The state a list of segments shows at `x`: that of the last segment starting at or before it. */
  function StateIn(segs: seq<Segment>, x: int): bool
    requires segs != []
  {
    if |segs| > 1 && segs[1].start <= x then StateIn(segs[1..], x) else segs[0].active
  }

  lemma {:induction false} StateInSegment(segs: seq<Segment>, i: nat, x: int)
    requires i < |segs| && StartsIncrease(segs)
    requires segs[i].start <= x && (i + 1 < |segs| ==> x < segs[i + 1].start)
    ensures StateIn(segs, x) == segs[i].active
  {
    if i > 0 {
      assert segs[1].start <= segs[i].start;
      StateInSegment(segs[1..], i - 1, x);
    }
  }

  /** The state of the last of the sorted points at or before `x`, or `cur` if there is none. */
  function LastState(pts: seq<Reading>, isActive: real -> bool, cur: bool, x: int): bool {
    if pts == [] || pts[0].time > x then cur else LastState(pts[1..], isActive, isActive(pts[0].value), x)
  }

  lemma {:induction false} FoldShowsLastState(pts: seq<Reading>, isActive: real -> bool, cur: bool, start: int, to: int,
                                              x: int)
    requires SortedBy(pts, TimeOf) && start <= x
    ensures Fold(pts, isActive, cur, start, to) != []
    ensures StateIn(Fold(pts, isActive, cur, start, to), x) == LastState(pts, isActive, cur, x)
  {
    FoldTiles(pts, isActive, cur, start, to);
    if pts == [] {
    } else if pts[0].time <= start {
      FoldShowsLastState(pts[1..], isActive, isActive(pts[0].value), start, to, x);
    } else if isActive(pts[0].value) != cur {
      var rest := Fold(pts[1..], isActive, isActive(pts[0].value), pts[0].time, to);
      FoldTiles(pts[1..], isActive, isActive(pts[0].value), pts[0].time, to);
      assert ([Segment(cur, start, pts[0].time)] + rest)[1..] == rest;
      if pts[0].time <= x {
        FoldShowsLastState(pts[1..], isActive, isActive(pts[0].value), pts[0].time, to, x);
      }
    } else {
      FoldShowsLastState(pts[1..], isActive, cur, start, to, x);
      if |pts| > 1 { assert TimeOf(pts[0]) <= TimeOf(pts[1]); }
    }
  }

  lemma {:induction false} LastStateIs(pts: seq<Reading>, isActive: real -> bool, cur: bool, x: int, m: nat)
    requires SortedBy(pts, TimeOf) && m < |pts| && pts[m].time <= x
    requires forall j :: m < j < |pts| ==> pts[j].time > x
    ensures LastState(pts, isActive, cur, x) == isActive(pts[m].value)
  {
    if m > 0 {
      assert TimeOf(pts[0]) <= TimeOf(pts[m]);
      LastStateIs(pts[1..], isActive, isActive(pts[0].value), x, m - 1);
    } else {
      assert pts[1..] == [] || pts[1..][0] == pts[1];
    }
  }

  lemma {:induction false} LastAtOrBefore(pts: seq<Reading>, x: int) returns (m: int)
    requires SortedBy(pts, TimeOf)
    ensures -1 <= m < |pts|
    ensures forall j :: 0 <= j < |pts| ==> (pts[j].time <= x <==> j <= m)
  {
    m := |pts| - 1;
    while m >= 0 && pts[m].time > x
      invariant -1 <= m < |pts|
      invariant forall j :: m < j < |pts| ==> pts[j].time > x
    {
      m := m - 1;
    }
    forall j | 0 <= j <= m ensures pts[j].time <= x {
      assert j == m || TimeOf(pts[j]) <= TimeOf(pts[m]);
    }
  }

  lemma StateAtInForce(points: seq<Reading>, isActive: real -> bool, x: int, k: int)
    requires InForce(points, x, k)
    ensures StateAt(points, isActive, x) == isActive(points[k].value)
  {
    forall k' | InForce(points, x, k') ensures k' == k {}
  }

  lemma StateAtEarliest(points: seq<Reading>, isActive: real -> bool, x: int, k: int)
    requires Earliest(points, k) && x < points[k].time
    ensures StateAt(points, isActive, x) == isActive(points[k].value)
  {
    forall k' | Earliest(points, k') ensures k' == k {}
    forall k' ensures !InForce(points, x, k') {}
  }

  /** The point in force stands, in the stable sort, last of those at or before `x`. */
  lemma InForceInSorted(points: seq<Reading>, x: int, k: int, m: int)
    requires InForce(points, x, k)
    requires var sorted := SortBy(points, TimeOf);
      -1 <= m < |sorted| && forall j :: 0 <= j < |sorted| ==> (sorted[j].time <= x <==> j <= m)
    ensures m >= 0 && SortBy(points, TimeOf)[m] == points[k]
  {
    SortedFacts(points);
    var sorted := SortBy(points, TimeOf);
    assert points[k] in sorted;
    var i :| 0 <= i < |sorted| && sorted[i] == points[k];
    assert i <= m && (i == m || TimeOf(sorted[i]) <= TimeOf(sorted[m]));
    assert sorted[m] in points;
    var j :| 0 <= j < |points| && points[j] == sorted[m];
    LastTieStays(points, TimeOf, k, m);
  }

  lemma EarliestInSorted(points: seq<Reading>, k: int)
    requires Earliest(points, k)
    ensures SortBy(points, TimeOf) != [] && SortBy(points, TimeOf)[0] == points[k]
  {
    SortedFacts(points);
    var sorted := SortBy(points, TimeOf);
    assert points[k] in sorted;
    var i :| 0 <= i < |sorted| && sorted[i] == points[k];
    assert i == 0 || TimeOf(sorted[0]) <= TimeOf(sorted[i]);
    assert sorted[0] in points;
    FirstTieStays(points, TimeOf, k, 0);
  }

  /** On the sorted list the state is found by position; on the input list by `InForce`. */
  lemma SortedStateIsStateAt(points: seq<Reading>, isActive: real -> bool, x: int)
    requires points != []
    ensures var sorted := SortBy(points, TimeOf);
      sorted != [] && LastState(sorted, isActive, isActive(sorted[0].value), x) == StateAt(points, isActive, x)
  {
    SortedFacts(points);
    var sorted := SortBy(points, TimeOf);
    var m := LastAtOrBefore(sorted, x);
    EarliestExists(points);
    var first :| Earliest(points, first);
    EarliestInSorted(points, first);
    if m >= 0 {
      assert sorted[m] in points;
      SomeInForce(points, x);
      var k :| InForce(points, x, k);
      InForceInSorted(points, x, k, m);
      StateAtInForce(points, isActive, x, k);
      LastStateIs(sorted, isActive, isActive(sorted[0].value), x, m);
    } else {
      StateAtEarliest(points, isActive, x, first);
    }
  }

  lemma {:induction false} SomeInForce(points: seq<Reading>, x: int)
    requires exists j :: 0 <= j < |points| && points[j].time <= x
    ensures exists k :: InForce(points, x, k)
  {
    var last := |points| - 1;
    var init := points[..last];
    if j :| 0 <= j < |init| && init[j].time <= x {
      SomeInForce(init, x);
      var k :| InForce(init, x, k);
      if points[last].time <= x && points[k].time <= points[last].time {
        assert InForce(points, x, last);
      } else {
        assert InForce(points, x, k);
      }
    } else {
      assert forall i :: 0 <= i < last ==> points[i] == init[i];
      assert InForce(points, x, last);
    }
  }

  /** At every instant from `from` on, the timeline shows the state of the last point at or before
      that instant, or of the first point if there is none; this does not depend on `to`. */
  lemma TimelineShowsState(points: seq<Reading>, from: int, to: int, isActive: real -> bool, x: int)
    requires points != [] && from <= x
    ensures StateSegments(points, from, to, isActive) != []
    ensures StateIn(StateSegments(points, from, to, isActive), x) == StateAt(points, isActive, x)
    ensures forall i :: 0 <= i < |StateSegments(points, from, to, isActive)| ==>
      var s := StateSegments(points, from, to, isActive)[i];
      s.start <= x < s.end ==> s.active == StateAt(points, isActive, x)
  {
    SortedFacts(points);
    var sorted := SortBy(points, TimeOf);
    FoldShowsLastState(sorted, isActive, isActive(sorted[0].value), from, to, x);
    SortedStateIsStateAt(points, isActive, x);
    TimelineTiles(points, from, to, isActive);
    var segs := StateSegments(points, from, to, isActive);
    forall i | 0 <= i < |segs| && segs[i].start <= x < segs[i].end
      ensures segs[i].active == StateAt(points, isActive, x)
    {
      if i + 1 < |segs| { assert segs[i + 1 - 1].end == segs[i + 1].start; }
      StateInSegment(segs, i, x);
    }
  }

  // ----- Where segments meet -----

  ghost predicate StartsAfterFirst(segs: seq<Segment>, t: int) {
    exists i :: 0 < i < |segs| && segs[i].start == t
  }

  /** Some point at `t` reports another state than the one in force just before `t`. */
  ghost predicate Change(points: seq<Reading>, isActive: real -> bool, t: int)
    requires points != []
  {
    var before := StateAt(points, isActive, t - 1);
    exists k :: 0 <= k < |points| && points[k].time == t && isActive(points[k].value) != before
  }

  ghost predicate SortedChange(pts: seq<Reading>, isActive: real -> bool, cur: bool, t: int) {
    exists k :: 0 <= k < |pts| && pts[k].time == t && isActive(pts[k].value) != LastState(pts, isActive, cur, t - 1)
  }

  lemma TailOfSorted(pts: seq<Reading>)
    requires pts != [] && SortedBy(pts, TimeOf)
    ensures SortedBy(pts[1..], TimeOf)
    ensures forall p :: p in pts[1..] ==> pts[0].time <= p.time
  {
    forall p | p in pts[1..] ensures pts[0].time <= p.time {
      var i :| 0 <= i < |pts[1..]| && pts[1..][i] == p;
      assert TimeOf(pts[0]) <= TimeOf(pts[i + 1]);
    }
  }

  lemma EarlyLastState(pts: seq<Reading>, isActive: real -> bool, cur: bool, x: int)
    requires forall p :: p in pts ==> x < p.time
    ensures LastState(pts, isActive, cur, x) == cur
  {
    if pts != [] { assert pts[0] in pts; }
  }

  lemma SortedChangeCons(pts: seq<Reading>, isActive: real -> bool, cur: bool, cur': bool, t: int)
    requires pts != []
    requires LastState(pts, isActive, cur, t - 1) == LastState(pts[1..], isActive, cur', t - 1)
    ensures SortedChange(pts, isActive, cur, t) <==>
      (pts[0].time == t && isActive(pts[0].value) != LastState(pts, isActive, cur, t - 1))
      || SortedChange(pts[1..], isActive, cur', t)
  {
    if k :| 0 <= k < |pts| && pts[k].time == t && isActive(pts[k].value) != LastState(pts, isActive, cur, t - 1) {
      if k > 0 { assert pts[1..][k - 1] == pts[k]; }
    }
    if k :| 0 <= k < |pts[1..]| && pts[1..][k].time == t
            && isActive(pts[1..][k].value) != LastState(pts[1..], isActive, cur', t - 1) {
      assert pts[k + 1] == pts[1..][k];
    }
  }

  lemma {:induction false} FoldStartsAtChanges(pts: seq<Reading>, isActive: real -> bool, cur: bool, start: int,
                                               to: int, t: int)
    requires SortedBy(pts, TimeOf) && start < t
    ensures StartsAfterFirst(Fold(pts, isActive, cur, start, to), t) <==> SortedChange(pts, isActive, cur, t)
  {
    if pts != [] {
      var p, rest := pts[0], pts[1..];
      TailOfSorted(pts);
      if p.time <= start {
        FoldStartsAtChanges(rest, isActive, isActive(p.value), start, to, t);
        SortedChangeCons(pts, isActive, cur, isActive(p.value), t);
      } else if t < p.time {
        EarlyLastState(pts, isActive, cur, t - 1);
        LateFold(pts, isActive, cur, start, to, t);
      } else if isActive(p.value) != cur {
        var more := Fold(rest, isActive, isActive(p.value), p.time, to);
        var segs := [Segment(cur, start, p.time)] + more;
        FoldTiles(rest, isActive, isActive(p.value), p.time, to);
        if t == p.time {
          assert segs[1].start == t;
          EarlyLastState(pts, isActive, cur, t - 1);
          assert pts[0].time == t;
        } else {
          FoldStartsAtChanges(rest, isActive, isActive(p.value), p.time, to, t);
          SortedChangeCons(pts, isActive, cur, isActive(p.value), t);
          if i :| 0 < i < |segs| && segs[i].start == t { assert more[i - 1].start == t; }
          if i :| 0 < i < |more| && more[i].start == t { assert segs[i + 1].start == t; }
        }
      } else {
        FoldStartsAtChanges(rest, isActive, cur, start, to, t);
        if t == p.time {
          EarlyLastState(pts, isActive, cur, t - 1);
          EarlyLastState(rest, isActive, cur, t - 1);
        }
        SortedChangeCons(pts, isActive, cur, cur, t);
      }
    }
  }

  /** No segment starts strictly between the current start and the first remaining point. */
  lemma {:induction false} LateFold(pts: seq<Reading>, isActive: real -> bool, cur: bool, start: int, to: int, t: int)
    requires start < t && forall p :: p in pts ==> t < p.time
    ensures !StartsAfterFirst(Fold(pts, isActive, cur, start, to), t)
  {
    if pts != [] {
      assert pts[0] in pts;
      if isActive(pts[0].value) != cur {
        FoldTiles(pts[1..], isActive, isActive(pts[0].value), pts[0].time, to);
        var more := Fold(pts[1..], isActive, isActive(pts[0].value), pts[0].time, to);
        var segs := [Segment(cur, start, pts[0].time)] + more;
        forall i | 0 < i < |segs| ensures segs[i].start != t {
          assert i == 1 || more[0].start < more[i - 1].start;
        }
      } else {
        LateFold(pts[1..], isActive, cur, start, to, t);
      }
    }
  }

  /** A new segment starts at `t` after `from` exactly when some point at `t` reports a change. */
  lemma SegmentsStartAtChanges(points: seq<Reading>, from: int, to: int, isActive: real -> bool, t: int)
    requires points != [] && from < t
    ensures StartsAfterFirst(StateSegments(points, from, to, isActive), t) <==> Change(points, isActive, t)
  {
    SortedFacts(points);
    var sorted := SortBy(points, TimeOf);
    var cur := isActive(sorted[0].value);
    FoldStartsAtChanges(sorted, isActive, cur, from, to, t);
    SortedStateIsStateAt(points, isActive, t - 1);
    ChangeOnSorted(points, sorted, isActive, cur, t);
  }

  lemma ChangeOnSorted(points: seq<Reading>, sorted: seq<Reading>, isActive: real -> bool, cur: bool, t: int)
    requires points != [] && forall p :: p in sorted <==> p in points
    requires LastState(sorted, isActive, cur, t - 1) == StateAt(points, isActive, t - 1)
    ensures SortedChange(sorted, isActive, cur, t) <==> Change(points, isActive, t)
  {
    var before := StateAt(points, isActive, t - 1);
    if k :| 0 <= k < |points| && points[k].time == t && isActive(points[k].value) != before {
      assert points[k] in sorted;
    }
    if k :| 0 <= k < |sorted| && sorted[k].time == t && isActive(sorted[k].value) != before {
      assert sorted[k] in points;
    }
  }

  // ----- Lengths -----

  ghost predicate NonNegative(segs: seq<Segment>) {
    forall i :: 0 <= i < |segs| ==> segs[i].start <= segs[i].end
  }

  lemma NonNegativeIff(segs: seq<Segment>, from: int, to: int)
    requires Tiles(segs, from, to)
    ensures NonNegative(segs) <==> segs[|segs| - 1].start <= to
  {
    forall i | 0 <= i < |segs| - 1 ensures segs[i].start <= segs[i].end {
      assert segs[i + 1 - 1].end == segs[i + 1].start;
    }
  }

  lemma LateChangesShow(points: seq<Reading>, from: int, to: int, isActive: real -> bool, k: int)
    requires 0 <= k < |points| && from <= to < points[k].time
    requires isActive(points[k].value) != StateAt(points, isActive, to)
    ensures var segs := StateSegments(points, from, to, isActive); segs != [] && to < segs[|segs| - 1].start
  {
    var segs := StateSegments(points, from, to, isActive);
    var t := points[k].time;
    TimelineTiles(points, from, to, isActive);
    if segs[|segs| - 1].start <= to {
      TimelineShowsState(points, from, to, isActive, t - 1);
      TimelineShowsState(points, from, to, isActive, to);
      StateInSegment(segs, |segs| - 1, t - 1);
      StateInSegment(segs, |segs| - 1, to);
      SegmentsStartAtChanges(points, from, to, isActive, t);
      LastStartIsGreatest(segs, t);
    }
  }

  lemma LastStartIsGreatest(segs: seq<Segment>, t: int)
    requires StartsIncrease(segs) && StartsAfterFirst(segs, t)
    ensures t <= segs[|segs| - 1].start
  {
    var i :| 0 < i < |segs| && segs[i].start == t;
    assert i == |segs| - 1 || segs[i].start < segs[|segs| - 1].start;
  }

  lemma LateStartMeansChange(points: seq<Reading>, from: int, to: int, isActive: real -> bool)
    requires points != [] && from <= to
    requires var segs := StateSegments(points, from, to, isActive); segs != [] && to < segs[|segs| - 1].start
    ensures exists k :: 0 <= k < |points| && to < points[k].time
                        && isActive(points[k].value) != StateAt(points, isActive, to)
  {
    var segs := StateSegments(points, from, to, isActive);
    TimelineTiles(points, from, to, isActive);
    var i := FirstStartAfter(segs, to);
    var t := segs[i].start;
    assert StartsAfterFirst(segs, t);
    SegmentsStartAtChanges(points, from, to, isActive, t);
    TimelineShowsState(points, from, to, isActive, t - 1);
    TimelineShowsState(points, from, to, isActive, to);
    StateInSegment(segs, i - 1, t - 1);
    StateInSegment(segs, i - 1, to);
  }

  /** Every segment has a length of at least zero exactly when the range is not reversed and no
      point after `to` changes the state. */
  lemma NonNegativeExactly(points: seq<Reading>, from: int, to: int, isActive: real -> bool)
    requires points != []
    ensures NonNegative(StateSegments(points, from, to, isActive))
      <==> from <= to && forall k :: 0 <= k < |points| && to < points[k].time ==>
             isActive(points[k].value) == StateAt(points, isActive, to)
  {
    var segs := StateSegments(points, from, to, isActive);
    TimelineTiles(points, from, to, isActive);
    NonNegativeIff(segs, from, to);
    assert |segs| == 1 || segs[0].start < segs[|segs| - 1].start;
    if from <= to {
      if k :| 0 <= k < |points| && to < points[k].time && isActive(points[k].value) != StateAt(points, isActive, to) {
        LateChangesShow(points, from, to, isActive, k);
      } else if to < segs[|segs| - 1].start {
        LateStartMeansChange(points, from, to, isActive);
      }
    }
  }

  /** A change after the range makes the last segment end before it starts. */
  lemma LateChangeReverses(isActive: real -> bool)
    requires isActive(1.0) && !isActive(0.0)
    ensures !NonNegative(StateSegments([Reading(0, 1.0), Reading(20, 0.0)], 0, 10, isActive))
  {
    var points := [Reading(0, 1.0), Reading(20, 0.0)];
    assert InForce(points, 10, 0);
    StateAtInForce(points, isActive, 10, 0);
    assert 10 < points[1].time && isActive(points[1].value) != StateAt(points, isActive, 10);
    NonNegativeExactly(points, 0, 10, isActive);
  }

  lemma {:induction false} FirstStartAfter(segs: seq<Segment>, to: int) returns (i: int)
    requires segs != [] && segs[0].start <= to < segs[|segs| - 1].start
    ensures 0 < i < |segs| && to < segs[i].start && segs[i - 1].start <= to
  {
    i := 1;
    while segs[i].start <= to
      invariant 0 < i < |segs| && segs[i - 1].start <= to
      decreases |segs| - i
    {
      i := i + 1;
    }
  }

  // ----- Alternation -----

  ghost predicate Alternating(segs: seq<Segment>) {
    forall i :: 0 < i < |segs| ==> segs[i - 1].active != segs[i].active
  }

  /** Several points share the instant `t`, one of them reports a change, and the last undoes it. */
  ghost predicate Blip(points: seq<Reading>, isActive: real -> bool, t: int)
    requires points != []
  {
    Change(points, isActive, t) && StateAt(points, isActive, t) == StateAt(points, isActive, t - 1)
  }

  /** Neighbouring segments differ exactly when no change after `from` is undone in the same instant. */
  lemma AlternatesExactly(points: seq<Reading>, from: int, to: int, isActive: real -> bool)
    requires points != []
    ensures Alternating(StateSegments(points, from, to, isActive))
      <==> forall t :: from < t ==> !Blip(points, isActive, t)
  {
    var segs := StateSegments(points, from, to, isActive);
    TimelineTiles(points, from, to, isActive);
    forall i | 0 < i < |segs|
      ensures from < segs[i].start
      ensures segs[i - 1].active != segs[i].active <==> !Blip(points, isActive, segs[i].start)
    {
      var t := segs[i].start;
      assert segs[0].start < t && segs[i - 1].start < t;
      assert StartsAfterFirst(segs, t);
      SegmentsStartAtChanges(points, from, to, isActive, t);
      TimelineShowsState(points, from, to, isActive, t);
      TimelineShowsState(points, from, to, isActive, t - 1);
      if i + 1 < |segs| { assert segs[i].start < segs[i + 1].start; }
      StateInSegment(segs, i, t);
      StateInSegment(segs, i - 1, t - 1);
    }
    if Alternating(segs) {
      forall t | from < t ensures !Blip(points, isActive, t) {
        SegmentsStartAtChanges(points, from, to, isActive, t);
        if StartsAfterFirst(segs, t) {
          var i :| 0 < i < |segs| && segs[i].start == t;
          assert segs[i - 1].active != segs[i].active;
        }
      }
    }
  }

  /** Off and on again in the same instant leaves two neighbouring segments that are both on. */
  lemma SameInstantBlip(isActive: real -> bool)
    requires isActive(1.0) && !isActive(0.0)
    ensures !Alternating(StateSegments([Reading(0, 1.0), Reading(5, 0.0), Reading(5, 1.0)], 0, 10, isActive))
  {
    var points := [Reading(0, 1.0), Reading(5, 0.0), Reading(5, 1.0)];
    assert InForce(points, 4, 0) && InForce(points, 5, 2);
    StateAtInForce(points, isActive, 4, 0);
    StateAtInForce(points, isActive, 5, 2);
    assert points[1].time == 5 && isActive(points[1].value) != StateAt(points, isActive, 5 - 1);
    assert Blip(points, isActive, 5);
    AlternatesExactly(points, 0, 10, isActive);
  }

  ghost predicate DistinctTimes(points: seq<Reading>) {
    forall i, j :: 0 <= i < j < |points| ==> points[i].time != points[j].time
  }

  /** With distinct timestamps neighbouring segments always differ. */
  lemma DistinctTimesAlternate(points: seq<Reading>, from: int, to: int, isActive: real -> bool)
    requires points != [] && DistinctTimes(points)
    ensures Alternating(StateSegments(points, from, to, isActive))
  {
    AlternatesExactly(points, from, to, isActive);
    forall t | Change(points, isActive, t)
      ensures StateAt(points, isActive, t) != StateAt(points, isActive, t - 1)
    {
      var before := StateAt(points, isActive, t - 1);
      var k :| 0 <= k < |points| && points[k].time == t && isActive(points[k].value) != before;
      assert InForce(points, t, k);
      forall k' | InForce(points, t, k') ensures k' == k {}
    }
  }

  /** Input order is irrelevant when timestamps are distinct. */
  lemma OrderIrrelevant(points: seq<Reading>, points': seq<Reading>, from: int, to: int, isActive: real -> bool)
    requires multiset(points) == multiset(points') && DistinctTimes(points)
    ensures StateSegments(points, from, to, isActive) == StateSegments(points', from, to, isActive)
  {
    SortedFacts(points);
    SortedFacts(points');
    SameElements(points, points');
    SortDistinct(points, TimeOf);
    var s, t := SortBy(points, TimeOf), SortBy(points', TimeOf);
    SortByCorrect(points, TimeOf);
    SortByCorrect(points', TimeOf);
    StrictlyToo(s, t);
    StrictlySortedUnique(s, t, TimeOf);
  }

  /** A sorted rearrangement of a strictly sorted list is strictly sorted. */
  lemma StrictlyToo(s: seq<Reading>, t: seq<Reading>)
    requires StrictlySortedBy(s, TimeOf) && SortedBy(t, TimeOf) && multiset(s) == multiset(t)
    ensures StrictlySortedBy(t, TimeOf)
  {
    SameElements(s, t);
    forall i, j | 0 <= i < j < |t| ensures TimeOf(t[i]) < TimeOf(t[j]) {
      if t[i] == t[j] {
        TwiceInMultiset(t, i, j);
        OnceInMultiset(s, t[i]);
      } else {
        assert t[i] in s && t[j] in s;
      }
    }
  }

  lemma TwiceInMultiset(t: seq<Reading>, i: nat, j: nat)
    requires i < j < |t| && t[i] == t[j]
    ensures multiset(t)[t[i]] >= 2
  {
    assert t == t[..j] + t[j..];
    assert t[..j][i] == t[i] && t[j..][0] == t[j];
  }

  lemma {:induction false} OnceInMultiset(s: seq<Reading>, x: Reading)
    requires StrictlySortedBy(s, TimeOf)
    ensures multiset(s)[x] <= 1
  {
    if s != [] {
      assert s == [s[0]] + s[1..];
      OnceInMultiset(s[1..], x);
      if x == s[0] {
        forall i | 0 <= i < |s[1..]| ensures s[1..][i] != x { assert TimeOf(s[0]) < TimeOf(s[i + 1]); }
      }
    }
  }

  // ----- Round trip -----

  /** One point at the start of each segment. */
  function PointsOf(segs: seq<Segment>, on: real, off: real): seq<Reading> {
    seq(|segs|, i requires 0 <= i < |segs| => Reading(segs[i].start, if segs[i].active then on else off))
  }

  lemma {:induction false} FoldBack(segs: seq<Segment>, isActive: real -> bool, on: real, off: real, to: int)
    requires segs != [] && Tiles(segs, segs[0].start, to) && Alternating(segs)
    requires isActive(on) && !isActive(off)
    ensures Fold(PointsOf(segs, on, off)[1..], isActive, segs[0].active, segs[0].start, to) == segs
  {
    var rest := segs[1..];
    assert PointsOf(segs, on, off)[1..] == PointsOf(rest, on, off);
    if rest == [] {
      assert segs == [segs[0]];
    } else {
      assert segs[0].start < segs[1].start && segs[1 - 1].end == segs[1].start && segs[1 - 1].active != segs[1].active;
      assert Contiguous(rest) by {
        forall i | 0 < i < |rest| ensures rest[i - 1].end == rest[i].start {
          assert segs[i + 1 - 1].end == segs[i + 1].start;
        }
      }
      assert Alternating(rest) by {
        forall i | 0 < i < |rest| ensures rest[i - 1].active != rest[i].active {
          assert segs[i + 1 - 1].active != segs[i + 1].active;
        }
      }
      FoldBack(rest, isActive, on, off, to);
      assert segs == [segs[0]] + rest;
    }
  }

  /** Turning a timeline back into points and rebuilding it gives the same timeline exactly when
      its neighbouring segments differ. */
  lemma RebuildExactly(points: seq<Reading>, from: int, to: int, isActive: real -> bool, on: real, off: real)
    requires points != [] && isActive(on) && !isActive(off)
    ensures var segs := StateSegments(points, from, to, isActive);
      StateSegments(PointsOf(segs, on, off), from, to, isActive) == segs <==> Alternating(segs)
  {
    var segs := StateSegments(points, from, to, isActive);
    TimelineTiles(points, from, to, isActive);
    var back := PointsOf(segs, on, off);
    assert SortedBy(back, TimeOf);
    SortKeepsSorted(back, TimeOf);
    if Alternating(segs) {
      FoldBack(segs, isActive, on, off, to);
    } else {
      DistinctTimesAlternate(back, from, to, isActive);
    }
  }

  // ----- Canonical form -----

  ghost predicate Canonical(segs: seq<Segment>, from: int, to: int) {
    Tiles(segs, from, to) && Alternating(segs) && forall i :: 0 <= i < |segs| ==> segs[i].start < segs[i].end
  }

  lemma CanonicalTail(segs: seq<Segment>, from: int, to: int)
    requires Canonical(segs, from, to) && |segs| > 1
    ensures Canonical(segs[1..], segs[0].end, to)
    ensures from < segs[0].end < to
    ensures forall x :: segs[0].end <= x ==> StateIn(segs, x) == StateIn(segs[1..], x)
    ensures StateIn(segs, segs[0].end) != segs[0].active
  {
    var rest := segs[1..];
    assert |rest| == 1 || segs[1].start < segs[2].start;
    assert segs[1 - 1].active != segs[1].active;
    assert segs[1 - 1].end == segs[1].start;
    forall i | 0 < i < |rest| ensures rest[i - 1].end == rest[i].start && rest[i - 1].active != rest[i].active {
      assert segs[i + 1 - 1].end == segs[i + 1].start && segs[i + 1 - 1].active != segs[i + 1].active;
    }
    assert segs[0].start < segs[0].end && segs[|segs| - 1].start < to;
    assert |segs| == 2 || segs[1].start < segs[|segs| - 1].start;
  }

  lemma HeadNotShorter(s: seq<Segment>, t: seq<Segment>, from: int, to: int)
    requires Canonical(s, from, to) && Canonical(t, from, to)
    requires forall x :: from <= x < to ==> StateIn(s, x) == StateIn(t, x)
    ensures s[0].active == t[0].active && t[0].end <= s[0].end
  {
    CanonicalHead(s, from, to);
    CanonicalHead(t, from, to);
    assert s[0].start < s[0].end && t[0].start < t[0].end;
    assert StateIn(s, from) == StateIn(t, from);
    if s[0].end < t[0].end {
      CanonicalTail(s, from, to);
    }
  }

  lemma HeadsAgree(s: seq<Segment>, t: seq<Segment>, from: int, to: int)
    requires Canonical(s, from, to) && Canonical(t, from, to)
    requires forall x :: from <= x < to ==> StateIn(s, x) == StateIn(t, x)
    ensures s[0] == t[0] && (|s| == 1 <==> |t| == 1)
  {
    HeadNotShorter(s, t, from, to);
    HeadNotShorter(t, s, from, to);
    CanonicalHead(s, from, to);
    CanonicalHead(t, from, to);
  }

  lemma TailsAgree(s: seq<Segment>, t: seq<Segment>, from: int, to: int)
    requires Canonical(s, from, to) && Canonical(t, from, to) && |s| > 1 && |t| > 1
    requires forall x :: from <= x < to ==> StateIn(s, x) == StateIn(t, x)
    requires s[0] == t[0]
    ensures Canonical(s[1..], s[0].end, to) && Canonical(t[1..], s[0].end, to)
    ensures forall x :: s[0].end <= x < to ==> StateIn(s[1..], x) == StateIn(t[1..], x)
  {
    CanonicalTail(s, from, to);
    CanonicalTail(t, from, to);
    forall x | s[0].end <= x < to ensures StateIn(s[1..], x) == StateIn(t[1..], x) {
      assert StateIn(s, x) == StateIn(t, x);
    }
  }

  /** Two canonical tilings that show the same state at every instant of the range are equal: the
      timeline is the only such list. */
  lemma {:induction false} CanonicalUnique(s: seq<Segment>, t: seq<Segment>, from: int, to: int)
    requires Canonical(s, from, to) && Canonical(t, from, to)
    requires forall x :: from <= x < to ==> StateIn(s, x) == StateIn(t, x)
    ensures s == t
    decreases |s|
  {
    HeadsAgree(s, t, from, to);
    if |s| > 1 {
      TailsAgree(s, t, from, to);
      CanonicalUnique(s[1..], t[1..], s[0].end, to);
    }
    assert s == [s[0]] + s[1..] && t == [t[0]] + t[1..];
  }

  lemma CanonicalHead(s: seq<Segment>, from: int, to: int)
    requires Canonical(s, from, to)
    ensures s[0].end <= to
    ensures |s| == 1 <==> s[0].end == to
    ensures forall x :: from <= x < s[0].end ==> StateIn(s, x) == s[0].active
  {
    if |s| > 1 { CanonicalTail(s, from, to); assert s[1 - 1].end == s[1].start; }
  }

  /** Points read from a half-open range with distinct times give the canonical timeline. */
  lemma TimelineCanonical(points: seq<Reading>, from: int, to: int, isActive: real -> bool)
    requires points != [] && DistinctTimes(points) && from < to
    requires forall k :: 0 <= k < |points| ==> points[k].time < to
    ensures Canonical(StateSegments(points, from, to, isActive), from, to)
  {
    var segs := StateSegments(points, from, to, isActive);
    TimelineTiles(points, from, to, isActive);
    DistinctTimesAlternate(points, from, to, isActive);
    forall i | 0 <= i < |segs| ensures segs[i].start < segs[i].end {
      if i + 1 < |segs| {
        assert segs[i + 1 - 1].end == segs[i + 1].start;
      } else if i > 0 {
        assert segs[0].start < segs[i].start;
        assert StartsAfterFirst(segs, segs[i].start);
        SegmentsStartAtChanges(points, from, to, isActive, segs[i].start);
      }
    }
  }
}

/** From runs of messages and registry changes to what the screen shows: the history of an identifier
    is what was filed under its tags, and the timeline drawn from it follows the device's reports. */
module TelemetryHistory {
  import opened Prelude
  import opened Sequences
  import opened Sorting
  import opened Timeline
  import opened Registry
  import opened RegistryInvariant
  import opened DeviceIdentity
  import opened Telemetry
  import opened TelemetryRuns

  // ----- What is filed under some tags -----

  /** The record of a field that a step files under one of the tags. */
  function FiledAs(w: World, step: Step, tags: seq<string>, f: string): Option<Record> {
    if step.Change? then None
    else
      var tag := Sanitize(TagFor(w.db, step.name));
      var fields := Normalize(FieldsToFile(Resolve(w.db, step.name), step.body));
      if tag != "" && tag in tags && f in fields then Some(Record(tag, step.time, f, fields[f])) else None
  }

  function Listing<T>(x: Option<T>): seq<T> { if x.Some? then [x.value] else [] }

  /** What a run files under the tags, in the order of its steps. */
  function Filings(w: World, steps: seq<Step>, tags: seq<string>, f: string): seq<Record>
    decreases |steps|
  {
    if steps == [] then []
    else Listing(FiledAs(w, steps[0], tags, f)) + Filings(Next(w, steps[0]), steps[1..], tags, f)
  }

  /** `Filings` without recursion: each step with the registry as it was then. */
  lemma {:induction false} FilingsAre(w: World, steps: seq<Step>, tags: seq<string>, f: string, r: Record)
    ensures r in Filings(w, steps, tags, f) <==>
      exists i :: 0 <= i < |steps| && FiledAs(WorldAt(w, steps, i), steps[i], tags, f) == Some(r)
    decreases |steps|
  {
    if steps != [] {
      var next, rest := Next(w, steps[0]), steps[1..];
      FilingsAre(next, rest, tags, f, r);
      assert WorldAt(w, steps, 0) == w;
      forall j | 1 <= j < |steps| ensures WorldAt(w, steps, j) == WorldAt(next, rest, j - 1) {
        WorldAtLater(w, steps, j);
      }
      if i :| 0 <= i < |rest| && FiledAs(WorldAt(next, rest, i), rest[i], tags, f) == Some(r) {
        assert FiledAs(WorldAt(w, steps, i + 1), steps[i + 1], tags, f) == Some(r);
      }
      if i :| 0 <= i < |steps| && FiledAs(WorldAt(w, steps, i), steps[i], tags, f) == Some(r) {
        if i > 0 { assert FiledAs(WorldAt(next, rest, i - 1), rest[i - 1], tags, f) == Some(r); }
      }
    }
  }

  /** Healing, for the history as a whole: a reading filed under an unresolved name is among the filings
      that an identifier of the first device later named so asks for, exactly when the name leaves a tag. */
  lemma HealedReadingIsFiling(w: World, n: string, body: Body, t: int, steps: seq<Step>, k: nat, a: string,
                              identifier: string, f: string)
    requires WellFormed(w.db) && Resolve(w.db, n).None? && NamedLater(w, n, steps, k, a)
    requires f in Normalize(FieldsToFile(None, body))
    requires var db := RunWorld(w, [Message(n, body, t)] + steps).db;
      Resolve(db, identifier).Some? && Resolve(db, identifier).value.ieee == a && QueryTags(db, identifier).Some?
    ensures var run := [Message(n, body, t)] + steps;
      var filed := Filings(w, run, QueryTags(RunWorld(w, run).db, identifier).value, f);
      Record(Sanitize(n), t, f, Normalize(FieldsToFile(None, body))[f]) in filed <==> Sanitize(n) != ""
  {
    var run := [Message(n, body, t)] + steps;
    var tags := QueryTags(RunWorld(w, run).db, identifier).value;
    var r := Record(Sanitize(n), t, f, Normalize(FieldsToFile(None, body))[f]);
    if Sanitize(n) != "" {
      if IsBlank(n) { BlankSanitizes(n); }
      NamerIsAsked(w, n, body, t, steps, k, a, identifier);
      assert run[0] == Message(n, body, t);
    } else {
      FilingsAre(w, run, tags, f, r);
    }
  }

  // ----- The store after a run -----

  predicate Recorded(store: Store, r: Record) { Lookup(store, Slot(r.tag, r.time, r.field)) == Some(r.value) }

  ghost predicate ApartInTime(rs: seq<Record>) {
    forall i, j :: 0 <= i < j < |rs| ==> rs[i].time != rs[j].time
  }

  predicate SameSlot(r: Record, q: Record) { r.tag == q.tag && r.time == q.time && r.field == q.field }

  /** What one step does to a record of one of the tags. */
  lemma StepRecord(w: World, step: Step, tags: seq<string>, r: Record)
    requires r.tag != "" && r.tag in tags
    ensures var x := FiledAs(w, step, tags, r.field);
      Recorded(Next(w, step).store, r) <==>
      if x.Some? && SameSlot(x.value, r) then x.value == r else Recorded(w.store, r)
  {
    StepSlot(w, step, Slot(r.tag, r.time, r.field));
    if step.Message? && IsBlank(TagFor(w.db, step.name)) { BlankSanitizes(TagFor(w.db, step.name)); }
  }

  /** At most one of the records has the time `t`. */
  ghost predicate OnceAt(rs: seq<Record>, t: int) {
    forall i, j :: 0 <= i < j < |rs| && rs[i].time == t ==> rs[j].time != t
  }

  lemma OnceAtTail(x: Option<Record>, more: seq<Record>, t: int)
    requires OnceAt(Listing(x) + more, t)
    ensures OnceAt(more, t)
    ensures x.Some? && x.value.time == t ==> forall q :: q in more ==> q.time != t
  {
    var whole, k := Listing(x) + more, |Listing(x)|;
    assert forall i :: 0 <= i < |more| ==> more[i] == whole[k + i];
    if x.Some? && x.value.time == t {
      forall q | q in more ensures q.time != t {
        var i :| 0 <= i < |more| && more[i] == q;
        assert whole[0].time == t && whole[k + i] == q;
      }
    }
  }

  /** After a run a record stands in the store exactly when the run filed it, or it stood there and the
      run filed nothing in its slot. */
  lemma {:induction false} RecordsAfterRun(w: World, steps: seq<Step>, tags: seq<string>, r: Record)
    requires r.tag != "" && r.tag in tags && OnceAt(Filings(w, steps, tags, r.field), r.time)
    ensures Recorded(RunWorld(w, steps).store, r) <==>
      r in Filings(w, steps, tags, r.field)
      || (Recorded(w.store, r) && forall q :: q in Filings(w, steps, tags, r.field) ==> !SameSlot(q, r))
    decreases |steps|
  {
    if steps != [] {
      var next, rest := Next(w, steps[0]), steps[1..];
      var x, more := FiledAs(w, steps[0], tags, r.field), Filings(next, rest, tags, r.field);
      OnceAtTail(x, more, r.time);
      StepRecord(w, steps[0], tags, r);
      RecordsAfterRun(next, rest, tags, r);
      assert forall q :: q in Filings(w, steps, tags, r.field) <==> q in Listing(x) || q in more;
    }
  }

  // ----- The answer to a history request -----

  function ToReading(r: Record): Reading {
    Reading(r.time, match r.value case Bool(b) => (if b then 1.0 else 0.0) case Number(x) => x)
  }

  /** The point shows the record: its time, its number, and 1 for true and 0 for false. */
  predicate Shows(p: Reading, r: Record) {
    p.time == r.time
    && (r.value == Number(p.value)
        || (r.value == Bool(true) && p.value == 1.0) || (r.value == Bool(false) && p.value == 0.0))
  }

  lemma ReadingShows(p: Reading, r: Record)
    ensures Shows(p, r) <==> p == ToReading(r)
  {
  }

  function ToReadings(records: seq<Record>): seq<Reading> {
    seq(|records|, i requires 0 <= i < |records| => ToReading(records[i]))
  }

  /** The points returned for an identifier, given the database's answer; None when the request fails. */
  function History(db: Db, identifier: string, tables: seq<seq<Record>>): Option<seq<Reading>> {
    if QueryTags(db, identifier).None? then None
    else Some(SortBy(ToReadings(Flatten(tables)), TimeOf))
  }

  function RecordIn(from: int, to: int): Record -> bool { (r: Record) => from <= r.time < to }

  function Within(rs: seq<Record>, from: int, to: int): seq<Record> { Filter(rs, RecordIn(from, to)) }

  lemma HeadApart(x: Record, rest: seq<Record>, from: int, to: int)
    requires ApartInTime([x] + Within(rest, from, to)) && from <= x.time < to
    ensures forall q :: q in rest ==> q.time != x.time
  {
    var inside := Within(rest, from, to);
    FilterIn(rest, RecordIn(from, to));
    forall q | q in rest && from <= q.time < to ensures q.time != x.time {
      var i :| 0 <= i < |inside| && inside[i] == q;
      assert ([x] + inside)[0].time != ([x] + inside)[i + 1].time;
    }
  }

  lemma TailApart(head: seq<Record>, rest: seq<Record>)
    requires ApartInTime(head + rest)
    ensures ApartInTime(rest)
  {
    forall i, j | 0 <= i < j < |rest| ensures rest[i].time != rest[j].time {
      assert (head + rest)[|head| + i].time != (head + rest)[|head| + j].time;
    }
  }

  /** Records apart in the range have at most one at each time in it. */
  lemma {:induction false} ApartWithin(rs: seq<Record>, from: int, to: int, t: int)
    requires ApartInTime(Within(rs, from, to)) && from <= t < to
    ensures OnceAt(rs, t)
  {
    if rs != [] {
      var x, rest := rs[0], rs[1..];
      TailApart(if from <= x.time < to then [x] else [], Within(rest, from, to));
      ApartWithin(rest, from, to, t);
      if x.time == t { HeadApart(x, rest, from, to); }
      assert forall i :: 0 < i < |rs| ==> rs[i] == rest[i - 1] && rest[i - 1] in rest;
    }
  }

  /** Two lists of the same records with different times read the same in time order. */
  lemma SameReadings(rs: seq<Record>, qs: seq<Record>)
    requires NoDuplicates(rs) && ApartInTime(qs) && forall r :: r in rs <==> r in qs
    ensures SortBy(ToReadings(rs), TimeOf) == SortBy(ToReadings(qs), TimeOf)
  {
    forall i, j | 0 <= i < j < |rs| ensures rs[i].time != rs[j].time {
      assert rs[i] in rs && rs[j] in rs && rs[i] != rs[j];
      ApartRecords(qs, rs[i], rs[j]);
    }
    forall p ensures p in ToReadings(rs) <==> p in ToReadings(qs) { ReadingOf(rs, qs, p); ReadingOf(qs, rs, p); }
    SortDistinct(ToReadings(rs), TimeOf);
    SortDistinct(ToReadings(qs), TimeOf);
    SortedFacts(ToReadings(rs));
    SortedFacts(ToReadings(qs));
    StrictlySortedUnique(SortBy(ToReadings(rs), TimeOf), SortBy(ToReadings(qs), TimeOf), TimeOf);
  }

  lemma ApartRecords(qs: seq<Record>, r: Record, q: Record)
    requires ApartInTime(qs) && r in qs && q in qs && r != q
    ensures r.time != q.time
  {
    var i :| 0 <= i < |qs| && qs[i] == r;
    var j :| 0 <= j < |qs| && qs[j] == q;
    assert i < j || j < i;
  }

  lemma ReadingOf(rs: seq<Record>, qs: seq<Record>, p: Reading)
    requires forall r :: r in rs ==> r in qs
    ensures p in ToReadings(rs) ==> p in ToReadings(qs)
  {
    if p in ToReadings(rs) {
      var i :| 0 <= i < |rs| && ToReadings(rs)[i] == p;
      assert rs[i] in qs;
      var j :| 0 <= j < |qs| && qs[j] == rs[i];
      assert ToReadings(qs)[j] == p;
    }
  }

  /** The answer of the database at the end of the run to a request for `f` in a range; before the run
      the range was empty under the tags asked for, and no two filings in it have the same time. */
  ghost predicate Asked(w: World, steps: seq<Step>, identifier: string, f: string, from: int, to: int,
                        tables: seq<seq<Record>>)
  {
    var end := RunWorld(w, steps);
    QueryTags(end.db, identifier).Some?
    && (var tags := QueryTags(end.db, identifier).value;
        Answers(end.store, tags, f, from, to, Flatten(tables))
        && ApartInTime(Within(Filings(w, steps, tags, f), from, to))
        && forall s :: s in w.store ==> !Selects(tags, f, from, to, s))
  }

  /** What the run filed under the tags that a request for the identifier asks for at its end. */
  function FilingsFor(w: World, steps: seq<Step>, identifier: string, f: string, from: int, to: int): seq<Record>
    requires QueryTags(RunWorld(w, steps).db, identifier).Some?
  {
    Within(Filings(w, steps, QueryTags(RunWorld(w, steps).db, identifier).value, f), from, to)
  }

  /** The records returned are those filed in the range. */
  lemma RecordsAreFilings(w: World, steps: seq<Step>, identifier: string, f: string, from: int, to: int,
                          tables: seq<seq<Record>>, r: Record)
    requires Asked(w, steps, identifier, f, from, to, tables)
    ensures r in Flatten(tables) <==> r in FilingsFor(w, steps, identifier, f, from, to)
  {
    var tags := QueryTags(RunWorld(w, steps).db, identifier).value;
    FilterIn(Filings(w, steps, tags, f), RecordIn(from, to));
    FilingsAre(w, steps, tags, f, r);
    var s := Slot(r.tag, r.time, r.field);
    if Selects(tags, f, from, to, s) {
      ApartWithin(Filings(w, steps, tags, f), from, to, r.time);
      RecordsAfterRun(w, steps, tags, r);
      assert !Recorded(w.store, r);
    }
  }

  /** For every field, over every run: the history of an identifier is exactly what was filed in the
      range under one of the tags the identifier stands for at the end, in time order, whatever the
      device was called when it was filed and however the database orders its answer. */
  lemma HistoryIsFilings(w: World, steps: seq<Step>, identifier: string, f: string, from: int, to: int,
                         tables: seq<seq<Record>>)
    requires Asked(w, steps, identifier, f, from, to, tables)
    ensures History(RunWorld(w, steps).db, identifier, tables)
      == Some(SortBy(ToReadings(FilingsFor(w, steps, identifier, f, from, to)), TimeOf))
  {
    forall r ensures r in Flatten(tables) <==> r in FilingsFor(w, steps, identifier, f, from, to) {
      RecordsAreFilings(w, steps, identifier, f, from, to, tables, r);
    }
    SameReadings(Flatten(tables), FilingsFor(w, steps, identifier, f, from, to));
  }

  /** Point by point: the history has one point for each reading filed in the range, in time order, and
      a point is in it exactly when it shows one of them. */
  lemma HistoryShows(w: World, steps: seq<Step>, identifier: string, f: string, from: int, to: int,
                     tables: seq<seq<Record>>)
    requires Asked(w, steps, identifier, f, from, to, tables)
    ensures var history, filed := History(RunWorld(w, steps).db, identifier, tables),
                                  FilingsFor(w, steps, identifier, f, from, to);
      history.Some? && |history.value| == |filed|
      && (forall i, j :: 0 <= i < j < |filed| ==> history.value[i].time < history.value[j].time)
      && forall p :: p in history.value <==> exists r :: r in filed && Shows(p, r)
  {
    HistoryIsFilings(w, steps, identifier, f, from, to, tables);
    var filed := FilingsFor(w, steps, identifier, f, from, to);
    var readings := ToReadings(filed);
    SortedFacts(readings);
    SortDistinct(readings, TimeOf);
    var sorted := SortBy(readings, TimeOf);
    forall i, j | 0 <= i < j < |filed| ensures sorted[i].time < sorted[j].time {
      assert TimeOf(sorted[i]) < TimeOf(sorted[j]);
    }
    forall p ensures p in readings <==> exists r :: r in filed && Shows(p, r) { ReadingsShow(filed, p); }
  }

  lemma ReadingsShow(rs: seq<Record>, p: Reading)
    ensures p in ToReadings(rs) <==> exists r :: r in rs && Shows(p, r)
  {
    if i :| 0 <= i < |rs| && ToReadings(rs)[i] == p {
      ReadingShows(p, rs[i]);
      assert rs[i] in rs && Shows(p, rs[i]);
    }
    if r :| r in rs && Shows(p, r) {
      ReadingShows(p, r);
      var i :| 0 <= i < |rs| && rs[i] == r;
      assert ToReadings(rs)[i] == p;
    }
  }

  /** The segments are the canonical tiling of the range that follows the readings. */
  ghost predicate Follows(segs: seq<Segment>, readings: seq<Reading>, from: int, to: int, isActive: real -> bool)
    requires readings != []
  {
    Canonical(segs, from, to)
    && forall x :: from <= x < to ==> segs != [] && StateIn(segs, x) == StateAt(readings, isActive, x)
  }

  lemma ReadingsDistinct(rs: seq<Record>)
    requires ApartInTime(rs)
    ensures DistinctTimes(ToReadings(rs))
  {
  }

  /** Sorting first changes nothing, since the timeline sorts. */
  lemma SortedTimeline(readings: seq<Reading>, from: int, to: int, isActive: real -> bool)
    ensures StateSegments(SortBy(readings, TimeOf), from, to, isActive) == StateSegments(readings, from, to, isActive)
  {
    SortedFacts(readings);
    SortKeepsSorted(SortBy(readings, TimeOf), TimeOf);
  }

  lemma TimelineFollows(readings: seq<Reading>, from: int, to: int, isActive: real -> bool)
    requires from < to && readings != [] && DistinctTimes(readings)
    requires forall p :: p in readings ==> p.time < to
    ensures Follows(StateSegments(SortBy(readings, TimeOf), from, to, isActive), readings, from, to, isActive)
  {
    SortedTimeline(readings, from, to, isActive);
    TimelineCanonical(readings, from, to, isActive);
    forall x | from <= x < to
      ensures StateIn(StateSegments(readings, from, to, isActive), x) == StateAt(readings, isActive, x)
    {
      TimelineShowsState(readings, from, to, isActive, x);
    }
  }

  /** End to end, for every field and every reading of its values as a state: the timeline drawn from
      the history of an identifier follows what was filed under its tags, readings filed under former
      or raw names included. */
  lemma TimelineOfFilings(w: World, steps: seq<Step>, identifier: string, f: string, from: int, to: int,
                          tables: seq<seq<Record>>, isActive: real -> bool)
    requires from < to && Asked(w, steps, identifier, f, from, to, tables)
    requires FilingsFor(w, steps, identifier, f, from, to) != []
    ensures var history := History(RunWorld(w, steps).db, identifier, tables);
      history.Some?
      && Follows(StateSegments(history.value, from, to, isActive),
                 ToReadings(FilingsFor(w, steps, identifier, f, from, to)), from, to, isActive)
  {
    HistoryIsFilings(w, steps, identifier, f, from, to, tables);
    var filings := FilingsFor(w, steps, identifier, f, from, to);
    FilterIn(Filings(w, steps, QueryTags(RunWorld(w, steps).db, identifier).value, f), RecordIn(from, to));
    ReadingsDistinct(filings);
    forall p | p in ToReadings(filings) ensures p.time < to {
      var i :| 0 <= i < |filings| && ToReadings(filings)[i] == p;
      assert filings[i] in filings;
    }
    TimelineFollows(ToReadings(filings), from, to, isActive);
  }

  // ----- The reports of an actuator -----

  predicate IsOn(v: real) { v == 1.0 }

  /** The on/off report a step makes for the device `a`, if any. */
  function ReportOf(w: World, step: Step, a: string): Option<Reading> {
    if step.Message? && LeadsToActuator(w.db, step.name) && ResolveDevice(w.db, step.name).value.ieee == a then
      if SaysState(step.body, "ON") then Some(Reading(step.time, 1.0))
      else if SaysState(step.body, "OFF") then Some(Reading(step.time, 0.0))
      else None
    else None
  }

  function Reports(w: World, steps: seq<Step>, a: string): seq<Reading>
    decreases |steps|
  {
    if steps == [] then [] else Listing(ReportOf(w, steps[0], a)) + Reports(Next(w, steps[0]), steps[1..], a)
  }

  function ReadingIn(from: int, to: int): Reading -> bool { (r: Reading) => from <= r.time < to }

  function InRange(reports: seq<Reading>, from: int, to: int): seq<Reading> { Filter(reports, ReadingIn(from, to)) }

  /** The state a step files under the tags for another device than `a`. */
  function IntrusionOf(w: World, step: Step, a: string, tags: seq<string>): Option<Record> {
    if step.Message? && TagFor(w.db, step.name) != a then FiledAs(w, step, tags, "state") else None
  }

  /** What other devices, whose addresses share a tag with the device, file under its tags. */
  function Intrusions(w: World, steps: seq<Step>, a: string, tags: seq<string>): seq<Record>
    decreases |steps|
  {
    if steps == [] then []
    else Listing(IntrusionOf(w, steps[0], a, tags)) + Intrusions(Next(w, steps[0]), steps[1..], a, tags)
  }

  /** Only ON and OFF of a light, switch or plug are filed as its state, as true and false. */
  lemma StateFieldFiled(id: Option<Identity>, body: Body)
    ensures var fields := Normalize(FieldsToFile(id, body));
      ("state" in fields <==>
         id.Some? && id.value.kind in {Light, Switch, Plug} && (SaysState(body, "ON") || SaysState(body, "OFF")))
      && ("state" in fields ==> fields["state"] == Bool(SaysState(body, "ON")))
  {
    assert "ON"[1] != "OFF"[1];
  }

  /** Something filed is a report of the device, if its address leaves a tag, or an intrusion. */
  predicate ReportOrIntrusion(x: Option<Record>, r: Option<Reading>, y: Option<Record>, tagged: bool) {
    if y.Some? then x == y && r.None?
    else if !tagged then x.None?
    else if x.Some? then r == Some(ToReading(x.value)) else r.None?
  }

  lemma StepReports(w: World, step: Step, a: string, tags: seq<string>)
    requires Sanitize(a) in tags
    ensures ReportOrIntrusion(FiledAs(w, step, tags, "state"), ReportOf(w, step, a), IntrusionOf(w, step, a, tags),
                              Sanitize(a) != "")
  {
    if step.Message? { StateFieldFiled(Resolve(w.db, step.name), step.body); }
  }

  lemma ToReadingsJoin(rs: seq<Record>, qs: seq<Record>)
    ensures ToReadings(rs + qs) == ToReadings(rs) + ToReadings(qs)
  {
  }

  /** `filed` is made up of the reports, if the address leaves a tag, and of what others filed. */
  ghost predicate Splits(filed: seq<Record>, reports: seq<Reading>, others: seq<Record>, tagged: bool) {
    if !tagged then filed == others
    else |filed| == |reports| + |others| && (others == [] ==> ToReadings(filed) == reports)
  }

  lemma SplitsOne(x: Option<Record>, r: Option<Reading>, y: Option<Record>, tagged: bool, from: int, to: int)
    requires ReportOrIntrusion(x, r, y, tagged)
    ensures Splits(Within(Listing(x), from, to), InRange(Listing(r), from, to), Within(Listing(y), from, to), tagged)
    ensures tagged && y.Some? ==> Within(Listing(x), from, to) == Within(Listing(y), from, to)
  {
    FilterListing(x, RecordIn(from, to));
    FilterListing(r, ReadingIn(from, to));
    FilterListing(y, RecordIn(from, to));
  }

  lemma FilterListing<T>(x: Option<T>, p: T -> bool)
    ensures Filter(Listing(x), p) == if x.Some? && p(x.value) then [x.value] else []
  {
    if x.Some? { assert [x.value][1..] == []; }
  }

  lemma SplitsJoin(f: seq<Record>, r: seq<Reading>, o: seq<Record>,
                   f': seq<Record>, r': seq<Reading>, o': seq<Record>, tagged: bool)
    requires Splits(f, r, o, tagged) && Splits(f', r', o', tagged)
    ensures Splits(f + f', r + r', o + o', tagged)
  {
    ToReadingsJoin(f, f');
    if tagged && o + o' == [] { assert o == [] && o' == []; }
  }

  lemma {:induction false} FilingsSplit(w: World, steps: seq<Step>, a: string, tags: seq<string>, from: int, to: int)
    requires Sanitize(a) in tags
    ensures Splits(Within(Filings(w, steps, tags, "state"), from, to), InRange(Reports(w, steps, a), from, to),
                   Within(Intrusions(w, steps, a, tags), from, to), Sanitize(a) != "")
    decreases |steps|
  {
    if steps != [] {
      var next, rest := Next(w, steps[0]), steps[1..];
      var x, r, y := FiledAs(w, steps[0], tags, "state"), ReportOf(w, steps[0], a), IntrusionOf(w, steps[0], a, tags);
      var xs, rs, ys := Filings(next, rest, tags, "state"), Reports(next, rest, a), Intrusions(next, rest, a, tags);
      StepReports(w, steps[0], a, tags);
      SplitsOne(x, r, y, Sanitize(a) != "", from, to);
      FilingsSplit(next, rest, a, tags, from, to);
      FilterConcat(Listing(x), xs, RecordIn(from, to));
      FilterConcat(Listing(y), ys, RecordIn(from, to));
      FilterConcat(Listing(r), rs, ReadingIn(from, to));
      SplitsJoin(Within(Listing(x), from, to), InRange(Listing(r), from, to), Within(Listing(y), from, to),
                 Within(xs, from, to), InRange(rs, from, to), Within(ys, from, to), Sanitize(a) != "");
    }
  }

  /** The other devices' reports that fall into the answer. */
  function Mixed(w: World, steps: seq<Step>, a: string, identifier: string, from: int, to: int): seq<Record>
    requires QueryTags(RunWorld(w, steps).db, identifier).Some?
  {
    Within(Intrusions(w, steps, a, QueryTags(RunWorld(w, steps).db, identifier).value), from, to)
  }

  lemma {:induction false} IntrusionsAre(w: World, steps: seq<Step>, a: string, tags: seq<string>, r: Record)
    ensures r in Intrusions(w, steps, a, tags) <==>
      exists i :: 0 <= i < |steps| && IntrusionOf(WorldAt(w, steps, i), steps[i], a, tags) == Some(r)
    decreases |steps|
  {
    if steps != [] {
      var next, rest := Next(w, steps[0]), steps[1..];
      IntrusionsAre(next, rest, a, tags, r);
      assert WorldAt(w, steps, 0) == w;
      forall j | 1 <= j < |steps| ensures WorldAt(w, steps, j) == WorldAt(next, rest, j - 1) {
        WorldAtLater(w, steps, j);
      }
      if i :| 0 <= i < |rest| && IntrusionOf(WorldAt(next, rest, i), rest[i], a, tags) == Some(r) {
        assert IntrusionOf(WorldAt(w, steps, i + 1), steps[i + 1], a, tags) == Some(r);
      }
      if i :| 0 <= i < |steps| && IntrusionOf(WorldAt(w, steps, i), steps[i], a, tags) == Some(r) {
        if i > 0 { assert IntrusionOf(WorldAt(next, rest, i - 1), rest[i - 1], a, tags) == Some(r); }
      }
    }
  }

  /** The step is an on/off report of another device than `a` whose address has one of the tags. */
  ghost predicate ForeignReport(w: World, step: Step, a: string, tags: seq<string>) {
    exists b :: b != a && ReportOf(w, step, b).Some? && Sanitize(b) != "" && Sanitize(b) in tags
  }

  lemma IntrusionIsForeign(w: World, step: Step, a: string, tags: seq<string>)
    ensures IntrusionOf(w, step, a, tags).Some? <==> ForeignReport(w, step, a, tags)
    ensures IntrusionOf(w, step, a, tags).Some? ==> IntrusionOf(w, step, a, tags).value.time == step.time
  {
    if step.Message? {
      StateFieldFiled(Resolve(w.db, step.name), step.body);
      if IntrusionOf(w, step, a, tags).Some? { assert ReportOf(w, step, TagFor(w.db, step.name)).Some?; }
    }
  }

  /** At step `i`, in the range, another device than `a` reports whose address has one of the tags. */
  ghost predicate ForeignAt(w: World, steps: seq<Step>, a: string, tags: seq<string>, from: int, to: int, i: int) {
    0 <= i < |steps| && steps[i].Message? && from <= steps[i].time < to
    && ForeignReport(WorldAt(w, steps, i), steps[i], a, tags)
  }

  lemma IntrusionHasStep(w: World, steps: seq<Step>, a: string, tags: seq<string>, from: int, to: int, r: Record)
    requires r in Within(Intrusions(w, steps, a, tags), from, to)
    ensures exists i :: ForeignAt(w, steps, a, tags, from, to, i)
  {
    FilterIn(Intrusions(w, steps, a, tags), RecordIn(from, to));
    IntrusionsAre(w, steps, a, tags, r);
    var i :| 0 <= i < |steps| && IntrusionOf(WorldAt(w, steps, i), steps[i], a, tags) == Some(r);
    IntrusionIsForeign(WorldAt(w, steps, i), steps[i], a, tags);
    assert ForeignAt(w, steps, a, tags, from, to, i);
  }

  lemma StepIntrudes(w: World, steps: seq<Step>, a: string, tags: seq<string>, from: int, to: int, i: int)
    requires ForeignAt(w, steps, a, tags, from, to, i)
    ensures Within(Intrusions(w, steps, a, tags), from, to) != []
  {
    IntrusionIsForeign(WorldAt(w, steps, i), steps[i], a, tags);
    var r := IntrusionOf(WorldAt(w, steps, i), steps[i], a, tags).value;
    IntrusionsAre(w, steps, a, tags, r);
    FilterIn(Intrusions(w, steps, a, tags), RecordIn(from, to));
    assert r in Within(Intrusions(w, steps, a, tags), from, to);
  }

  /** The answer mixes in something of another device exactly when, at some step of the run in the range,
      another device reports whose address has one of the tags asked for. */
  lemma MixedExactly(w: World, steps: seq<Step>, a: string, identifier: string, from: int, to: int)
    requires QueryTags(RunWorld(w, steps).db, identifier).Some?
    ensures var tags := QueryTags(RunWorld(w, steps).db, identifier).value;
      Mixed(w, steps, a, identifier, from, to) != [] <==> exists i :: ForeignAt(w, steps, a, tags, from, to, i)
  {
    var tags := QueryTags(RunWorld(w, steps).db, identifier).value;
    var mixed := Mixed(w, steps, a, identifier, from, to);
    if mixed != [] { IntrusionHasStep(w, steps, a, tags, from, to, mixed[0]); }
    if i :| ForeignAt(w, steps, a, tags, from, to, i) { StepIntrudes(w, steps, a, tags, from, to, i); }
  }

  /** Reports to history: for any identifier that leads to an actuator, the history of its state is its
      reports in the range, in time order, exactly when no other device's report is mixed in; and, when
      none is, exactly when its address leaves a tag or there is nothing to show. */
  lemma HistoryIsReports(w: World, steps: seq<Step>, a: string, identifier: string, from: int, to: int,
                         tables: seq<seq<Record>>)
    requires Asked(w, steps, identifier, "state", from, to, tables)
    requires Leads(RunWorld(w, steps).db, identifier, a)
    ensures var shown := History(RunWorld(w, steps).db, identifier, tables);
      var reports, mixed := InRange(Reports(w, steps, a), from, to), Mixed(w, steps, a, identifier, from, to);
      (Sanitize(a) != "" ==> (shown == Some(SortBy(reports, TimeOf)) <==> mixed == []))
      && (mixed == [] ==> (shown == Some(SortBy(reports, TimeOf)) <==> Sanitize(a) != "" || reports == []))
  {
    var tags := QueryTags(RunWorld(w, steps).db, identifier).value;
    HistoryIsFilings(w, steps, identifier, "state", from, to, tables);
    TelemetryKeysSpec(Resolve(RunWorld(w, steps).db, identifier).value);
    KeyIsQueried(RunWorld(w, steps).db, identifier, a);
    FilingsSplit(w, steps, a, tags, from, to);
    SortedFacts(InRange(Reports(w, steps, a), from, to));
    SortedFacts(ToReadings(FilingsFor(w, steps, identifier, "state", from, to)));
  }

  predicate Leads(db: Db, identifier: string, a: string) {
    Resolve(db, identifier).Some? && Resolve(db, identifier).value.ieee == a
  }

  /** End to end for an actuator: when no other device's report is mixed in and there is a report in
      the range, the timeline drawn from the history of any identifier that leads to it follows its
      reports exactly when its address leaves a tag. */
  lemma EndToEnd(w: World, steps: seq<Step>, a: string, identifier: string, from: int, to: int,
                 tables: seq<seq<Record>>)
    requires from < to && Asked(w, steps, identifier, "state", from, to, tables)
    requires Leads(RunWorld(w, steps).db, identifier, a) && Mixed(w, steps, a, identifier, from, to) == []
    requires InRange(Reports(w, steps, a), from, to) != []
    ensures var history := History(RunWorld(w, steps).db, identifier, tables);
      history.Some?
      && (Follows(StateSegments(history.value, from, to, IsOn), InRange(Reports(w, steps, a), from, to), from, to, IsOn)
          <==> Sanitize(a) != "")
  {
    HistoryIsFilings(w, steps, identifier, "state", from, to, tables);
    var db := RunWorld(w, steps).db;
    TelemetryKeysSpec(Resolve(db, identifier).value);
    KeyIsQueried(db, identifier, a);
    FilingsSplit(w, steps, a, QueryTags(db, identifier).value, from, to);
    if Sanitize(a) != "" { TimelineOfFilings(w, steps, identifier, "state", from, to, tables, IsOn); }
  }

  // ----- Addresses that share a tag -----

  /** When two addresses share a tag, a report of the second is mixed into the history of the first. */
  lemma SharedTagMixes(w: World, n: string, body: Body, t: int, a: string, b: string, identifier: string)
    requires a != b && Sanitize(a) == Sanitize(b) != ""
    requires ReportOf(w, Message(n, body, t), b).Some?
    requires var db := Consume(w, n, body, t).db; Leads(db, identifier, a) && QueryTags(db, identifier).Some?
    ensures var steps := [Message(n, body, t)];
      RunWorld(w, steps) == Consume(w, n, body, t) && Reports(w, steps, a) == []
      && InHistory(RunWorld(w, steps), identifier, Slot(Sanitize(a), t, "state"))
      && forall from, to :: from <= t < to ==> Mixed(w, steps, a, identifier, from, to) != []
  {
    var steps, db := [Message(n, body, t)], Consume(w, n, body, t).db;
    RunOfOne(w, steps[0]);
    AddressIsAsked(db, identifier, a);
    ReportOfOther(w, steps[0], a, b);
    ReportShows(w, n, body, t, b, identifier);
    forall from, to | from <= t < to ensures Mixed(w, steps, a, identifier, from, to) != [] {
      assert WorldAt(w, steps, 0) == w && ForeignReport(w, steps[0], a, QueryTags(db, identifier).value);
      StepIntrudes(w, steps, a, QueryTags(db, identifier).value, from, to, 0);
    }
  }

  lemma RunOfOne(w: World, step: Step)
    ensures RunWorld(w, [step]) == Next(w, step)
  {
    assert [step][1..] == [];
  }

  lemma AddressIsAsked(db: Db, identifier: string, a: string)
    requires Leads(db, identifier, a) && QueryTags(db, identifier).Some?
    ensures Sanitize(a) in QueryTags(db, identifier).value
  {
    TelemetryKeysSpec(Resolve(db, identifier).value);
    KeyIsQueried(db, identifier, a);
  }

  lemma ReportOfOther(w: World, step: Step, a: string, b: string)
    requires a != b && ReportOf(w, step, b).Some?
    ensures Reports(w, [step], a) == []
  {
    assert [step][1..] == [] && ReportOf(w, step, a).None?;
    assert Reports(Next(w, step), [], a) == [];
  }

  /** A report is in the history that asks for its tag. */
  lemma ReportShows(w: World, n: string, body: Body, t: int, b: string, identifier: string)
    requires ReportOf(w, Message(n, body, t), b).Some? && Sanitize(b) != ""
    requires var db := Consume(w, n, body, t).db;
      QueryTags(db, identifier).Some? && Sanitize(b) in QueryTags(db, identifier).value
    ensures InHistory(Consume(w, n, body, t), identifier, Slot(Sanitize(b), t, "state"))
  {
    if IsBlank(b) { BlankSanitizes(b); }
    StateFieldFiled(Resolve(w.db, n), body);
    RunOfOne(w, Message(n, body, t));
    assert [Message(n, body, t)] == [Message(n, body, t)] + [];
    FiledReadingShows(w, n, body, t, [], identifier, Slot(Sanitize(b), t, "state"));
  }

  const LAMP: Definition := Definition(Some("light"), None, None)
  const SWITCH_ON: Body := map["state" := Text("ON")]

  function LampEntry(a: string, n: string): Payload { Payload(Some(a), Some(n), None, None, Some(LAMP)) }

  /** Two lamps are listed, whose addresses differ only in a dropped character; then the second reports. */
  function TwoLamps(): seq<Step> {
    [Change(SyncList([LampEntry("0x1", "a"), LampEntry("0x:1", "b")])), Message("b", SWITCH_ON, 5)]
  }

  /** The history of the first, which reported nothing, shows the report of the second. */
  lemma SharedTagMixesHistories()
    ensures var w, steps := World(EMPTY, map[]), TwoLamps();
      Leads(RunWorld(w, steps).db, "0x1", "0x1") && Reports(w, steps, "0x1") == []
      && InHistory(RunWorld(w, steps), "0x1", Slot("0x1", 5, "state"))
      && QueryTags(RunWorld(w, steps).db, "0x1").Some? && Mixed(w, steps, "0x1", "0x1", 0, 10) != []
  {
    var w, action := World(EMPTY, map[]), SyncList([LampEntry("0x1", "a"), LampEntry("0x:1", "b")]);
    var rest := [Message("b", SWITCH_ON, 5)];
    assert TwoLamps() == [Change(action)] + rest;
    LampsListed();
    LampsMix(rest);
    AfterChange(w, action, rest, "0x1");
  }

  lemma LampsMix(steps: seq<Step>)
    requires steps == [Message("b", SWITCH_ON, 5)]
    ensures var w := World(LAMPS, map[]);
      Leads(RunWorld(w, steps).db, "0x1", "0x1") && Reports(w, steps, "0x1") == []
      && InHistory(RunWorld(w, steps), "0x1", Slot("0x1", 5, "state"))
      && QueryTags(RunWorld(w, steps).db, "0x1").Some? && Mixed(w, steps, "0x1", "0x1", 0, 10) != []
  {
    var w := World(LAMPS, map[]);
    LampTags();
    LampAfter(w);
    SharedTagMixes(w, "b", SWITCH_ON, 5, "0x1", "0x:1", "0x1");
  }

  /** A registry change neither reports nor files. */
  lemma AfterChange(w: World, action: Action, rest: seq<Step>, a: string)
    ensures var steps, next := [Change(action)] + rest, World(Act(w.db, action), w.store);
      RunWorld(w, steps) == RunWorld(next, rest) && Reports(w, steps, a) == Reports(next, rest, a)
      && forall tags :: Intrusions(w, steps, a, tags) == Intrusions(next, rest, a, tags)
  {
    var steps, next := [Change(action)] + rest, World(Act(w.db, action), w.store);
    assert steps[0] == Change(action) && steps[1..] == rest && Next(w, steps[0]) == next;
    assert Reports(w, steps, a) == [] + Reports(next, rest, a);
    forall tags ensures Intrusions(w, steps, a, tags) == Intrusions(next, rest, a, tags) {
      assert Intrusions(w, steps, a, tags) == [] + Intrusions(next, rest, a, tags);
    }
  }

  lemma LampTags()
    ensures Sanitize("0x1") == "0x1" && Sanitize("0x:1") == "0x1"
  {
    SanitizeKeepsTags("0x1");
    NamesCollide("0x", ":", "1");
    assert "0x" + ":" + "1" == "0x:1" && "0x" + "1" == "0x1";
  }

  /** The row of a listed lamp. */
  function Lamp(id: nat, a: string, n: string): Device { Device(id, a, n, Light, None, None, true, None) }

  lemma LampEntity(id: nat, a: string, n: string)
    ensures ToEntity(id, LampEntry(a, n)) == Lamp(id, a, n)
  {
    assert Lower("light") == "light" && OccursAt("light", "light", 0);
  }

  /** One more lamp with a new address and a name nobody has claimed. */
  lemma LampInserted(db: Db, a: string, n: string)
    requires |a| <= 24 && |n| <= 255 && a != "" && !IsBlank(n) && FindByAddress(db, a).None? && OwnerOf(db, n).None?
    ensures ApplyPayload(db, LampEntry(a, n)) ==
      Some(Db(db.devices + [Lamp(db.nextDevice, a, n)], db.aliases + [Alias(db.nextAlias, a, n)],
              db.nextDevice + 1, db.nextAlias + 1))
  {
    LampEntity(db.nextDevice, a, n);
  }

  const LAMPS: Db :=
    Db([Lamp(0, "0x1", "a"), Lamp(1, "0x:1", "b")], [Alias(0, "0x1", "a"), Alias(1, "0x:1", "b")], 2, 2)

  const ONE_LAMP: Db := Db([Lamp(0, "0x1", "a")], [Alias(0, "0x1", "a")], 1, 1)

  lemma FirstLamp()
    ensures ApplyPayload(EMPTY, LampEntry("0x1", "a")) == Some(ONE_LAMP)
  {
    assert |"0x1"| == 3 && !IsSpace("a"[0]);
    LampInserted(EMPTY, "0x1", "a");
    assert EMPTY.devices + ONE_LAMP.devices == ONE_LAMP.devices && EMPTY.aliases + ONE_LAMP.aliases == ONE_LAMP.aliases;
  }

  lemma SecondLamp()
    ensures ApplyPayload(ONE_LAMP, LampEntry("0x:1", "b")) == Some(LAMPS)
  {
    assert |"0x1"| == 3 && |"0x:1"| == 4 && !IsSpace("b"[0]) && "a"[0] != "b"[0];
    LampInserted(ONE_LAMP, "0x:1", "b");
    assert ONE_LAMP.devices + [Lamp(1, "0x:1", "b")] == LAMPS.devices;
    assert ONE_LAMP.aliases + [Alias(1, "0x:1", "b")] == LAMPS.aliases;
  }

  lemma ApplyTwo(db: Db, p: Payload, q: Payload)
    requires ApplyPayload(db, p).Some?
    ensures ApplyAll(db, [p, q]) == ApplyPayload(ApplyPayload(db, p).value, q)
  {
    assert [p, q][..1] == [p] && [p][..0] == [];
    assert ApplyAll(db, [p]) == ApplyPayload(db, p);
  }

  lemma LampsListed()
    ensures Sync(EMPTY, [LampEntry("0x1", "a"), LampEntry("0x:1", "b")]) == LAMPS
  {
    var ps := [LampEntry("0x1", "a"), LampEntry("0x:1", "b")];
    FirstLamp();
    SecondLamp();
    ApplyTwo(EMPTY, ps[0], ps[1]);
    AllListed(LAMPS, ps);
  }

  lemma AllListed(db: Db, ps: seq<Payload>)
    requires |ps| == |db.devices|
    requires forall i :: 0 <= i < |ps| ==> ps[i].ieee == Some(db.devices[i].ieee)
    ensures MarkUnavailableNotIn(db, Addresses(ps)) == db
  {
    forall i | 0 <= i < |db.devices| ensures Some(db.devices[i].ieee) in Addresses(ps) {
      assert Addresses(ps)[i] == ps[i].ieee;
    }
  }

  lemma LampsFound(db: Db, x: Device)
    requires x.id == 1 && x.ieee == "0x:1" && x.name == "b" && db == LAMPS.(devices := [Lamp(0, "0x1", "a"), x])
    ensures FindByAddress(db, "0x1") == Some(Lamp(0, "0x1", "a")) && FindByAddress(db, "b").None?
    ensures FindByName(db, "b") == Some(x) && IndexOfAddress(db.devices, "0x:1") == 1
  {
    assert |"0x1"| == 3 && |"0x:1"| == 4 && |"b"| == 1 && "a"[0] != "b"[0];
    assert db.devices[0] == Lamp(0, "0x1", "a") && db.devices[1] == x;
    assert IndexOfName(db.devices, "b") == 1;
  }

  lemma LampAfter(w: World)
    requires w.db == LAMPS
    ensures ReportOf(w, Message("b", SWITCH_ON, 5), "0x:1").Some?
    ensures var db := Consume(w, "b", SWITCH_ON, 5).db; Leads(db, "0x1", "0x1") && QueryTags(db, "0x1").Some?
  {
    var b := Lamp(1, "0x:1", "b");
    LampsFound(LAMPS, b);
    var after := LAMPS.(devices := [Lamp(0, "0x1", "a"), b.(state := Some("ON"))]);
    assert MessageAction(LAMPS, "b", SWITCH_ON) == Some(ReportState("0x:1", "ON"));
    assert [Lamp(0, "0x1", "a"), b][1 := b.(state := Some("ON"))] == after.devices;
    assert Consume(w, "b", SWITCH_ON, 5).db == after;
    LampsFound(after, after.devices[1]);
    LampReadable(after);
  }

  lemma LampReadable(db: Db)
    requires FindByAddress(db, "0x1") == Some(Lamp(0, "0x1", "a"))
    requires db.aliases == [Alias(0, "0x1", "a"), Alias(1, "0x:1", "b")]
    ensures QueryTags(db, "0x1").Some?
  {
    var id := Resolve(db, "0x1").value;
    TelemetryKeysSpec(id);
    assert !IsSpace("0x1"[0]) && !IsSpace("a"[0]);
    assert |"0x1"| == 3 && |"0x:1"| == 4;
    assert ListAliases(db.aliases, "0x1") == ["a"] by {
      var rest := db.aliases[1..];
      assert rest == [Alias(1, "0x:1", "b")] && rest[1..] == [];
      assert ListAliases(rest[1..], "0x1") == [] && ListAliases(rest, "0x1") == [];
    }
    forall i | 0 <= i < |TelemetryKeys(id)| ensures !IsBlank(TelemetryKeys(id)[i]) {
      assert TelemetryKeys(id)[i] in TelemetryKeys(id);
    }
  }
}

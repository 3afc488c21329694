/** The latest values shown for a device, over every run: `get_latest` in
    backend-python/app/telemetry/router.py on the answer of `query_latest`. */
module TelemetryLatest {
  import opened Prelude
  import opened Sequences
  import opened Telemetry
  import opened Timeline
  import opened TelemetryRuns
  import opened TelemetryHistory
  import LT = LatestTelemetry

  function ToRec(r: Record): LT.Rec { LT.Rec(Some(r.field), Some(ToReading(r).value), Some(r.time)) }

  function ToRecs(rs: seq<Record>): seq<LT.Rec> { seq(|rs|, i requires 0 <= i < |rs| => ToRec(rs[i])) }

  /** The answer to the query for the last points in a range: each selected series, one per tag and
      field, by its last point. */
  ghost predicate LatestAnswer(store: Store, tags: seq<string>, from: int, to: int, rs: seq<Record>) {
    (forall r :: r in rs ==> Selects(tags, r.field, from, to, Slot(r.tag, r.time, r.field)) && Recorded(store, r))
    && forall s :: s in store && Selects(tags, s.field, from, to, s) ==>
         exists r :: r in rs && r.tag == s.tag && r.field == s.field && s.time <= r.time
  }

  /** The answer at the end of the run; before the run the range was empty under the tags asked for. */
  ghost predicate LatestAsked(w: World, steps: seq<Step>, identifier: string, from: int, to: int,
                              tables: seq<seq<Record>>)
  {
    var end := RunWorld(w, steps);
    QueryTags(end.db, identifier).Some?
    && LatestAnswer(end.store, QueryTags(end.db, identifier).value, from, to, Flatten(tables))
    && forall s :: s in w.store ==> !Selects(QueryTags(end.db, identifier).value, s.field, from, to, s)
  }

  /** The response, given the database's answer. */
  function Latest(tables: seq<seq<Record>>): LT.Merge { LT.MergeAll(ToRecs(Flatten(tables))) }

  function RecTables(tables: seq<seq<Record>>): seq<seq<LT.Rec>> {
    seq(|tables|, i requires 0 <= i < |tables| => ToRecs(tables[i]))
  }

  lemma {:induction false} FlattenRecs(tables: seq<seq<Record>>)
    ensures Flatten(RecTables(tables)) == ToRecs(Flatten(tables))
  {
    if tables != [] {
      var before := tables[..|tables| - 1];
      FlattenRecs(before);
      assert RecTables(tables)[..|tables| - 1] == RecTables(before);
    }
  }

  /** That is what the loops over tables and records compute. */
  method Answer(tables: seq<seq<Record>>) returns (values: map<string, real>, lastUpdated: Option<int>)
    ensures values == Latest(tables).values && lastUpdated == Latest(tables).lastUpdated
  {
    FlattenRecs(tables);
    values, lastUpdated := LT.GetLatest(RecTables(tables));
  }

  /** A slot of one of the tags is taken at the end of a run exactly when it was before or the run filed
      something in it. */
  lemma {:induction false} SlotsAfterRun(w: World, steps: seq<Step>, tags: seq<string>, s: Slot)
    requires s.tag != "" && s.tag in tags
    ensures s in RunWorld(w, steps).store <==>
      s in w.store || exists q :: q in Filings(w, steps, tags, s.field) && q.tag == s.tag && q.time == s.time
    decreases |steps|
  {
    if steps != [] {
      var next, rest := Next(w, steps[0]), steps[1..];
      var x, more := FiledAs(w, steps[0], tags, s.field), Filings(next, rest, tags, s.field);
      StepSlot(w, steps[0], s);
      if steps[0].Message? && IsBlank(TagFor(w.db, steps[0].name)) { BlankSanitizes(TagFor(w.db, steps[0].name)); }
      SlotsAfterRun(next, rest, tags, s);
      assert forall q :: q in Filings(w, steps, tags, s.field) <==> q in Listing(x) || q in more;
      if x.Some? { assert x.value in Listing(x); }
    }
  }

  lemma FiledField(w: World, steps: seq<Step>, tags: seq<string>, f: string, q: Record)
    requires q in Filings(w, steps, tags, f)
    ensures q.field == f && q.tag != "" && q.tag in tags
  {
    FilingsAre(w, steps, tags, f, q);
  }

  /** What was filed in the range stands in the answer with a point at least as late. */
  lemma FiledIsAnswered(w: World, steps: seq<Step>, identifier: string, f: string, from: int, to: int,
                        tables: seq<seq<Record>>, q: Record)
    requires LatestAsked(w, steps, identifier, from, to, tables) && q in FilingsFor(w, steps, identifier, f, from, to)
    ensures exists r :: r in Flatten(tables) && r.field == f && q.time <= r.time
  {
    var tags := QueryTags(RunWorld(w, steps).db, identifier).value;
    FilterIn(Filings(w, steps, tags, f), RecordIn(from, to));
    FiledField(w, steps, tags, f, q);
    var s := Slot(q.tag, q.time, f);
    SlotsAfterRun(w, steps, tags, s);
    assert Selects(tags, s.field, from, to, s) && s in RunWorld(w, steps).store;
    var r :| r in Flatten(tables) && r.tag == s.tag && r.field == s.field && s.time <= r.time;
  }

  /** The run filed `q` in the range under a tag of the identifier. */
  ghost predicate IsFiled(w: World, steps: seq<Step>, identifier: string, from: int, to: int, q: Record) {
    QueryTags(RunWorld(w, steps).db, identifier).Some? && q in FilingsFor(w, steps, identifier, q.field, from, to)
  }

  /** What stands in the answer was filed in the range, at that time and under that tag. */
  lemma AnsweredIsFiled(w: World, steps: seq<Step>, identifier: string, from: int, to: int,
                        tables: seq<seq<Record>>, r: Record)
    requires LatestAsked(w, steps, identifier, from, to, tables) && r in Flatten(tables)
    ensures exists q :: IsFiled(w, steps, identifier, from, to, q) && SameSlot(q, r)
  {
    var tags := QueryTags(RunWorld(w, steps).db, identifier).value;
    var s := Slot(r.tag, r.time, r.field);
    SlotsAfterRun(w, steps, tags, s);
    var q :| q in Filings(w, steps, tags, s.field) && q.tag == s.tag && q.time == s.time;
    FiledField(w, steps, tags, s.field, q);
    FilterIn(Filings(w, steps, tags, q.field), RecordIn(from, to));
    assert IsFiled(w, steps, identifier, from, to, q);
  }

  lemma InWithin(rs: seq<Record>, from: int, to: int, r: Record)
    ensures r in Within(rs, from, to) <==> r in rs && from <= r.time < to
  {
    FilterIn(rs, RecordIn(from, to));
  }

  /** When times differ it was filed with that value. */
  lemma AnsweredValueIsFiled(w: World, steps: seq<Step>, identifier: string, from: int, to: int,
                             tables: seq<seq<Record>>, r: Record)
    requires LatestAsked(w, steps, identifier, from, to, tables) && r in Flatten(tables)
    requires ApartInTime(FilingsFor(w, steps, identifier, r.field, from, to))
    ensures r in FilingsFor(w, steps, identifier, r.field, from, to)
  {
    var tags := QueryTags(RunWorld(w, steps).db, identifier).value;
    ApartWithin(Filings(w, steps, tags, r.field), from, to, r.time);
    RecordsAfterRun(w, steps, tags, r);
    assert Lookup(w.store, Slot(r.tag, r.time, r.field)) == None;
    InWithin(Filings(w, steps, tags, r.field), from, to, r);
  }

  /** The merge of dated records: each field by its last record. */
  lemma MergeOfRecords(rs: seq<Record>, f: string) returns (k: int)
    ensures var values := LT.MergeAll(ToRecs(rs)).values;
      (f in values <==> exists r :: r in rs && r.field == f)
      && (f in values ==> 0 <= k < |rs| && rs[k].field == f && values[f] == ToReading(rs[k]).value
                          && forall r :: r in rs && r.field == f ==> r.time <= rs[k].time)
  {
    var recs := ToRecs(rs);
    k := LT.MergeTakesNewest(recs, f);
    if j :| 0 <= j < |recs| && LT.Of(recs[j], f) { assert rs[j] in rs && rs[j].field == f; }
    forall r | r in rs && r.field == f ensures f in LT.MergeAll(recs).values && r.time <= rs[k].time {
      var j :| 0 <= j < |rs| && rs[j] == r;
      assert LT.Of(recs[j], f);
    }
  }

  lemma LastUpdatedOfRecords(rs: seq<Record>)
    ensures var t := LT.MergeAll(ToRecs(rs)).lastUpdated;
      (t.Some? ==> exists r :: r in rs && Some(r.time) == t)
      && forall r :: r in rs ==> t.Some? && r.time <= t.value
  {
    var recs := ToRecs(rs);
    LT.LastUpdatedIsMaximum(recs);
    var t := LT.MergeAll(recs).lastUpdated;
    if t.Some? {
      var x :| x in recs && LT.Valued(x) && x.time == t;
      var j :| 0 <= j < |recs| && recs[j] == x;
      assert rs[j] in rs && Some(rs[j].time) == t;
    }
    forall r | r in rs ensures t.Some? && r.time <= t.value {
      var j :| 0 <= j < |rs| && rs[j] == r;
      assert recs[j] in recs && LT.Valued(recs[j]) && recs[j].time == Some(r.time);
    }
  }

  ghost predicate LastOf(rs: seq<Record>, r: Record) { r in rs && forall q :: q in rs ==> q.time <= r.time }

  /** Over every run: a field is shown exactly when something was filed for it in the range under a tag
      of the identifier, and the value shown is that of the last reading filed, under whichever tag. */
  lemma LatestIsLastFiled(w: World, steps: seq<Step>, identifier: string, f: string, from: int, to: int,
                          tables: seq<seq<Record>>)
    requires LatestAsked(w, steps, identifier, from, to, tables)
    requires ApartInTime(FilingsFor(w, steps, identifier, f, from, to))
    ensures var values, filed := Latest(tables).values, FilingsFor(w, steps, identifier, f, from, to);
      (f in values <==> filed != [])
      && (f in values ==> exists r :: LastOf(filed, r) && Shows(Reading(r.time, values[f]), r))
  {
    var records, filed := Flatten(tables), FilingsFor(w, steps, identifier, f, from, to);
    var k := MergeOfRecords(records, f);
    if filed != [] { FiledIsAnswered(w, steps, identifier, f, from, to, tables, filed[0]); }
    if f in Latest(tables).values {
      AnsweredValueIsFiled(w, steps, identifier, from, to, tables, records[k]);
      forall q | q in filed ensures q.time <= records[k].time {
        FiledIsAnswered(w, steps, identifier, f, from, to, tables, q);
      }
      ReadingShows(ToReading(records[k]), records[k]);
      assert LastOf(filed, records[k]);
    }
  }

  /** Over every run: the time shown is that of the last reading filed in the range for any field. */
  lemma LastUpdatedIsLastFiled(w: World, steps: seq<Step>, identifier: string, from: int, to: int,
                               tables: seq<seq<Record>>)
    requires LatestAsked(w, steps, identifier, from, to, tables)
    ensures var t := Latest(tables).lastUpdated;
      (t.Some? ==> exists q :: IsFiled(w, steps, identifier, from, to, q) && Some(q.time) == t)
      && forall q :: IsFiled(w, steps, identifier, from, to, q) ==> t.Some? && q.time <= t.value
  {
    var records, t := Flatten(tables), Latest(tables).lastUpdated;
    LastUpdatedOfRecords(records);
    if t.Some? {
      var r :| r in records && Some(r.time) == t;
      AnsweredIsFiled(w, steps, identifier, from, to, tables, r);
    }
    forall q | IsFiled(w, steps, identifier, from, to, q) ensures t.Some? && q.time <= t.value {
      FiledIsAnswered(w, steps, identifier, q.field, from, to, tables, q);
    }
  }
}

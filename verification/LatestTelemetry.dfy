/** Merging the latest records of a device's tags: `get_latest` in backend-python/app/telemetry/router.py. */
module LatestTelemetry {
  import opened Prelude
  import opened Sequences
  import opened Sorting

  /** A record of the union query; any part may be missing. */
  datatype Rec = Rec(field: Option<string>, value: Option<real>, time: Option<int>)

  datatype Merge = Merge(values: map<string, real>, times: map<string, int>, lastUpdated: Option<int>)

  const NOTHING: Merge := Merge(map[], map[], None)

  predicate Valued(r: Rec) { r.field.Some? && r.value.Some? }

  /** The most recent record wins; an undated one only fills an empty slot. */
  function Merged(m: Merge, r: Rec): Merge {
    if !Valued(r) then m
    else
      var f := r.field.value;
      if f in m.values && !(r.time.Some? && (f !in m.times || r.time.value > m.times[f])) then m
      else
        var values := m.values[f := r.value.value];
        if r.time.None? then m.(values := values)
        else Merge(values, m.times[f := r.time.value],
                   if m.lastUpdated.None? || r.time.value > m.lastUpdated.value then r.time else m.lastUpdated)
  }

  function MergeAll(rs: seq<Rec>): Merge {
    if rs == [] then NOTHING else Merged(MergeAll(rs[..|rs| - 1]), rs[|rs| - 1])
  }

  method GetLatest(tables: seq<seq<Rec>>) returns (values: map<string, real>, lastUpdated: Option<int>)
    ensures values == MergeAll(Flatten(tables)).values && lastUpdated == MergeAll(Flatten(tables)).lastUpdated
  {
    values, lastUpdated := map[], None;
    var fieldTimes: map<string, int> := map[];
    for i := 0 to |tables|
      invariant Merge(values, fieldTimes, lastUpdated) == MergeAll(Flatten(tables[..i]))
    {
      var records := tables[i];
      ghost var before := Flatten(tables[..i]);
      FlattenOneMore(tables, i);
      assert before + records[..0] == before;
      for j := 0 to |records|
        invariant Merge(values, fieldTimes, lastUpdated) == MergeAll(before + records[..j])
      {
        MergeOneMore(before, records, j);
        var record := records[j];
        if record.field.None? || record.value.None? {
          continue;
        }
        var field, time := record.field.value, record.time;
        if field in values && !(time.Some? && (field !in fieldTimes || time.value > fieldTimes[field])) {
          continue;
        }
        values := values[field := record.value.value];
        if time.Some? {
          fieldTimes := fieldTimes[field := time.value];
          if lastUpdated.None? || time.value > lastUpdated.value {
            lastUpdated := time;
          }
        }
      }
      assert records[..|records|] == records;
    }
    assert tables[..|tables|] == tables;
  }

  lemma MergeOneMore(before: seq<Rec>, records: seq<Rec>, j: nat)
    requires j < |records|
    ensures MergeAll(before + records[..j + 1]) == Merged(MergeAll(before + records[..j]), records[j])
  {
    var more := before + records[..j + 1];
    assert more[..|more| - 1] == before + records[..j] && more[|more| - 1] == records[j];
  }

  lemma FlattenOneMore(tables: seq<seq<Rec>>, i: nat)
    requires i < |tables|
    ensures Flatten(tables[..i + 1]) == Flatten(tables[..i]) + tables[i]
  {
    assert tables[..i + 1][..i] == tables[..i];
  }

  // ----- What the merge means -----

  predicate Of(r: Rec, f: string) { Valued(r) && r.field.value == f }

  /** Record `k` is the first of the newest records of `f`: the first with the greatest time, or the
      first at all when none is dated. */
  ghost predicate Newest(rs: seq<Rec>, f: string, k: int) {
    0 <= k < |rs| && Of(rs[k], f)
    && if rs[k].time.Some?
       then forall j :: 0 <= j < |rs| && Of(rs[j], f) && rs[j].time.Some? ==>
              rs[j].time.value < rs[k].time.value || (rs[j].time == rs[k].time && k <= j)
       else forall j :: 0 <= j < |rs| && Of(rs[j], f) ==> rs[j].time.None? && k <= j
  }

  /** Each field is answered exactly when a valued record has it, by the newest such record. */
  lemma {:induction false} MergeTakesNewest(rs: seq<Rec>, f: string) returns (k: int)
    ensures f in MergeAll(rs).values <==> exists j :: 0 <= j < |rs| && Of(rs[j], f)
    ensures f in MergeAll(rs).values ==> Newest(rs, f, k) && MergeAll(rs).values[f] == rs[k].value.value
    ensures f in MergeAll(rs).times <==> f in MergeAll(rs).values && rs[k].time.Some?
    ensures f in MergeAll(rs).times ==> Some(MergeAll(rs).times[f]) == rs[k].time
  {
    if rs == [] {
      k := -1;
    } else {
      var last := |rs| - 1;
      var before := rs[..last];
      k := MergeTakesNewest(before, f);
      assert forall j :: 0 <= j < last ==> before[j] == rs[j];
      var m, r := MergeAll(before), rs[last];
      if Of(r, f) && (f !in m.values || (r.time.Some? && (f !in m.times || r.time.value > m.times[f]))) {
        k := last;
      }
    }
  }

  /** `lastUpdated` is the greatest time of any dated valued record. */
  lemma {:induction false} LastUpdatedIsMaximum(rs: seq<Rec>)
    ensures var t := MergeAll(rs).lastUpdated;
      (t.None? <==> forall r :: r in rs && Valued(r) ==> r.time.None?)
      && (t.Some? ==> (exists r :: r in rs && Valued(r) && r.time == t)
                      && forall r :: r in rs && Valued(r) && r.time.Some? ==> r.time.value <= t.value)
    ensures forall f :: f in MergeAll(rs).times ==>
      MergeAll(rs).lastUpdated.Some? && MergeAll(rs).times[f] <= MergeAll(rs).lastUpdated.value
  {
    if rs != [] {
      var before := rs[..|rs| - 1];
      LastUpdatedIsMaximum(before);
      assert rs == before + [rs[|rs| - 1]];
      var r := rs[|rs| - 1];
      assert r in rs;
      if Valued(r) && r.time.None? {
        assert MergeAll(rs).lastUpdated == MergeAll(before).lastUpdated;
      }
    }
  }

  predicate HasDated(rs: seq<Rec>, f: string) {
    exists s :: s in rs && Of(s, f) && s.time.Some?
  }

  /** The records of `f` that may answer: those at the greatest time if any is dated, else all. */
  ghost predicate MayAnswer(rs: seq<Rec>, f: string, r: Rec) {
    r in rs && Of(r, f)
    && (HasDated(rs, f) ==>
          r.time.Some? && forall s :: s in rs && Of(s, f) && s.time.Some? ==> s.time.value <= r.time.value)
  }

  /** For each field all records that may answer have the same value. */
  ghost predicate AnswersAgree(rs: seq<Rec>) {
    forall f, r, s :: MayAnswer(rs, f, r) && MayAnswer(rs, f, s) ==> r.value == s.value
  }

  /** Every arrangement of the records gives the same values. */
  ghost predicate OrderIrrelevant(rs: seq<Rec>) {
    forall rs' :: multiset(rs') == multiset(rs) ==> MergeAll(rs').values == MergeAll(rs).values
  }

  lemma NewestMayAnswer(rs: seq<Rec>, f: string, k: int)
    requires Newest(rs, f, k)
    ensures MayAnswer(rs, f, rs[k])
  {
    if HasDated(rs, f) {
      var s :| s in rs && Of(s, f) && s.time.Some?;
      var i :| 0 <= i < |rs| && rs[i] == s;
      forall r | r in rs && Of(r, f) && r.time.Some? ensures r.time.value <= rs[k].time.value {
        var j :| 0 <= j < |rs| && rs[j] == r;
      }
    }
  }

  lemma SameMayAnswer(rs: seq<Rec>, rs': seq<Rec>, f: string, r: Rec)
    requires forall x :: x in rs <==> x in rs'
    ensures MayAnswer(rs, f, r) <==> MayAnswer(rs', f, r)
  {
    assert HasDated(rs, f) <==> HasDated(rs', f);
  }

  /** When the records that may answer agree, the same records in any order give the same value. */
  lemma FieldOrderIrrelevant(rs: seq<Rec>, rs': seq<Rec>, f: string)
    requires AnswersAgree(rs) && forall r :: r in rs <==> r in rs'
    ensures f in MergeAll(rs).values <==> f in MergeAll(rs').values
    ensures f in MergeAll(rs).values ==> MergeAll(rs).values[f] == MergeAll(rs').values[f]
  {
    var k := MergeTakesNewest(rs, f);
    var k' := MergeTakesNewest(rs', f);
    FieldPresent(rs, rs', f);
    FieldPresent(rs', rs, f);
    if f in MergeAll(rs).values {
      NewestMayAnswer(rs, f, k);
      NewestMayAnswer(rs', f, k');
      SameMayAnswer(rs, rs', f, rs'[k']);
    }
  }

  lemma FieldPresent(rs: seq<Rec>, rs': seq<Rec>, f: string)
    requires forall r :: r in rs ==> r in rs'
    ensures f in MergeAll(rs).values ==> f in MergeAll(rs').values
  {
    var k := MergeTakesNewest(rs, f);
    var k' := MergeTakesNewest(rs', f);
    if j :| 0 <= j < |rs| && Of(rs[j], f) {
      assert rs[j] in rs';
      var j' :| 0 <= j' < |rs'| && rs'[j'] == rs[j];
    }
  }

  lemma AgreementSuffices(rs: seq<Rec>, rs': seq<Rec>)
    requires AnswersAgree(rs) && forall r :: r in rs <==> r in rs'
    ensures MergeAll(rs).values == MergeAll(rs').values
  {
    forall f
      ensures f in MergeAll(rs).values <==> f in MergeAll(rs').values
      ensures f in MergeAll(rs).values ==> MergeAll(rs).values[f] == MergeAll(rs').values[f]
    {
      FieldOrderIrrelevant(rs, rs', f);
    }
  }

  /** The same records with one of them in front. */
  lemma ToFront(rs: seq<Rec>, r: Rec) returns (rs': seq<Rec>)
    requires r in rs
    ensures multiset(rs') == multiset(rs) && rs' != [] && rs'[0] == r
  {
    var i :| 0 <= i < |rs| && rs[i] == r;
    rs' := [r] + (rs[..i] + rs[i + 1..]);
    assert rs == rs[..i] + ([r] + rs[i + 1..]);
  }

  /** A record that may answer does so from the front. */
  lemma FrontAnswers(rs: seq<Rec>, f: string)
    requires rs != [] && MayAnswer(rs, f, rs[0])
    ensures f in MergeAll(rs).values && MergeAll(rs).values[f] == rs[0].value.value
  {
    var k := MergeTakesNewest(rs, f);
    assert rs[0] in rs && Of(rs[0], f) && rs[k] in rs;
    if HasDated(rs, f) { NewestMayAnswer(rs, f, k); }
  }

  lemma OrderShows(rs: seq<Rec>, f: string, r: Rec)
    requires OrderIrrelevant(rs) && MayAnswer(rs, f, r)
    ensures f in MergeAll(rs).values && r.value == Some(MergeAll(rs).values[f])
  {
    var rs' := ToFront(rs, r);
    SameElements(rs, rs');
    SameMayAnswer(rs, rs', f, r);
    FrontAnswers(rs', f);
  }

  /** The values do not depend on the order of tables and records exactly when, for each field, all
      records at its greatest time, or all records if none is dated, agree. */
  lemma OrderIrrelevantExactly(rs: seq<Rec>)
    ensures OrderIrrelevant(rs) <==> AnswersAgree(rs)
  {
    if AnswersAgree(rs) {
      forall rs' | multiset(rs') == multiset(rs) ensures MergeAll(rs').values == MergeAll(rs).values {
        SameElements(rs, rs');
        AgreementSuffices(rs, rs');
      }
    }
    if OrderIrrelevant(rs) {
      forall f, r, s | MayAnswer(rs, f, r) && MayAnswer(rs, f, s) ensures r.value == s.value {
        OrderShows(rs, f, r);
        OrderShows(rs, f, s);
      }
    }
  }

  ghost predicate TiesAgree(rs: seq<Rec>) {
    forall r, s ::
      r in rs && s in rs && Valued(r) && Valued(s) && r.field == s.field && r.time.Some? && r.time == s.time ==>
      r.value == s.value
  }

  /** Records of one field at one time agree, and a field with records has a dated one. */
  ghost predicate Consistent(rs: seq<Rec>) {
    TiesAgree(rs) && forall r :: r in rs && Valued(r) ==> HasDated(rs, r.field.value)
  }

  /** In particular, for records that agree at equal times and fields that have a dated record, the
      whole answer does not depend on the order. */
  lemma MergeOrderIrrelevant(rs: seq<Rec>, rs': seq<Rec>)
    requires Consistent(rs) && forall r :: r in rs <==> r in rs'
    ensures MergeAll(rs).values == MergeAll(rs').values && MergeAll(rs).lastUpdated == MergeAll(rs').lastUpdated
  {
    forall f, r, s | MayAnswer(rs, f, r) && MayAnswer(rs, f, s) ensures r.value == s.value {
      assert HasDated(rs, f);
    }
    AgreementSuffices(rs, rs');
    LastUpdatedOrderIrrelevant(rs, rs');
  }

  /** The time of the last update never depends on the order. */
  lemma LastUpdatedOrderIrrelevant(rs: seq<Rec>, rs': seq<Rec>)
    requires forall r :: r in rs <==> r in rs'
    ensures MergeAll(rs).lastUpdated == MergeAll(rs').lastUpdated
  {
    LastUpdatedIsMaximum(rs);
    LastUpdatedIsMaximum(rs');
  }

  lemma MergeOfTwo(a: Rec, b: Rec)
    ensures MergeAll([a, b]) == Merged(Merged(NOTHING, a), b)
  {
    assert [a, b][..1] == [a] && [a][..0] == [];
    assert MergeAll([a]) == Merged(MergeAll([]), a);
    assert MergeAll([a, b]) == Merged(MergeAll([a]), b);
  }

  /** Two undated records of one field that disagree answer by their order; so do two of the same time,
      such as two tags of one device may hold. */
  lemma OrderMatters(time: Option<int>)
    ensures var a, b := Rec(Some("humidity"), Some(1.0), time), Rec(Some("humidity"), Some(2.0), time);
      MergeAll([a, b]).values == map["humidity" := 1.0] && MergeAll([b, a]).values == map["humidity" := 2.0]
  {
    var a, b := Rec(Some("humidity"), Some(1.0), time), Rec(Some("humidity"), Some(2.0), time);
    MergeOfTwo(a, b);
    MergeOfTwo(b, a);
  }
}

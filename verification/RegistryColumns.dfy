/** What a sync and a state report write into the rows, column by column, told from the device list
    alone: backend-python/app/device/z2m_mapper.py and the columns of backend-python/schema.sql. */
module RegistryColumns {
  import opened Prelude
  import opened Sequences
  import opened Registry
  import opened RegistryInvariant
  import opened RegistrySync
  import opened RegistryRuns

  // ----- Words in a description -----

  /** The same letter, in lower or upper case. */
  predicate SameLetter(c: char, small: char) { c == small || ('A' <= c <= 'Z' && c as int + 32 == small as int) }

  /** The description contains the word, whatever the case of its letters. */
  ghost predicate Says(text: string, word: string) {
    exists i :: 0 <= i && SaysAt(text, word, i)
  }

  predicate SaysAt(text: string, word: string, i: nat) {
    i + |word| <= |text| && forall k :: 0 <= k < |word| ==> SameLetter(text[i + k], word[k])
  }

  predicate IsSmall(word: string) { forall k :: 0 <= k < |word| ==> 'a' <= word[k] <= 'z' }

  lemma LowerLetter(c: char, small: char)
    requires 'a' <= small <= 'z'
    ensures Lower([c])[0] == small <==> SameLetter(c, small)
  {
  }

  lemma SaysWhereItOccurs(text: string, word: string, i: nat)
    requires IsSmall(word)
    ensures SaysAt(text, word, i) <==> OccursAt(Lower(text), word, i)
  {
    var low := Lower(text);
    if i + |word| <= |text| {
      forall k | 0 <= k < |word| ensures low[i..i + |word|][k] == word[k] <==> SameLetter(text[i + k], word[k]) {
        LowerLetter(text[i + k], word[k]);
      }
    }
  }

  lemma SaysIsMentions(text: string, word: string)
    requires IsSmall(word)
    ensures Says(text, word) <==> Mentions(Lower(text), word)
  {
    if i: nat :| SaysAt(text, word, i) { SaysWhereItOccurs(text, word, i); }
    if i :| 0 <= i <= |Lower(text)| && OccursAt(Lower(text), word, i) { SaysWhereItOccurs(text, word, i); }
  }

  ghost predicate SaysLight(t: string) { Says(t, "light") || Says(t, "bulb") || Says(t, "led") }

  ghost predicate SaysSensor(t: string) {
    Says(t, "sensor") || Says(t, "motion") || Says(t, "occupancy") || Says(t, "temperature")
  }

  ghost predicate SaysSwitch(t: string) { Says(t, "switch") || Says(t, "button") }

  /** The kind told by the description: lights first, then sensors, then switches. */
  ghost predicate IsKind(p: Payload, kind: DeviceType) {
    if p.definition.None? || p.definition.value.description.None? then kind == Other
    else
      var t := p.definition.value.description.value;
      (kind == Light <==> SaysLight(t))
      && (kind == Sensor <==> SaysSensor(t) && !SaysLight(t))
      && (kind == Switch <==> SaysSwitch(t) && !SaysSensor(t) && !SaysLight(t))
      && (kind == Other <==> !SaysSwitch(t) && !SaysSensor(t) && !SaysLight(t))
  }

  lemma WordsAgree(t: string)
    ensures SaysLight(t) <==> Mentions(Lower(t), "light") || Mentions(Lower(t), "bulb") || Mentions(Lower(t), "led")
    ensures SaysSensor(t) <==> Mentions(Lower(t), "sensor") || Mentions(Lower(t), "motion")
                               || Mentions(Lower(t), "occupancy") || Mentions(Lower(t), "temperature")
    ensures SaysSwitch(t) <==> Mentions(Lower(t), "switch") || Mentions(Lower(t), "button")
  {
    SaysIsMentions(t, "light");
    SaysIsMentions(t, "bulb");
    SaysIsMentions(t, "led");
    SaysIsMentions(t, "sensor");
    SaysIsMentions(t, "motion");
    SaysIsMentions(t, "occupancy");
    SaysIsMentions(t, "temperature");
    SaysIsMentions(t, "switch");
    SaysIsMentions(t, "button");
  }

  /** The type of a device is told by the words of its description, in their order. */
  lemma TypeFollowsWords(p: Payload)
    ensures IsKind(p, DetermineType(p))
  {
    if p.definition.Some? && p.definition.value.description.Some? { WordsAgree(p.definition.value.description.value); }
  }

  // ----- The columns of an entry -----

  /** The definition's text if it gives one, else the entry's own. */
  predicate IsPreferred(inner: Option<Option<string>>, own: Option<string>, t: Option<string>) {
    if inner.Some? && inner.value.Some? then t == inner.value else t == own
  }

  function InnerVendor(p: Payload): Option<Option<string>> {
    if p.definition.None? then None else Some(p.definition.value.vendor)
  }

  function InnerModel(p: Payload): Option<Option<string>> {
    if p.definition.None? then None else Some(p.definition.value.model)
  }

  /** The row carries what the entry says. */
  ghost predicate Carries(d: Device, p: Payload) {
    p.name == Some(d.name) && IsKind(p, d.kind)
    && IsPreferred(InnerVendor(p), p.vendor, d.vendor) && IsPreferred(InnerModel(p), p.model, d.model)
  }

  /** Entry `k` is the last one for the address. */
  ghost predicate LastEntry(ps: seq<Payload>, a: string, k: int) {
    0 <= k < |ps| && ps[k].ieee == Some(a) && forall j :: k < j < |ps| ==> ps[j].ieee != Some(a)
  }

  lemma {:induction false} LatestIsLast(ps: seq<Payload>, a: string)
    ensures Latest(ps, a).Some? ==> exists k :: LastEntry(ps, a, k) && ps[k] == Latest(ps, a).value
    ensures Latest(ps, a).None? ==> forall k :: !LastEntry(ps, a, k)
    ensures forall k :: LastEntry(ps, a, k) ==> Latest(ps, a) == Some(ps[k])
  {
    if ps != [] {
      var last := |ps| - 1;
      if ps[last].ieee == Some(a) {
        assert LastEntry(ps, a, last);
      } else {
        LatestIsLast(ps[..last], a);
        forall k ensures LastEntry(ps, a, k) <==> LastEntry(ps[..last], a, k) { SameLast(ps, a, k); }
      }
    }
  }

  lemma SameLast(ps: seq<Payload>, a: string, k: int)
    requires ps != [] && ps[|ps| - 1].ieee != Some(a)
    ensures LastEntry(ps, a, k) <==> LastEntry(ps[..|ps| - 1], a, k)
  {
    assert forall j :: 0 <= j < |ps| - 1 ==> ps[..|ps| - 1][j] == ps[j];
  }

  lemma RefreshCarries(d: Device, p: Payload)
    requires p.name.Some?
    ensures var r := Refresh(d, p);
      Carries(r, p) && r.id == d.id && r.ieee == d.ieee && r.available == d.available && r.state == d.state
  {
    TypeFollowsWords(p);
  }

  lemma EntityCarries(id: nat, p: Payload)
    requires p.ieee.Some? && p.name.Some?
    ensures var r := ToEntity(id, p);
      Carries(r, p) && r.id == id && Some(r.ieee) == p.ieee && r.available && r.state.None?
  {
    TypeFollowsWords(p);
  }

  /** A row after an accepted sync, from the row before. */
  ghost predicate OldRowSynced(ps: seq<Payload>, o: Device, d: Device) {
    d.id == o.id && d.ieee == o.ieee && d.state == o.state
    && (d.available <==> o.available && exists k :: LastEntry(ps, o.ieee, k))
    && (forall k :: LastEntry(ps, o.ieee, k) ==> Carries(d, ps[k]))
    && ((forall k :: !LastEntry(ps, o.ieee, k)) ==>
          d.name == o.name && d.kind == o.kind && d.vendor == o.vendor && d.model == o.model)
  }

  /** A row that an accepted sync adds. */
  ghost predicate NewRowSynced(db: Db, ps: seq<Payload>, i: nat, d: Device) {
    d.id == db.nextDevice + i - |db.devices| && FindByAddress(db, d.ieee).None?
    && d.available && d.state.None? && exists k :: LastEntry(ps, d.ieee, k) && Carries(d, ps[k])
  }

  lemma RowAfterSynced(ps: seq<Payload>, o: Device)
    requires forall p :: p in ps ==> p.name.Some?
    ensures OldRowSynced(ps, o, RowAfter(o, ps))
  {
    LatestIsLast(ps, o.ieee);
    if Latest(ps, o.ieee).Some? { RefreshCarries(o, Latest(ps, o.ieee).value); }
  }

  lemma NewRowIsSynced(db: Db, ps: seq<Payload>, i: nat, d: Device)
    requires NewRow(db, ps, i, d)
    ensures NewRowSynced(db, ps, i, d)
  {
    LatestIsLast(ps, d.ieee);
    EntityCarries(d.id, Latest(ps, d.ieee).value);
  }

  /** An accepted sync column by column. Every row there was keeps its place, id, address and reported
      state, is available if it was and is listed, and, if listed, carries what the last entry for its
      address says; every new row has the next id and a new address, carries what the last entry for it
      says, and is available without a reported state. */
  lemma SyncColumns(db: Db, ps: seq<Payload>)
    requires WellFormed(db) && forall p :: p in ps ==> Accepts(db, p)
    ensures var ds := Sync(db, ps).devices;
      |db.devices| <= |ds|
      && (forall i :: 0 <= i < |db.devices| ==> OldRowSynced(ps, db.devices[i], ds[i]))
      && forall i :: |db.devices| <= i < |ds| ==>
           NewRowSynced(db, ps, i, ds[i])
  {
    SyncMeetsSpec(db, ps);
    var ds := Sync(db, ps).devices;
    forall i | 0 <= i < |db.devices| ensures OldRowSynced(ps, db.devices[i], ds[i]) {
      RowAfterSynced(ps, db.devices[i]);
    }
    forall i | |db.devices| <= i < |ds| ensures NewRowSynced(db, ps, i, ds[i]) { NewRowIsSynced(db, ps, i, ds[i]); }
  }

  // ----- Which entries are refused -----

  predicate TooLong(t: Option<string>) { t.Some? && |t.value| > 255 }

  /** The database refuses an entry exactly when its address or its name is missing, a new address has
      more than 24 characters, or the name, the vendor or the model more than 255. */
  lemma RefusedExactly(db: Db, p: Payload, vendor: Option<string>, model: Option<string>)
    requires IsPreferred(InnerVendor(p), p.vendor, vendor) && IsPreferred(InnerModel(p), p.model, model)
    ensures !Accepts(db, p) <==>
      p.ieee.None? || p.name.None? || TooLong(p.name) || TooLong(vendor) || TooLong(model)
      || (|p.ieee.value| > 24 && forall d :: d in db.devices ==> d.ieee != p.ieee.value)
  {
    if p.ieee.Some? {
      var i := IndexOfAddress(db.devices, p.ieee.value);
      if i < |db.devices| {
        assert db.devices[i] in db.devices;
      } else {
        forall d | d in db.devices ensures d.ieee != p.ieee.value {
          var j :| 0 <= j < |db.devices| && db.devices[j] == d;
        }
      }
    }
  }

  // ----- A reported state -----

  /** A state report stores exactly the text in the row at the address, if it has at most ten characters,
      and changes nothing else. */
  lemma StateEffect(db: Db, a: string, text: string, b: string)
    requires WellFormed(db)
    ensures var db' := UpdateState(db, a, text);
      FindByAddress(db', b) ==
        (if b == a && FindByAddress(db, a).Some? && |text| <= 10
         then Some(FindByAddress(db, a).value.(state := Some(text))) else FindByAddress(db, b))
      && db'.aliases == db.aliases && |db'.devices| == |db.devices|
      && (FindByAddress(db, a).None? || |text| > 10 ==> db' == db)
  {
    var i := IndexOfAddress(db.devices, a);
    if i < |db.devices| && |text| <= 10 { OneRowFinds(db, i, db.devices[i].(state := Some(text)), b); }
  }
}

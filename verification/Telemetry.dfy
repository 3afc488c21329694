/** Filing and reading telemetry: backend-python/app/mqtt/consumers.py, app/telemetry/service.py and
    app/telemetry/router.py. The time series database is a map from slots to values: a write to
    a slot that is taken overwrites it. */
module Telemetry {
  import opened Prelude
  import opened Registry
  import opened DeviceIdentity

  /** A parsed JSON value; `Nested` stands for objects and lists. */
  datatype Json = Null | Flag(flag: bool) | Num(num: real) | Text(text: string) | Nested

  type Body = map<string, Json>

  datatype Value = Bool(flag: bool) | Number(num: real)

  datatype Slot = Slot(tag: string, time: int, field: string)

  type Store = map<Slot, Value>

  const KNOWN_FIELDS: set<string> :=
    {"temperature", "humidity", "battery", "power", "voltage", "energy", "linkquality", "contact", "state"}

  // ----- Tags -----

  predicate IsTagChar(c: char) {
    'a' <= c <= 'z' || 'A' <= c <= 'Z' || '0' <= c <= '9' || c == '_' || c == '-'
  }

  function Kept(c: char): string { if IsTagChar(c) then [c] else "" }

  /** Drop every character outside [a-zA-Z0-9_-]; the caller rejects blank input. */
  function Sanitize(s: string): string {
    if s == "" then "" else Kept(s[0]) + Sanitize(s[1..])
  }

  /** Only characters a tag may hold. */
  predicate IsTag(s: string) { forall i :: 0 <= i < |s| ==> IsTagChar(s[i]) }

  /** The same by character codes: the letters, the digits, the underscore and the hyphen of ASCII. */
  lemma TagCodes(c: char)
    ensures var k := c as int;
      IsTagChar(c) <==> 65 <= k <= 90 || 97 <= k <= 122 || 48 <= k <= 57 || k == 95 || k == 45
  {
  }

  lemma SanitizeCons(c: char, s: string)
    ensures Sanitize([c] + s) == Kept(c) + Sanitize(s)
  {
    assert ([c] + s)[1..] == s;
  }

  lemma IsTagCons(c: char, s: string)
    ensures IsTag([c] + s) <==> IsTagChar(c) && IsTag(s)
  {
    assert ([c] + s)[0] == c;
    assert forall i :: 0 <= i < |s| ==> ([c] + s)[i + 1] == s[i];
  }

  lemma SameTail(c: char, s: string, t: string)
    ensures [c] + s == [c] + t <==> s == t
  {
    assert ([c] + s)[1..] == s && ([c] + t)[1..] == t;
  }

  /** A tag holds only the permitted characters, and a text is its own tag exactly when it does. */
  lemma {:induction false} SanitizeKeepsTags(s: string)
    ensures IsTag(Sanitize(s))
    ensures Sanitize(s) == s <==> IsTag(s)
    ensures |Sanitize(s)| <= |s|
  {
    if s != "" {
      var c, rest := s[0], s[1..];
      assert s == [c] + rest;
      SanitizeKeepsTags(rest);
      SanitizeCons(c, rest);
      IsTagCons(c, rest);
      if IsTagChar(c) {
        IsTagCons(c, Sanitize(rest));
        SameTail(c, Sanitize(rest), rest);
      } else {
        assert "" + Sanitize(rest) == Sanitize(rest);
      }
    }
  }

  lemma TextAssociates(a: string, b: string, c: string)
    ensures a + (b + c) == (a + b) + c
  {
  }

  lemma {:induction false} SanitizeJoins(s: string, t: string)
    ensures Sanitize(s + t) == Sanitize(s) + Sanitize(t)
  {
    if s == "" {
      assert s + t == t;
    } else {
      var c, rest := s[0], s[1..];
      assert s == [c] + rest;
      TextAssociates([c], rest, t);
      SanitizeCons(c, rest + t);
      SanitizeJoins(rest, t);
      TextAssociates(Kept(c), Sanitize(rest), Sanitize(t));
    }
  }

  /** Two names share a tag whenever they differ only in dropped characters. */
  lemma NamesCollide(s: string, dropped: string, t: string)
    requires Sanitize(dropped) == ""
    ensures Sanitize(s + dropped + t) == Sanitize(s + t)
  {
    SanitizeJoins(s + dropped, t);
    SanitizeJoins(s, dropped);
    SanitizeJoins(s, t);
  }

  /** A name shares its tag with another name made of tag characters exactly when some character of
      its own is dropped. */
  lemma CollidesExactly(s: string)
    ensures (exists t :: t != s && IsTag(t) && Sanitize(t) == Sanitize(s)) <==> !IsTag(s)
  {
    SanitizeKeepsTags(s);
    SanitizeKeepsTags(Sanitize(s));
    if t :| t != s && IsTag(t) && Sanitize(t) == Sanitize(s) { SanitizeKeepsTags(t); }
    if !IsTag(s) { assert Sanitize(s) != s && IsTag(Sanitize(s)) && Sanitize(Sanitize(s)) == Sanitize(s); }
  }

  function AddTags(tags: seq<string>, ids: seq<string>): seq<string>
    decreases |ids|
  {
    if ids == [] then tags
    else if Sanitize(ids[0]) !in tags then AddTags(tags + [Sanitize(ids[0])], ids[1..])
    else AddTags(tags, ids[1..])
  }

  /** The tags a query asks for; None when an identifier is blank or there is none, which fails the
      request. */
  function DeviceFilter(ids: seq<string>): Option<seq<string>> {
    if ids == [] || exists i :: 0 <= i < |ids| && IsBlank(ids[i]) then None else Some(AddTags([], ids))
  }

  lemma {:induction false} AddTagsSpec(tags: seq<string>, ids: seq<string>)
    requires NoDuplicates(tags)
    ensures NoDuplicates(AddTags(tags, ids))
    ensures forall t :: t in AddTags(tags, ids) <==> t in tags || exists i :: 0 <= i < |ids| && Sanitize(ids[i]) == t
    decreases |ids|
  {
    if ids != [] {
      var more := if Sanitize(ids[0]) !in tags then tags + [Sanitize(ids[0])] else tags;
      AddTagsSpec(more, ids[1..]);
      forall t ensures t in AddTags(tags, ids) <==> t in tags || exists i :: 0 <= i < |ids| && Sanitize(ids[i]) == t {
        if i :| 0 <= i < |ids| && Sanitize(ids[i]) == t {
          assert i == 0 || Sanitize(ids[1..][i - 1]) == t;
        }
        if i :| 0 <= i < |ids[1..]| && Sanitize(ids[1..][i]) == t {
          assert Sanitize(ids[i + 1]) == t;
        }
      }
    }
  }

  method BuildDeviceFilter(ids: seq<string>) returns (filter: Option<seq<string>>)
    ensures filter == DeviceFilter(ids)
  {
    if |ids| == 0 {
      return None;
    }
    var seen: seq<string> := [];
    assert ids[0..] == ids;
    for i := 0 to |ids|
      invariant AddTags(seen, ids[i..]) == AddTags([], ids)
      invariant forall j :: 0 <= j < i ==> !IsBlank(ids[j])
    {
      if IsBlank(ids[i]) {
        return None;
      }
      var cleaned := Sanitize(ids[i]);
      assert ids[i..][1..] == ids[i + 1..];
      if cleaned !in seen {
        seen := seen + [cleaned];
      }
    }
    return Some(seen);
  }

  // ----- Fields -----

  predicate IsActuator(kind: DeviceType) {
    kind == Light || kind == Switch || kind == Plug
  }

  /** "ON" and "OFF" as a boolean; anything else is not an on/off state. */
  function StateToBool(body: Body): Option<bool> {
    if "state" !in body then None
    else if body["state"] == Text("ON") then Some(true)
    else if body["state"] == Text("OFF") then Some(false)
    else None
  }

  /** The known fields of a message; `state` only as the on/off state of a known actuator. */
  function FieldsToFile(id: Option<Identity>, body: Body): Body {
    var on := StateToBool(body);
    var source := if id.Some? && IsActuator(id.value.kind) && on.Some?
                  then body["state" := Flag(on.value)]
                  else body - {"state"};
    map k | k in source && k in KNOWN_FIELDS :: source[k]
  }

  /** Booleans stay, numbers stay, everything else is dropped. */
  function Normalize(fields: Body): map<string, Value> {
    map k | k in fields && (fields[k].Flag? || fields[k].Num?) ::
      if fields[k].Flag? then Bool(fields[k].flag) else Number(fields[k].num)
  }

  method NormalizeFields(fields: Body) returns (normalized: map<string, Value>)
    ensures normalized == Normalize(fields)
  {
    normalized := map[];
    var left := fields.Keys;
    while left != {}
      invariant left <= fields.Keys
      invariant normalized == Normalize(map k | k in fields && k !in left :: fields[k])
      decreases left
    {
      var key :| key in left;
      left := left - {key};
      match fields[key] {
        case Flag(b) => normalized := normalized[key := Bool(b)];
        case Num(x) => normalized := normalized[key := Number(x)];
        case _ =>
      }
    }
    assert fields == map k | k in fields && k !in left :: fields[k];
  }

  // ----- Filing -----

  function Points(tag: string, time: int, fields: map<string, Value>): Store {
    map k | k in fields :: Slot(tag, time, k) := fields[k]
  }

  /** A blank tag is refused; otherwise each field takes its slot. */
  function WriteTelemetry(store: Store, deviceId: string, time: int, fields: Body): Store {
    if IsBlank(deviceId) then store else store + Points(Sanitize(deviceId), time, Normalize(fields))
  }

  /** The registry and the time series. */
  datatype World = World(db: Db, store: Store)

  function TagFor(db: Db, name: string): string {
    match Resolve(db, name)
    case None => name
    case Some(id) => id.ieee
  }

  /** The registry change a message makes: a reported state text goes to the device's row. */
  function MessageAction(db: Db, name: string, body: Body): Option<Action> {
    if Resolve(db, name).Some? && "state" in body && body["state"].Text?
    then Some(ReportState(Resolve(db, name).value.ieee, body["state"].text))
    else None
  }

  /** One message on the topic `name`, written at `time`. */
  function Consume(w: World, name: string, body: Body, time: int): World {
    var action := MessageAction(w.db, name, body);
    var db := if action.Some? then Act(w.db, action.value) else w.db;
    World(db, WriteTelemetry(w.store, TagFor(w.db, name), time, FieldsToFile(Resolve(w.db, name), body)))
  }

  /** The name an event carries for a topic: the registry's, or the topic's when it resolves to nothing. */
  function NameFor(db: Db, name: string): string {
    match Resolve(db, name)
    case None => name
    case Some(id) => id.name
  }

  /** The event a message causes; none when it has no known field or no usable tag. */
  function Announced(db: Db, name: string, body: Body): Option<(string, Body)> {
    var fields := FieldsToFile(Resolve(db, name), body);
    if fields == map[] || IsBlank(TagFor(db, name)) then None else Some((NameFor(db, name), fields))
  }

  // ----- Reading -----

  datatype Record = Record(tag: string, time: int, field: string, value: Value)

  /** `range(start, stop)` is half open; a point whose tag is empty carries no tag, so no filter on
      the tag selects it. */
  predicate Selects(tags: seq<string>, field: string, from: int, to: int, s: Slot) {
    s.tag != "" && s.tag in tags && s.field == field && from <= s.time < to
  }

  /** `records`, in any order, are the answer to a query: each selected slot once. */
  ghost predicate Answers(store: Store, tags: seq<string>, field: string, from: int, to: int, records: seq<Record>) {
    NoDuplicates(records)
    && forall r :: r in records <==>
         var s := Slot(r.tag, r.time, r.field);
         Selects(tags, field, from, to, s) && s in store && store[s] == r.value
  }

  /** The tags a request for `identifier` asks for: those of the device it leads to, or itself. */
  function QueryTags(db: Db, identifier: string): Option<seq<string>> {
    match Resolve(db, identifier)
    case None => DeviceFilter([identifier])
    case Some(id) => DeviceFilter(TelemetryKeys(id))
  }
}

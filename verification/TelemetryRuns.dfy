/** Runs of registry actions and messages: what they leave in the store, which history requests can be
    answered, and that no reading with a tag is lost across renames and late registration. */
module TelemetryRuns {
  import opened Prelude
  import opened Registry
  import opened RegistryInvariant
  import opened RegistryRuns
  import opened RegistrySync
  import opened RegistryColumns
  import opened DeviceIdentity
  import opened Telemetry

  datatype Step = Change(action: Action) | Message(name: string, body: Body, time: int)

  function Next(w: World, step: Step): World {
    match step
    case Change(action) => w.(db := Act(w.db, action))
    case Message(n, body, t) => Consume(w, n, body, t)
  }

  function RunWorld(w: World, steps: seq<Step>): World
    decreases |steps|
  {
    if steps == [] then w else RunWorld(Next(w, steps[0]), steps[1..])
  }

  /** The registry's part in a step. */
  function ActionsOf(w: World, step: Step): seq<Action> {
    match step
    case Change(action) => [action]
    case Message(n, body, t) => var a := MessageAction(w.db, n, body); if a.Some? then [a.value] else []
  }

  function AllActions(w: World, steps: seq<Step>): seq<Action>
    decreases |steps|
  {
    if steps == [] then [] else ActionsOf(w, steps[0]) + AllActions(Next(w, steps[0]), steps[1..])
  }

  /** A run of the whole system is, for the registry, the run of its actions. */
  lemma {:induction false} RegistryPart(w: World, steps: seq<Step>)
    ensures RunWorld(w, steps).db == Run(w.db, AllActions(w, steps))
    decreases |steps|
  {
    if steps != [] {
      var next := Next(w, steps[0]);
      RegistryPart(next, steps[1..]);
      var first := ActionsOf(w, steps[0]);
      RunSplits(w.db, first, AllActions(next, steps[1..]));
      assert Run(w.db, first) == next.db by {
        if first != [] { assert first[1..] == []; }
      }
    }
  }

  // ----- Slots -----

  lemma {:induction false} BlankSanitizes(s: string)
    requires IsBlank(s)
    ensures Sanitize(s) == ""
  {
    if s != "" {
      assert IsSpace(s[0]);
      forall i | 0 <= i < |s[1..]| ensures IsSpace(s[1..][i]) { assert IsSpace(s[i + 1]); }
      BlankSanitizes(s[1..]);
    }
  }

  /** What one message does to one slot. */
  lemma ConsumeSlot(w: World, n: string, body: Body, t: int, s: Slot)
    ensures var tag := TagFor(w.db, n);
      var fields := Normalize(FieldsToFile(Resolve(w.db, n), body));
      var store := Consume(w, n, body, t).store;
      if !IsBlank(tag) && s.tag == Sanitize(tag) && s.time == t && s.field in fields
      then s in store && store[s] == fields[s.field]
      else (s in store <==> s in w.store) && (s in store ==> store[s] == w.store[s])
  {
    var tag := TagFor(w.db, n);
    var fields := Normalize(FieldsToFile(Resolve(w.db, n), body));
    var points := Points(Sanitize(tag), t, fields);
    assert s in points <==> s.tag == Sanitize(tag) && s.time == t && s.field in fields;
  }

  // ----- What one message files, told from its body -----

  /** The address of the device a topic leads to, or the topic name itself. */
  function FiledUnder(db: Db, n: string): string {
    if ResolveDevice(db, n).Some? then ResolveDevice(db, n).value.ieee else n
  }

  /** The topic leads to a light, a switch or a plug. */
  predicate LeadsToActuator(db: Db, n: string) {
    ResolveDevice(db, n).Some? && ResolveDevice(db, n).value.kind in {Light, Switch, Plug}
  }

  /** The message says ON or OFF. */
  predicate SaysState(body: Body, text: string) { "state" in body && body["state"] == Text(text) }

  /** The state slot after a message: true for ON and false for OFF of a light, switch or plug, at the time
      of the message under the device's address; otherwise what it held. */
  lemma StateFiled(w: World, n: string, body: Body, t: int, s: Slot)
    requires s.field == "state"
    ensures var own := !IsBlank(FiledUnder(w.db, n)) && s.tag == Sanitize(FiledUnder(w.db, n)) && s.time == t;
      var store := Consume(w, n, body, t).store;
      (own && LeadsToActuator(w.db, n) && SaysState(body, "ON") ==> Lookup(store, s) == Some(Bool(true)))
      && (own && LeadsToActuator(w.db, n) && SaysState(body, "OFF") ==> Lookup(store, s) == Some(Bool(false)))
      && (!own || !LeadsToActuator(w.db, n) || !(SaysState(body, "ON") || SaysState(body, "OFF")) ==>
            Lookup(store, s) == Lookup(w.store, s))
  {
    ConsumeSlot(w, n, body, t, s);
    assert "ON"[1] != "OFF"[1];
    assert "state" in KNOWN_FIELDS;
  }

  predicate IsReadingField(f: string) {
    f in {"temperature", "humidity", "battery", "power", "voltage", "energy", "linkquality", "contact"}
  }

  /** Every other slot after a message: a true or false or a number in one of the eight readings is filed
      as it is, at the time of the message under the device's address; otherwise the slot keeps what it
      held. */
  lemma ReadingFiled(w: World, n: string, body: Body, t: int, s: Slot)
    requires s.field != "state"
    ensures var own := !IsBlank(FiledUnder(w.db, n)) && s.tag == Sanitize(FiledUnder(w.db, n)) && s.time == t
                       && IsReadingField(s.field);
      var store := Consume(w, n, body, t).store;
      if own && s.field in body && body[s.field].Flag? then Lookup(store, s) == Some(Bool(body[s.field].flag))
      else if own && s.field in body && body[s.field].Num? then Lookup(store, s) == Some(Number(body[s.field].num))
      else Lookup(store, s) == Lookup(w.store, s)
  {
    ConsumeSlot(w, n, body, t, s);
    FieldKept(Resolve(w.db, n), body, s.field);
  }

  lemma FieldKept(id: Option<Identity>, body: Body, f: string)
    requires f != "state"
    ensures var fields := Normalize(FieldsToFile(id, body));
      (f in fields <==> IsReadingField(f) && f in body && (body[f].Flag? || body[f].Num?))
      && (f in fields ==> fields[f] == if body[f].Flag? then Bool(body[f].flag) else Number(body[f].num))
  {
    FieldChosen(id, body, f);
  }

  lemma FieldChosen(id: Option<Identity>, body: Body, f: string)
    requires f != "state"
    ensures f in FieldsToFile(id, body) <==> IsReadingField(f) && f in body
    ensures f in FieldsToFile(id, body) ==> FieldsToFile(id, body)[f] == body[f]
  {
    KnownFields(f);
  }

  lemma KnownFields(f: string)
    ensures f in KNOWN_FIELDS <==> f == "state" || IsReadingField(f)
  {
  }

  /** A message changes the reported state of the device it leads to, to the text it gives if that has at
      most ten characters, and nothing else in the registry. */
  lemma MessageReports(w: World, n: string, body: Body, t: int, a: string)
    requires WellFormed(w.db)
    ensures var d, db := ResolveDevice(w.db, n), Consume(w, n, body, t).db;
      FindByAddress(db, a) ==
        (if d.Some? && d.value.ieee == a && "state" in body && body["state"].Text? && |body["state"].text| <= 10
         then Some(d.value.(state := Some(body["state"].text))) else FindByAddress(w.db, a))
      && db.aliases == w.db.aliases && |db.devices| == |w.db.devices|
  {
    var d := ResolveDevice(w.db, n);
    MessageActs(w, n, body, t);
    if d.Some? && "state" in body && body["state"].Text? {
      StateEffect(w.db, d.value.ieee, body["state"].text, a);
      ResolvedIsRow(w.db, n);
    }
  }

  lemma MessageActs(w: World, n: string, body: Body, t: int)
    ensures Consume(w, n, body, t).db ==
      if ResolveDevice(w.db, n).Some? && "state" in body && body["state"].Text?
      then UpdateState(w.db, ResolveDevice(w.db, n).value.ieee, body["state"].text) else w.db
  {
  }

  lemma ResolvedIsRow(db: Db, n: string)
    requires WellFormed(db) && ResolveDevice(db, n).Some?
    ensures FindByAddress(db, ResolveDevice(db, n).value.ieee) == ResolveDevice(db, n)
  {
    var d := ResolveDevice(db, n).value;
    assert d in db.devices;
    var j :| 0 <= j < |db.devices| && db.devices[j] == d;
    assert IndexOfAddress(db.devices, d.ieee) == j;
  }

  function Lookup(store: Store, s: Slot): Option<Value> { if s in store then Some(store[s]) else None }

  /** The value a step files in a slot, if it does. */
  function Fill(w: World, step: Step, s: Slot): Option<Value> {
    if step.Change? then None
    else
      var tag := TagFor(w.db, step.name);
      var fields := Normalize(FieldsToFile(Resolve(w.db, step.name), step.body));
      if !IsBlank(tag) && s == Slot(Sanitize(tag), step.time, s.field) && s.field in fields
      then Some(fields[s.field]) else None
  }

  /** The value of the last step of a run that fills the slot, if any does. */
  function LastFill(w: World, steps: seq<Step>, s: Slot): Option<Value>
    decreases |steps|
  {
    if steps == [] then None
    else
      var later := LastFill(Next(w, steps[0]), steps[1..], s);
      if later.Some? then later else Fill(w, steps[0], s)
  }

  lemma StepSlot(w: World, step: Step, s: Slot)
    ensures Lookup(Next(w, step).store, s) == if Fill(w, step, s).Some? then Fill(w, step, s) else Lookup(w.store, s)
  {
    if step.Message? { ConsumeSlot(w, step.name, step.body, step.time, s); }
  }

  /** After every run a slot holds what the last step that fills it filed there, or what it held. */
  lemma {:induction false} SlotAfterRun(w: World, steps: seq<Step>, s: Slot)
    ensures Lookup(RunWorld(w, steps).store, s) ==
      if LastFill(w, steps, s).Some? then LastFill(w, steps, s) else Lookup(w.store, s)
    decreases |steps|
  {
    if steps != [] {
      StepSlot(w, steps[0], s);
      SlotAfterRun(Next(w, steps[0]), steps[1..], s);
    }
  }

  /** The world in which step `i` of a run is taken. */
  function WorldAt(w: World, steps: seq<Step>, i: nat): World
    requires i <= |steps|
  {
    RunWorld(w, steps[..i])
  }

  lemma WorldAtLater(w: World, steps: seq<Step>, i: nat)
    requires 0 < i <= |steps|
    ensures WorldAt(w, steps, i) == WorldAt(Next(w, steps[0]), steps[1..], i - 1)
  {
    assert steps[..i][0] == steps[0] && steps[..i][1..] == steps[1..][..i - 1];
  }

  ghost predicate LastFiller(w: World, steps: seq<Step>, s: Slot, i: int) {
    0 <= i < |steps| && Fill(WorldAt(w, steps, i), steps[i], s).Some?
    && forall j :: i < j < |steps| ==> Fill(WorldAt(w, steps, j), steps[j], s).None?
  }

  /** `LastFill` without recursion. */
  lemma {:induction false} LastFillSpec(w: World, steps: seq<Step>, s: Slot)
    ensures LastFill(w, steps, s).None? ==>
      forall j :: 0 <= j < |steps| ==> Fill(WorldAt(w, steps, j), steps[j], s).None?
    ensures LastFill(w, steps, s).Some? ==>
      exists i :: LastFiller(w, steps, s, i) && Fill(WorldAt(w, steps, i), steps[i], s) == LastFill(w, steps, s)
    decreases |steps|
  {
    if steps != [] {
      var next, rest := Next(w, steps[0]), steps[1..];
      LastFillSpec(next, rest, s);
      assert WorldAt(w, steps, 0) == w;
      forall j | 1 <= j < |steps| ensures WorldAt(w, steps, j) == WorldAt(next, rest, j - 1) {
        WorldAtLater(w, steps, j);
      }
      if LastFill(next, rest, s).Some? {
        var i :| LastFiller(next, rest, s, i) && Fill(WorldAt(next, rest, i), rest[i], s) == LastFill(next, rest, s);
        assert LastFiller(w, steps, s, i + 1);
      } else if Fill(w, steps[0], s).Some? {
        assert LastFiller(w, steps, s, 0);
      }
    }
  }

  // ----- Which requests can be answered -----

  /** Every key of the device is asked for. */
  lemma KeyIsQueried(db: Db, identifier: string, k: string)
    requires Resolve(db, identifier).Some? && k in TelemetryKeys(Resolve(db, identifier).value)
    requires QueryTags(db, identifier).Some?
    ensures Sanitize(k) in QueryTags(db, identifier).value
  {
    var keys := TelemetryKeys(Resolve(db, identifier).value);
    AddTagsSpec([], keys);
    var i :| 0 <= i < |keys| && keys[i] == k;
    assert Sanitize(keys[i]) == Sanitize(k);
  }

  /** An identifier that leads to no device asks for exactly its own tag, so what was filed under a name
      that was never registered, or whose device was deleted, stays readable under that name. */
  lemma UnknownAsksForItself(db: Db, identifier: string)
    requires ResolveDevice(db, identifier).None? && !IsBlank(identifier)
    ensures QueryTags(db, identifier) == Some([Sanitize(identifier)])
  {
    AddTagsSpec([], [identifier]);
    assert AddTags([], [identifier]) == AddTags([Sanitize(identifier)], [identifier][1..]);
  }

  /** A reading filed under a name that leads to no device is in the history of that name for as long as
      it leads to none, exactly when the name leaves a tag. */
  lemma UnknownHistoryKept(w: World, n: string, body: Body, t: int, steps: seq<Step>, s: Slot)
    requires ResolveDevice(w.db, n).None? && !IsBlank(n) && Files(w, n, body, t, s)
    requires ResolveDevice(RunWorld(w, [Message(n, body, t)] + steps).db, n).None?
    ensures InHistory(RunWorld(w, [Message(n, body, t)] + steps), n, s) <==> Sanitize(n) != ""
  {
    UnknownAsksForItself(RunWorld(w, [Message(n, body, t)] + steps).db, n);
    FiledReadingShows(w, n, body, t, steps, n, s);
  }

  /** A request fails exactly when the device it leads to has a blank address, or a blank current
      name that is not empty; a request that leads to no device, when the identifier is blank. */
  lemma QueryFailsExactly(db: Db, identifier: string)
    requires WellFormed(db)
    ensures QueryTags(db, identifier).None? <==>
      match Resolve(db, identifier)
      case None => IsBlank(identifier)
      case Some(id) => IsBlank(id.ieee) || (id.name != "" && IsBlank(id.name))
  {
    if Resolve(db, identifier).Some? {
      var id := Resolve(db, identifier).value;
      var keys := TelemetryKeys(id);
      TelemetryKeysSpec(id);
      forall k | k in keys && IsBlank(k) ensures k == id.ieee || k == id.name {
        ListAliasesAre(db.aliases, id.ieee, k);
      }
      if i :| 0 <= i < |keys| && IsBlank(keys[i]) { assert keys[i] in keys; }
      if id.name != "" && IsBlank(id.name) { assert id.name in keys; }
    } else {
      assert [identifier][0] == identifier;
    }
  }

  /** A device list that names a device with a single space makes its history unreadable. */
  lemma BlankNameHidesHistory()
    ensures var p := Payload(Some("0x1"), Some(" "), None, None, None);
      var db := Sync(EMPTY, [p]);
      Resolve(db, "0x1").Some? && QueryTags(db, "0x1").None?
  {
    var p := Payload(Some("0x1"), Some(" "), None, None, None);
    assert [p][..0] == [];
    assert ApplyAll(EMPTY, [p]) == ApplyPayload(EMPTY, p);
    assert IsSpace(' ') && IsBlank(" ");
    var d := ToEntity(0, p);
    assert EMPTY.devices + [d] == [d];
    assert ApplyPayload(EMPTY, p) == Some(Db([d], [], 1, 0));
    var db := Sync(EMPTY, [p]);
    assert db.devices[0].ieee == "0x1" && db.devices[0].name == " ";
    assert IndexOfAddress(db.devices, "0x1") == 0;
    var keys := TelemetryKeys(Resolve(db, "0x1").value);
    TelemetryKeysSpec(Resolve(db, "0x1").value);
    assert " " in keys;
  }

  // ----- No reading is lost -----

  /** The slots a message fills. */
  ghost predicate Files(w: World, n: string, body: Body, t: int, s: Slot) {
    s.tag == Sanitize(TagFor(w.db, n)) && s.time == t && s.field in Normalize(FieldsToFile(Resolve(w.db, n), body))
  }

  /** The history of `identifier` contains the slot. */
  ghost predicate InHistory(w: World, identifier: string, s: Slot) {
    s in w.store && QueryTags(w.db, identifier).Some?
    && forall from, to :: from <= s.time < to ==> Selects(QueryTags(w.db, identifier).value, s.field, from, to, s)
  }

  /** A reading once filed shows in a later history exactly when its tag is not empty and among the
      tags that history asks for; its value is the last filed in its slot. */
  lemma FiledReadingShows(w: World, n: string, body: Body, t: int, steps: seq<Step>, identifier: string, s: Slot)
    requires Files(w, n, body, t, s) && !IsBlank(TagFor(w.db, n))
    requires QueryTags(RunWorld(w, [Message(n, body, t)] + steps).db, identifier).Some?
    ensures var end := RunWorld(w, [Message(n, body, t)] + steps);
      InHistory(end, identifier, s) <==> s.tag != "" && s.tag in QueryTags(end.db, identifier).value
    ensures Lookup(RunWorld(w, [Message(n, body, t)] + steps).store, s) ==
      Some(LastFill(Consume(w, n, body, t), steps, s).Or(Normalize(FieldsToFile(Resolve(w.db, n), body))[s.field]))
  {
    assert ([Message(n, body, t)] + steps)[1..] == steps;
    ConsumeSlot(w, n, body, t, s);
    SlotAfterRun(Consume(w, n, body, t), steps, s);
    var end := RunWorld(w, [Message(n, body, t)] + steps);
    if InHistory(end, identifier, s) { ShownIsSelected(end, identifier, s); }
  }

  lemma ShownIsSelected(w: World, identifier: string, s: Slot)
    requires InHistory(w, identifier, s)
    ensures s.tag != "" && s.tag in QueryTags(w.db, identifier).value
  {
    assert Selects(QueryTags(w.db, identifier).value, s.field, s.time, s.time + 1, s);
  }

  /** A point without a tag is in no history. */
  lemma UntaggedNeverShows(w: World, identifier: string, s: Slot)
    requires s.tag == ""
    ensures !InHistory(w, identifier, s)
  {
    if InHistory(w, identifier, s) { ShownIsSelected(w, identifier, s); }
  }

  /** A reading whose topic leads to `a` is in the history of an identifier that leads to `a`, in any
      later state in which that history can be read, exactly when the address leaves a tag. */
  lemma ResolvedReadingKept(w: World, n: string, body: Body, t: int, steps: seq<Step>, a: string,
                            identifier: string, s: Slot)
    requires Resolve(w.db, n).Some? && Resolve(w.db, n).value.ieee == a && Files(w, n, body, t, s)
    requires var db := RunWorld(w, [Message(n, body, t)] + steps).db;
      Resolve(db, identifier).Some? && Resolve(db, identifier).value.ieee == a && QueryTags(db, identifier).Some?
    ensures InHistory(RunWorld(w, [Message(n, body, t)] + steps), identifier, s) <==> Sanitize(a) != ""
  {
    var end := RunWorld(w, [Message(n, body, t)] + steps);
    if Sanitize(a) == "" {
      UntaggedNeverShows(end, identifier, s);
    } else {
      if IsBlank(a) { BlankSanitizes(a); }
      FiledReadingShows(w, n, body, t, steps, identifier, s);
      TelemetryKeysSpec(Resolve(end.db, identifier).value);
      KeyIsQueried(end.db, identifier, a);
    }
  }

  /** Healing: a reading filed under a raw name because nothing resolved it is in the history of the
      first device later named so, in every state from then until that device is deleted, exactly
      when the name leaves a tag. */
  lemma Healing(w: World, n: string, body: Body, t: int, steps: seq<Step>, k: nat, a: string,
                identifier: string, s: Slot)
    requires WellFormed(w.db) && Resolve(w.db, n).None? && Files(w, n, body, t, s)
    requires NamedLater(w, n, steps, k, a)
    requires var db := RunWorld(w, [Message(n, body, t)] + steps).db;
      Resolve(db, identifier).Some? && Resolve(db, identifier).value.ieee == a && QueryTags(db, identifier).Some?
    ensures InHistory(RunWorld(w, [Message(n, body, t)] + steps), identifier, s) <==> Sanitize(n) != ""
    ensures Sanitize(n) != "" ==>
      Lookup(RunWorld(w, [Message(n, body, t)] + steps).store, s) ==
      Some(LastFill(Consume(w, n, body, t), steps, s).Or(Normalize(FieldsToFile(None, body))[s.field]))
  {
    var end := RunWorld(w, [Message(n, body, t)] + steps);
    if Sanitize(n) == "" {
      UntaggedNeverShows(end, identifier, s);
    } else {
      if IsBlank(n) { BlankSanitizes(n); }
      NamerIsAsked(w, n, body, t, steps, k, a, identifier);
      FiledReadingShows(w, n, body, t, steps, identifier, s);
    }
  }

  /** Of the transactions of a run, the k-th is the first that names a device `n`, the device `a`, and
      none after it deletes that device. */
  ghost predicate NamedLater(w: World, n: string, steps: seq<Step>, k: nat, a: string) {
    var actions := AllActions(w, steps);
    FirstNamer(w.db, actions, n) == Some((k, a)) && k <= |actions| && Spares(Run(w.db, actions[..k]), actions[k..], a)
  }

  /** That device's history then asks for the name. */
  lemma NamerIsAsked(w: World, n: string, body: Body, t: int, steps: seq<Step>, k: nat, a: string, identifier: string)
    requires WellFormed(w.db) && Resolve(w.db, n).None? && !IsBlank(n) && NamedLater(w, n, steps, k, a)
    requires var db := RunWorld(w, [Message(n, body, t)] + steps).db;
      Resolve(db, identifier).Some? && Resolve(db, identifier).value.ieee == a && QueryTags(db, identifier).Some?
    ensures Sanitize(n) in QueryTags(RunWorld(w, [Message(n, body, t)] + steps).db, identifier).value
  {
    var w1 := Consume(w, n, body, t);
    assert ([Message(n, body, t)] + steps)[1..] == steps;
    assert w1.db == w.db;
    SameRegistryActions(w, w1, steps);
    RegistryPart(w1, steps);
    var actions := AllActions(w, steps);
    var db := RunWorld(w1, steps).db;
    RunKeepsWellFormed(w.db, actions);
    QueryFailsExactly(db, identifier);
    UnresolvedIsFree(w.db, n);
    FirstNamerKeeps(w.db, actions, n, k, a);
    OwnedNameIsKey(db, n, a, identifier);
    KeyIsQueried(db, identifier, n);
  }

  lemma UnresolvedIsFree(db: Db, n: string)
    requires WellFormed(db) && n != "" && Resolve(db, n).None?
    ensures Free(db, n)
  {
    if OwnerOf(db, n).Some? { OwnerIsRegistered(db, n); }
  }

  /** What the registry does in a run does not depend on what has been filed. */
  lemma {:induction false} SameRegistryActions(w: World, w': World, steps: seq<Step>)
    requires w.db == w'.db
    ensures AllActions(w, steps) == AllActions(w', steps)
    decreases |steps|
  {
    if steps != [] { SameRegistryActions(Next(w, steps[0]), Next(w', steps[0]), steps[1..]); }
  }

  // ----- Two runs -----

  const WARM: Body := map["temperature" := Num(20.0)]

  function Named(n: string): Payload { Payload(Some("0x1"), Some(n), None, None, None) }

  /** A reading arrives under a name, then the device is registered under that name. */
  function LateRegistration(n: string): seq<Step> { [Message(n, WARM, 5)] + Listed(n) }

  function Listed(n: string): seq<Step> { [Change(SyncList([Named(n)]))] }

  /** In such a run the reading is stored, the name leads to the device, its history can be read, and it
      shows the reading exactly when the name leaves a tag. */
  lemma LateRegistrationShows(n: string)
    requires !IsBlank(n) && |n| <= 255 && n != "0x1"
    ensures var end, s := RunWorld(World(EMPTY, map[]), LateRegistration(n)), Slot(Sanitize(n), 5, "temperature");
      s in end.store && Resolve(end.db, n).Some? && Resolve(end.db, n).value.ieee == "0x1" && QueryTags(end.db, n).Some?
      && (InHistory(end, n, s) <==> Sanitize(n) != "")
  {
    LateWorld(n);
    ListedLeads(n);
    LateHealing(n);
  }

  lemma LateHealing(n: string)
    requires !IsBlank(n) && |n| <= 255
    requires var db := RunWorld(World(EMPTY, map[]), LateRegistration(n)).db;
      Resolve(db, n).Some? && Resolve(db, n).value.ieee == "0x1" && QueryTags(db, n).Some?
    ensures var end := RunWorld(World(EMPTY, map[]), LateRegistration(n));
      InHistory(end, n, Slot(Sanitize(n), 5, "temperature")) <==> Sanitize(n) != ""
  {
    WarmIsFiled(n);
    ListedIsNamer(n);
    Healing(World(EMPTY, map[]), n, WARM, 5, Listed(n), 1, "0x1", n, Slot(Sanitize(n), 5, "temperature"));
  }

  lemma LateWorld(n: string)
    requires !IsBlank(n)
    ensures var end := RunWorld(World(EMPTY, map[]), LateRegistration(n));
      end.db == Sync(EMPTY, [Named(n)]) && Slot(Sanitize(n), 5, "temperature") in end.store
  {
    var w, step := World(EMPTY, map[]), Change(SyncList([Named(n)]));
    WarmIsFiled(n);
    ConsumeSlot(w, n, WARM, 5, Slot(Sanitize(n), 5, "temperature"));
    var next := Consume(w, n, WARM, 5);
    assert next.db == EMPTY;
    assert LateRegistration(n)[1..] == [step] && [step][1..] == [];
    assert RunWorld(w, LateRegistration(n)) == RunWorld(next, [step]) == Next(next, step);
  }

  lemma WarmIsFiled(n: string)
    ensures "temperature" in Normalize(FieldsToFile(None, WARM)) && Resolve(EMPTY, n) == None
    ensures MessageAction(EMPTY, n, WARM) == None
  {
    assert "temperature" in WARM - {"state"} && "temperature" in KNOWN_FIELDS;
    assert "temperature" in FieldsToFile(None, WARM) && FieldsToFile(None, WARM)["temperature"] == Num(20.0);
  }

  lemma ListedIsNamer(n: string)
    requires !IsBlank(n) && |n| <= 255
    ensures NamedLater(World(EMPTY, map[]), n, Listed(n), 1, "0x1")
  {
    var w, steps := World(EMPTY, map[]), Listed(n);
    var actions := [SyncList([Named(n)])];
    assert steps[1..] == [] && AllActions(w, steps) == actions + [] == actions;
    assert |"0x1"| == 3 && Accepts(EMPTY, Named(n)) && [Named(n)][..0] == [];
    assert FirstNamed([Named(n)], n) == Some(Named(n));
    assert Namer(EMPTY, actions[0], n) == Some("0x1");
    assert actions[1..] == [];
  }

  lemma ListedLeads(n: string)
    requires !IsBlank(n) && |n| <= 255 && n != "0x1"
    ensures var db := Sync(EMPTY, [Named(n)]);
      Resolve(db, n).Some? && Resolve(db, n).value.ieee == "0x1" && QueryTags(db, n).Some?
  {
    assert !IsSpace("0x1"[0]) && !IsBlank("0x1") && |"0x1"| == 3;
    SyncOne(Named(n));
    var db := Sync(EMPTY, [Named(n)]);
    assert db.devices[0].name == n && IndexOfName(db.devices, n) == 0 && IndexOfAddress(db.devices, n) == 1;
    SyncMeetsSpec(EMPTY, [Named(n)]);
    QueryFailsExactly(db, n);
  }

  /** Listing one device in an empty registry. */
  lemma SyncOne(p: Payload)
    requires Accepts(EMPTY, p)
    ensures Sync(EMPTY, [p]).devices == [ToEntity(0, p)]
  {
    assert [p][..0] == [];
    assert ApplyAll(EMPTY, [p]) == ApplyPayload(EMPTY, p);
    assert EMPTY.devices + [ToEntity(0, p)] == [ToEntity(0, p)];
    ActiveIsListed([p], p.ieee.value);
    assert Latest([p], p.ieee.value) == Some(p);
  }

  /** A name in Chinese characters leaves no tag. */
  const LAMP := "\U{706F}"

  /** So what was filed under it before the registration is in no history. */
  lemma UntaggableReadingIsLost()
    ensures var end, s := RunWorld(World(EMPTY, map[]), LateRegistration(LAMP)), Slot("", 5, "temperature");
      s in end.store && Resolve(end.db, LAMP).Some? && Resolve(end.db, LAMP).value.ieee == "0x1"
      && QueryTags(end.db, LAMP).Some? && forall identifier :: !InHistory(end, identifier, s)
  {
    assert Sanitize(LAMP) == "" && !IsBlank(LAMP) && |LAMP| == 1 by { assert !IsSpace(LAMP[0]) && LAMP[1..] == ""; }
    assert |"0x1"| == 3;
    LateRegistrationShows(LAMP);
    var end := RunWorld(World(EMPTY, map[]), LateRegistration(LAMP));
    forall identifier ensures !InHistory(end, identifier, Slot("", 5, "temperature")) {
      UntaggedNeverShows(end, identifier, Slot("", 5, "temperature"));
    }
  }

  /** A name made of tag characters leaves itself as the tag. */
  lemma TagNameIsHealed(n: string)
    requires IsTag(n) && !IsBlank(n) && n != "" && |n| <= 255 && n != "0x1"
    ensures InHistory(RunWorld(World(EMPTY, map[]), LateRegistration(n)), n, Slot(n, 5, "temperature"))
  {
    SanitizeKeepsTags(n);
    LateRegistrationShows(n);
  }

  /** A reading filed under "lamp" is healed. */
  lemma LampReadingIsHealed()
    ensures var end := RunWorld(World(EMPTY, map[]), LateRegistration("lamp"));
      InHistory(end, "lamp", Slot("lamp", 5, "temperature"))
  {
    LampIsTag();
    TagNameIsHealed("lamp");
  }

  lemma LampIsTag()
    ensures IsTag("lamp") && !IsBlank("lamp") && |"lamp"| == 4 && "lamp" != "0x1"
  {
    assert !IsSpace("lamp"[0]) && |"0x1"| == 3;
  }
}

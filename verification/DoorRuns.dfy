/** From runs of messages and registry changes to the lights: what the door rule does when events carry
    the names the registry has for the devices at the time (backend-python/app/automation/bridge.py). */
module DoorRuns {
  import opened Prelude
  import opened Registry
  import opened RegistryInvariant
  import opened RegistryRuns
  import opened Telemetry
  import opened TelemetryRuns
  import A = Automation

  // ----- From steps to events -----

  function ToDatum(j: Json): A.Datum {
    match j
    case Flag(b) => A.Flag(b)
    case Num(x) => A.Num(x)
    case _ => A.Other
  }

  function ToData(fields: Body): map<string, A.Datum> { map k | k in fields :: ToDatum(fields[k]) }

  /** The event a step dispatches to the rules: one per accepted device list and per filed message. */
  function EventOf(w: World, step: Step): Option<A.Context> {
    match step
    case Change(SyncList(ps)) =>
      if ApplyAll(w.db, ps).None? then None
      else Some(A.Context("devices-synced", None,
                          map["syncedIeeeAddresses" := A.Other, "count" := A.Num(|ps| as real)]))
    case Change(_) => None
    case Message(n, body, _) =>
      var event := Announced(w.db, n, body);
      if event.None? then None
      else Some(A.Context("telemetry-received", Some(event.value.0), ToData(event.value.1)))
  }

  /** Memory and commands after a run. */
  function HomeAfter(cfg: A.Settings, works: nat -> bool, w: World, steps: seq<Step>): A.Home {
    if steps == [] then A.INITIAL
    else
      var before := steps[..|steps| - 1];
      var h, event := HomeAfter(cfg, works, w, before), EventOf(RunWorld(w, before), steps[|steps| - 1]);
      if event.None? then h
      else A.EvaluateAll(cfg, works, A.RulesForEvent(cfg, A.RULES, event.value.eventType), h, event.value)
  }

  /** The topic leads to a device the registry calls so, or leads to none and is so itself. */
  predicate IsCalled(db: Db, topic: string, name: string) {
    if ResolveDevice(db, topic).Some? then ResolveDevice(db, topic).value.name == name else topic == name
  }

  /** The contact reading a step brings for the configured sensor: a filed message of a device that is
      named so in the registry when it arrives, or that is unknown and publishes under that name. */
  function ContactReading(cfg: A.Settings, w: World, step: Step): Option<bool> {
    if step.Message? && IsCalled(w.db, step.name, cfg.doorSensor) && !IsBlank(FiledUnder(w.db, step.name))
       && "contact" in step.body && step.body["contact"].Flag?
    then Some(step.body["contact"].flag) else None
  }

  lemma ContactIsFiled(id: Option<Identity>, body: Body)
    ensures "contact" in FieldsToFile(id, body) <==> "contact" in body
    ensures "contact" in body ==> FieldsToFile(id, body)["contact"] == body["contact"]
  {
    assert "contact" in KNOWN_FIELDS && |"contact"| == 7 && |"state"| == 5;
  }

  /** The rule sees a contact reading exactly when the step brings one. */
  lemma EventIsReading(cfg: A.Settings, w: World, step: Step)
    ensures var event, reading := EventOf(w, step), ContactReading(cfg, w, step);
      (event.Some? && A.IsDoorEvent(cfg, event.value) <==> reading.Some?)
      && (reading.Some? ==> event.value.data["contact"].flag == reading.value)
  {
    if step.Message? {
      MessageIsReading(cfg, w, step.name, step.body, step.time);
    } else {
      ChangeIsNoReading(cfg, w, step);
    }
  }

  lemma ChangeIsNoReading(cfg: A.Settings, w: World, step: Step)
    requires step.Change?
    ensures EventOf(w, step).Some? ==> !A.IsDoorEvent(cfg, EventOf(w, step).value)
  {
    assert |"devices-synced"| == 14 && |"telemetry-received"| == 18;
  }

  lemma MessageIsReading(cfg: A.Settings, w: World, n: string, body: Body, t: int)
    ensures var event, reading := EventOf(w, Message(n, body, t)), ContactReading(cfg, w, Message(n, body, t));
      (event.Some? && A.IsDoorEvent(cfg, event.value) <==> reading.Some?)
      && (reading.Some? ==> event.value.data["contact"].flag == reading.value)
  {
    ContactIsFiled(Resolve(w.db, n), body);
  }

  lemma NeverScheduled(w: World, step: Step)
    ensures EventOf(w, step).Some? ==> EventOf(w, step).value.eventType != "schedule"
  {
    assert |"schedule"| == 8 && |"devices-synced"| == 14 && |"telemetry-received"| == 18;
  }

  // ----- One step -----

  /** What a step does to memory and commands. */
  ghost predicate StepEffect(cfg: A.Settings, works: nat -> bool, h: A.Home, reading: Option<bool>, h': A.Home) {
    var s := cfg.doorSensor;
    var opens := cfg.doorEnabled && reading == Some(false) && s in h.previous && h.previous[s];
    h'.previous == (if cfg.doorEnabled && reading.Some? then h.previous[s := reading.value] else h.previous)
    && h'.attempts == h.attempts + (if opens then A.Sent(works, |h.attempts|, cfg.doorLights, "ON") else [])
  }

  lemma OneStep(cfg: A.Settings, works: nat -> bool, w: World, steps: seq<Step>, n: nat)
    requires n < |steps|
    ensures StepEffect(cfg, works, HomeAfter(cfg, works, w, steps[..n]),
                       ContactReading(cfg, WorldAt(w, steps, n), steps[n]), HomeAfter(cfg, works, w, steps[..n + 1]))
  {
    assert steps[..n + 1][..n] == steps[..n] && steps[..n + 1][n] == steps[n];
    var h, event := HomeAfter(cfg, works, w, steps[..n]), EventOf(WorldAt(w, steps, n), steps[n]);
    EventIsReading(cfg, WorldAt(w, steps, n), steps[n]);
    NeverScheduled(WorldAt(w, steps, n), steps[n]);
    assert h.attempts + [] == h.attempts;
    if event.Some? { A.OneEvent(cfg, works, h, event.value); }
  }

  // ----- The trace -----

  function ReadingAt(cfg: A.Settings, w: World, steps: seq<Step>, i: nat): Option<bool>
    requires i < |steps|
  {
    ContactReading(cfg, WorldAt(w, steps, i), steps[i])
  }

  /** Step `i` brings the last contact reading before step `n`. */
  ghost predicate LastContact(cfg: A.Settings, w: World, steps: seq<Step>, n: nat, i: int) {
    0 <= i < n <= |steps| && ReadingAt(cfg, w, steps, i).Some?
    && forall j :: i < j < n ==> ReadingAt(cfg, w, steps, j).None?
  }

  /** The door opens at step `n`: it reads open there, and the last reading before was closed. */
  ghost predicate Opens(cfg: A.Settings, w: World, steps: seq<Step>, n: nat)
    requires n < |steps|
  {
    ReadingAt(cfg, w, steps, n) == Some(false)
    && exists i :: LastContact(cfg, w, steps, n, i) && ReadingAt(cfg, w, steps, i) == Some(true)
  }

  /** What is remembered under the sensor's name is its last reading before step `n`, if there is one. */
  ghost predicate Memory(cfg: A.Settings, w: World, steps: seq<Step>, n: nat, p: map<string, bool>) {
    (cfg.doorSensor in p ==> exists i :: LastContact(cfg, w, steps, n, i))
    && forall i :: LastContact(cfg, w, steps, n, i) ==>
         cfg.doorSensor in p && Some(p[cfg.doorSensor]) == ReadingAt(cfg, w, steps, i)
  }

  lemma LastContactStep(cfg: A.Settings, w: World, steps: seq<Step>, n: nat, i: int)
    requires 0 < n <= |steps|
    ensures LastContact(cfg, w, steps, n, i) <==>
      if ReadingAt(cfg, w, steps, n - 1).Some? then i == n - 1 else LastContact(cfg, w, steps, n - 1, i)
  {
  }

  /** The rule's memory is the last reading under the configured name. */
  lemma {:induction false} MemoryIsLastContact(cfg: A.Settings, works: nat -> bool, w: World, steps: seq<Step>, n: nat)
    requires cfg.doorEnabled && n <= |steps|
    ensures Memory(cfg, w, steps, n, HomeAfter(cfg, works, w, steps[..n]).previous)
  {
    if n == 0 {
      NothingRemembered(cfg, w, steps);
      assert steps[..0] == [];
    } else {
      MemoryIsLastContact(cfg, works, w, steps, n - 1);
      MemoryStep(cfg, works, w, steps, n - 1);
    }
  }

  lemma NothingRemembered(cfg: A.Settings, w: World, steps: seq<Step>)
    ensures Memory(cfg, w, steps, 0, map[])
  {
  }

  lemma MemoryStep(cfg: A.Settings, works: nat -> bool, w: World, steps: seq<Step>, n: nat)
    requires cfg.doorEnabled && n < |steps| && Memory(cfg, w, steps, n, HomeAfter(cfg, works, w, steps[..n]).previous)
    ensures Memory(cfg, w, steps, n + 1, HomeAfter(cfg, works, w, steps[..n + 1]).previous)
  {
    var h, h' := HomeAfter(cfg, works, w, steps[..n]), HomeAfter(cfg, works, w, steps[..n + 1]);
    OneStep(cfg, works, w, steps, n);
    EffectOnMemory(cfg, works, h, ReadingAt(cfg, w, steps, n), h');
    Remembers(cfg, w, steps, n + 1, h.previous, h'.previous);
  }

  lemma EffectOnMemory(cfg: A.Settings, works: nat -> bool, h: A.Home, x: Option<bool>, h': A.Home)
    requires cfg.doorEnabled && StepEffect(cfg, works, h, x, h')
    ensures h'.previous == if x.Some? then h.previous[cfg.doorSensor := x.value] else h.previous
  {
  }

  lemma Remembers(cfg: A.Settings, w: World, steps: seq<Step>, n: nat, p: map<string, bool>, p': map<string, bool>)
    requires 0 < n <= |steps| && Memory(cfg, w, steps, n - 1, p)
    requires var x := ReadingAt(cfg, w, steps, n - 1); p' == if x.Some? then p[cfg.doorSensor := x.value] else p
    ensures Memory(cfg, w, steps, n, p')
  {
    forall i ensures LastContact(cfg, w, steps, n, i) <==>
      if ReadingAt(cfg, w, steps, n - 1).Some? then i == n - 1 else LastContact(cfg, w, steps, n - 1, i)
    {
      LastContactStep(cfg, w, steps, n, i);
    }
    if ReadingAt(cfg, w, steps, n - 1).Some? {
      assert LastContact(cfg, w, steps, n, n - 1);
    } else if cfg.doorSensor in p {
      var i :| LastContact(cfg, w, steps, n - 1, i);
      assert LastContact(cfg, w, steps, n, i);
    }
  }

  /** Over every run of messages and registry changes and every pattern of failing commands: a step
      attempts the door lights, in order up to the first failure, exactly when the door opens at it, as
      read from devices named like the sensor when their messages arrive; otherwise it attempts nothing. */
  lemma DoorOpensLights(cfg: A.Settings, works: nat -> bool, w: World, steps: seq<Step>, n: nat)
    requires n < |steps|
    ensures var before := HomeAfter(cfg, works, w, steps[..n]).attempts;
      HomeAfter(cfg, works, w, steps[..n + 1]).attempts ==
      before + if cfg.doorEnabled && Opens(cfg, w, steps, n) then A.Sent(works, |before|, cfg.doorLights, "ON") else []
  {
    OneStep(cfg, works, w, steps, n);
    if cfg.doorEnabled { MemoryIsLastContact(cfg, works, w, steps, n); }
  }

  // ----- Renaming the sensor in the app -----

  /** After a rename to another name no message of the device is a reading of the sensor, on whatever
      topic it arrives. */
  lemma RenamedIsNoSensor(cfg: A.Settings, w: World, id: nat, n: string, kind: Option<DeviceType>, message: Step)
    requires WellFormed(w.db) && IndexOfId(w.db.devices, id) < |w.db.devices| && |n| <= 255 && n != cfg.doorSensor
    requires message.Message?
    requires var db := UpdateDevice(w.db, id, n, kind);
      Resolve(db, message.name).Some?
      && Resolve(db, message.name).value.ieee == w.db.devices[IndexOfId(w.db.devices, id)].ieee
    ensures ContactReading(cfg, w.(db := UpdateDevice(w.db, id, n, kind)), message).None?
  {
    var db, a := UpdateDevice(w.db, id, n, kind), w.db.devices[IndexOfId(w.db.devices, id)].ieee;
    RenameEffect(w.db, id, n, kind, a);
    UpdateEffect(w.db, id, n, kind);
    ResolvedRow(db, message.name, a);
  }

  /** A name that leads to a device carries that device's row. */
  lemma ResolvedRow(db: Db, name: string, a: string)
    requires WellFormed(db) && Resolve(db, name).Some? && Resolve(db, name).value.ieee == a
    ensures FindByAddress(db, a).Some? && FindByAddress(db, a).value.name == NameFor(db, name)
  {
    var d := ResolveDevice(db, name).value;
    assert d in db.devices;
    var j :| 0 <= j < |db.devices| && db.devices[j] == d;
    assert IndexOfAddress(db.devices, a) == j;
  }

  /** Renaming the door sensor in the app silences the rule: whatever its next message says, nothing is
      attempted, though the sensor's old name is still the topic and still leads to it. */
  lemma RenameSilencesDoor(cfg: A.Settings, works: nat -> bool, w: World, before: seq<Step>, id: nat, n: string,
                           kind: Option<DeviceType>, message: Step)
    requires WellFormed(RunWorld(w, before).db) && |n| <= 255 && n != cfg.doorSensor && message.Message?
    requires var db0 := RunWorld(w, before).db;
      IndexOfId(db0.devices, id) < |db0.devices|
      && var db := UpdateDevice(db0, id, n, kind);
         Resolve(db, message.name).Some?
         && Resolve(db, message.name).value.ieee == db0.devices[IndexOfId(db0.devices, id)].ieee
    ensures var steps := before + [Change(Update(id, n, kind)), message];
      HomeAfter(cfg, works, w, steps).attempts == HomeAfter(cfg, works, w, before).attempts
  {
    var rename := Change(Update(id, n, kind));
    var steps, k := before + [rename, message], |before|;
    assert steps[..k] == before && steps[..k + 2] == steps;
    assert steps[k] == rename && steps[k + 1] == message;
    RunThen(w, before, rename);
    assert steps[..k + 1] == before + [rename];
    RenamedIsNoSensor(cfg, RunWorld(w, before), id, n, kind, message);
    OneStep(cfg, works, w, steps, k);
    OneStep(cfg, works, w, steps, k + 1);
    var h := HomeAfter(cfg, works, w, before).attempts;
    assert h + [] == h;
  }

  lemma {:induction false} RunThen(w: World, steps: seq<Step>, step: Step)
    ensures RunWorld(w, steps + [step]) == Next(RunWorld(w, steps), step)
    decreases |steps|
  {
    if steps == [] {
      assert [] + [step] == [step] && [step][1..] == [];
    } else {
      assert (steps + [step])[0] == steps[0] && (steps + [step])[1..] == steps[1..] + [step];
      RunThen(Next(w, steps[0]), steps[1..], step);
    }
  }

  // ----- Temperature alerts -----

  /** The alert a step should raise: a filed temperature above the threshold of the configured device, as
      the registry calls it when the message arrives, or of any device if none is configured. */
  function AlertAt(cfg: A.Settings, w: World, step: Step): seq<real> {
    if cfg.temperatureEnabled && step.Message? && !IsBlank(FiledUnder(w.db, step.name))
       && (cfg.temperatureDevice.None? || IsCalled(w.db, step.name, cfg.temperatureDevice.value))
       && "temperature" in step.body && step.body["temperature"].Num? && cfg.threshold < step.body["temperature"].num
    then [step.body["temperature"].num] else []
  }

  lemma TemperatureIsFiled(id: Option<Identity>, body: Body)
    ensures "temperature" in FieldsToFile(id, body) <==> "temperature" in body
    ensures "temperature" in body ==> FieldsToFile(id, body)["temperature"] == body["temperature"]
  {
    assert "temperature" in KNOWN_FIELDS && |"temperature"| == 11 && |"state"| == 5;
  }

  lemma EventAlerts(cfg: A.Settings, w: World, step: Step)
    ensures AlertAt(cfg, w, step) == if EventOf(w, step).Some? then A.AlertOf(cfg, EventOf(w, step).value) else []
  {
    if step.Message? {
      TemperatureIsFiled(Resolve(w.db, step.name), step.body);
    } else {
      assert |"devices-synced"| == 14 && |"telemetry-received"| == 18;
    }
  }

  /** Over every run of messages and registry changes a step raises exactly that alert. */
  lemma AlertsFollowMessages(cfg: A.Settings, works: nat -> bool, w: World, steps: seq<Step>, n: nat)
    requires n < |steps|
    ensures HomeAfter(cfg, works, w, steps[..n + 1]).alerts
      == HomeAfter(cfg, works, w, steps[..n]).alerts + AlertAt(cfg, WorldAt(w, steps, n), steps[n])
  {
    assert steps[..n + 1][..n] == steps[..n] && steps[..n + 1][n] == steps[n];
    var h, event := HomeAfter(cfg, works, w, steps[..n]), EventOf(WorldAt(w, steps, n), steps[n]);
    EventAlerts(cfg, WorldAt(w, steps, n), steps[n]);
    assert h.alerts + [] == h.alerts;
    if event.Some? { A.EventAlerts(cfg, works, h, event.value); }
  }
}

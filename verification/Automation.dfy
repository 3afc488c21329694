/** The rule engine of backend-python/app/automation: rules in name order, each failure contained, and a
    door rule that remembers the last contact reading. Publishing a command may fail; `works`
    says which attempts succeed. */
module Automation {
  import opened Prelude

  datatype Datum = Flag(flag: bool) | Num(num: real) | Other

  datatype Context = Context(eventType: string, deviceId: Option<string>, data: map<string, Datum>)

  datatype Command = Command(device: string, state: string)

  datatype Settings = Settings(doorEnabled: bool, doorSensor: string, doorLights: seq<string>,
                               nightEnabled: bool, nightLights: seq<string>,
                               temperatureEnabled: bool, temperatureDevice: Option<string>, threshold: real)

  datatype Rule = DoorOpenedLights | NightMode | TemperatureAlert

  /** What rules change: the door rule's memory, the commands attempted, the alerts raised; and, as an
      observer would write it down, which rules were evaluated. */
  datatype Home = Home(previous: map<string, bool>, attempts: seq<Command>, alerts: seq<real>, evaluated: seq<Rule>)

  const INITIAL: Home := Home(map[], [], [], [])

  /** An evaluation ends normally or with an exception. */
  datatype Outcome = Returned(home: Home) | Raised(home: Home)

  // ----- The registry -----

  function Name(r: Rule): string {
    match r
    case DoorOpenedLights => "door-opened-lights"
    case NightMode => "night-mode"
    case TemperatureAlert => "temperature-alert"
  }

  /** Order of strings by their characters. */
  predicate AtMost(a: string, b: string) {
    a == "" || (b != "" && (a[0] < b[0] || (a[0] == b[0] && AtMost(a[1..], b[1..]))))
  }

  function InsertByName(r: Rule, rules: seq<Rule>): seq<Rule> {
    if rules == [] || AtMost(Name(r), Name(rules[0])) then [r] + rules else [rules[0]] + InsertByName(r, rules[1..])
  }

  function SortByName(rules: seq<Rule>): seq<Rule> {
    if rules == [] then [] else InsertByName(rules[0], SortByName(rules[1..]))
  }

  predicate IsEnabled(cfg: Settings, r: Rule) {
    match r
    case DoorOpenedLights => cfg.doorEnabled
    case NightMode => cfg.nightEnabled
    case TemperatureAlert => cfg.temperatureEnabled
  }

  predicate AppliesTo(r: Rule, eventType: string) {
    if r.NightMode? then eventType == "schedule" else eventType == "telemetry-received"
  }

  function RulesForEvent(cfg: Settings, rules: seq<Rule>, eventType: string): seq<Rule> {
    if rules == [] then []
    else (if IsEnabled(cfg, rules[0]) && AppliesTo(rules[0], eventType) then [rules[0]] else [])
         + RulesForEvent(cfg, rules[1..], eventType)
  }

  // ----- Evaluation -----

  /** The commands attempted for the devices in order, up to and with the first that fails. */
  function Sent(works: nat -> bool, start: nat, devices: seq<string>, state: string): seq<Command>
    decreases |devices|
  {
    if devices == [] then []
    else [Command(devices[0], state)] + if works(start) then Sent(works, start + 1, devices[1..], state) else []
  }

  predicate AllWork(works: nat -> bool, start: nat, n: nat) { forall k :: start <= k < start + n ==> works(k) }

  function Attempting(works: nat -> bool, h: Home, devices: seq<string>, state: string): Outcome {
    var after := h.(attempts := h.attempts + Sent(works, |h.attempts|, devices, state));
    if AllWork(works, |h.attempts|, |devices|) then Returned(after) else Raised(after)
  }

  /** A boolean contact reading of the door sensor. */
  predicate IsReading(cfg: Settings, ctx: Context) {
    ctx.deviceId == Some(cfg.doorSensor) && "contact" in ctx.data && ctx.data["contact"].Flag?
  }

  function EvaluateDoor(cfg: Settings, works: nat -> bool, h: Home, ctx: Context): Outcome {
    if !IsReading(cfg, ctx) then Returned(h)
    else
      var closed := ctx.data["contact"].flag;
      var remembered := h.(previous := h.previous[cfg.doorSensor := closed]);
      if cfg.doorSensor in h.previous && h.previous[cfg.doorSensor] && !closed
      then Attempting(works, remembered, cfg.doorLights, "ON") else Returned(remembered)
  }

  function EvaluateTemperature(cfg: Settings, h: Home, ctx: Context): Home {
    if cfg.temperatureDevice.Some? && cfg.temperatureDevice != ctx.deviceId then h
    else if "temperature" !in ctx.data || !ctx.data["temperature"].Num? then h
    else if ctx.data["temperature"].num > cfg.threshold then h.(alerts := h.alerts + [ctx.data["temperature"].num])
    else h
  }

  function Evaluate(cfg: Settings, works: nat -> bool, r: Rule, h: Home, ctx: Context): Outcome {
    var begun := h.(evaluated := h.evaluated + [r]);
    match r
    case DoorOpenedLights => EvaluateDoor(cfg, works, begun, ctx)
    case NightMode => Attempting(works, begun, cfg.nightLights, "OFF")
    case TemperatureAlert => Returned(EvaluateTemperature(cfg, begun, ctx))
  }

  /** The rules of the list in turn, the engine catching what they raise. */
  function EvaluateAll(cfg: Settings, works: nat -> bool, rules: seq<Rule>, h: Home, ctx: Context): Home {
    if rules == [] then h
    else Evaluate(cfg, works, rules[|rules| - 1], EvaluateAll(cfg, works, rules[..|rules| - 1], h, ctx), ctx).home
  }

  class RuleEngine {
    const cfg: Settings
    const works: nat -> bool
    var rules: seq<Rule>
    var previous: map<string, bool>
    var attempts: seq<Command>
    var alerts: seq<real>
    var evaluated: seq<Rule>

    constructor (cfg: Settings, works: nat -> bool)
      ensures this.cfg == cfg && this.works == works && Now() == INITIAL && rules == []
    {
      this.cfg, this.works := cfg, works;
      rules, previous, attempts, alerts, evaluated := [], map[], [], [], [];
    }

    function Now(): Home
      reads this
    {
      Home(previous, attempts, alerts, evaluated)
    }

    method Start()
      modifies this`rules
      ensures rules == RULES
    {
      StartOrder();
      rules := SortByName([NightMode, DoorOpenedLights, TemperatureAlert]);
    }

    /** One command; false when publishing raises. */
    method SetState(device: string, state: string) returns (ok: bool)
      modifies this`attempts
      ensures attempts == old(attempts) + [Command(device, state)] && ok == works(|old(attempts)|)
    {
      ok := works(|attempts|);
      attempts := attempts + [Command(device, state)];
    }

    /** The loop over a rule's lights: an exception leaves it. */
    method SetStates(devices: seq<string>, state: string) returns (ok: bool)
      modifies this`attempts
      ensures attempts == old(attempts) + Sent(works, |old(attempts)|, devices, state)
      ensures ok <==> AllWork(works, |old(attempts)|, |devices|)
    {
      ghost var goal := attempts + Sent(works, |attempts|, devices, state);
      assert devices[0..] == devices;
      for i := 0 to |devices|
        invariant |attempts| == |old(attempts)| + i && AllWork(works, |old(attempts)|, i)
        invariant attempts + Sent(works, |attempts|, devices[i..], state) == goal
      {
        SentStep(works, attempts, devices, i, state);
        AllWorkStep(works, |old(attempts)|, i, |devices|);
        ok := SetState(devices[i], state);
        if !ok {
          return;
        }
      }
      NothingSent(works, attempts, devices, state);
      ok := true;
    }

    method EvaluateRule(r: Rule, ctx: Context) returns (ok: bool)
      modifies this`previous, this`attempts, this`alerts, this`evaluated
      ensures (if ok then Returned(Now()) else Raised(Now())) == Evaluate(cfg, works, r, old(Now()), ctx)
    {
      ok := true;
      evaluated := evaluated + [r];
      match r {
        case DoorOpenedLights =>
          if ctx.deviceId != Some(cfg.doorSensor) {
            return;
          }
          if "contact" !in ctx.data || !ctx.data["contact"].Flag? {
            return;
          }
          var closed := ctx.data["contact"].flag;
          var previouslyClosed := cfg.doorSensor in previous && previous[cfg.doorSensor];
          previous := previous[cfg.doorSensor := closed];
          if previouslyClosed && !closed {
            ok := SetStates(cfg.doorLights, "ON");
          }
        case NightMode =>
          ok := SetStates(cfg.nightLights, "OFF");
        case TemperatureAlert =>
          if cfg.temperatureDevice.Some? && cfg.temperatureDevice != ctx.deviceId {
            return;
          }
          if "temperature" in ctx.data && ctx.data["temperature"].Num? && ctx.data["temperature"].num > cfg.threshold {
            alerts := alerts + [ctx.data["temperature"].num];
          }
      }
    }

    method Fire(ctx: Context)
      modifies this`previous, this`attempts, this`alerts, this`evaluated
      ensures Now() == EvaluateAll(cfg, works, RulesForEvent(cfg, rules, ctx.eventType), old(Now()), ctx)
    {
      var applicable := RulesForEvent(cfg, rules, ctx.eventType);
      ghost var before := Now();
      for i := 0 to |applicable|
        invariant Now() == EvaluateAll(cfg, works, applicable[..i], before, ctx)
      {
        assert applicable[..i + 1][..i] == applicable[..i];
        // Whether it returned or raised, the next rule follows.
        var _ := EvaluateRule(applicable[i], ctx);
      }
      assert applicable[..|applicable|] == applicable;
    }
  }

  lemma AllWorkStep(works: nat -> bool, start: nat, i: nat, n: nat)
    requires i < n && AllWork(works, start, i)
    ensures if works(start + i) then AllWork(works, start, i + 1) else !AllWork(works, start, n)
  {
  }

  lemma NothingSent(works: nat -> bool, attempts: seq<Command>, devices: seq<string>, state: string)
    ensures attempts + Sent(works, |attempts|, devices[|devices|..], state) == attempts
  {
    assert devices[|devices|..] == [];
    assert attempts + [] == attempts;
  }

  lemma SentStep(works: nat -> bool, attempts: seq<Command>, devices: seq<string>, i: nat, state: string)
    requires i < |devices|
    ensures var more := attempts + [Command(devices[i], state)];
      attempts + Sent(works, |attempts|, devices[i..], state) ==
      if works(|attempts|) then more + Sent(works, |more|, devices[i + 1..], state) else more
  {
    assert devices[i..][1..] == devices[i + 1..];
    var c := [Command(devices[i], state)];
    var rest := Sent(works, |attempts| + 1, devices[i + 1..], state);
    assert attempts + (c + rest) == (attempts + c) + rest;
  }

  // ----- Which rules run, and in which order -----

  ghost predicate InNameOrder(rules: seq<Rule>) {
    forall i, j :: 0 <= i < j < |rules| ==> AtMost(Name(rules[i]), Name(rules[j]))
  }

  lemma {:induction false} AtMostTotal(a: string, b: string)
    ensures AtMost(a, b) || AtMost(b, a)
  {
    if a != "" && b != "" && a[0] == b[0] { AtMostTotal(a[1..], b[1..]); }
  }

  lemma {:induction false} AtMostTransitive(a: string, b: string, c: string)
    requires AtMost(a, b) && AtMost(b, c)
    ensures AtMost(a, c)
  {
    if a != "" && a[0] == b[0] && b[0] == c[0] { AtMostTransitive(a[1..], b[1..], c[1..]); }
  }

  lemma {:induction false} InsertPermutes(r: Rule, rules: seq<Rule>)
    ensures multiset(InsertByName(r, rules)) == multiset([r]) + multiset(rules)
    ensures forall x :: x in InsertByName(r, rules) ==> x == r || x in rules
  {
    if rules != [] && !AtMost(Name(r), Name(rules[0])) {
      InsertPermutes(r, rules[1..]);
      assert rules == [rules[0]] + rules[1..];
    }
  }

  lemma {:induction false} InsertKeepsOrder(r: Rule, rules: seq<Rule>)
    requires InNameOrder(rules)
    ensures InNameOrder(InsertByName(r, rules))
  {
    if rules == [] {
    } else if AtMost(Name(r), Name(rules[0])) {
      forall j | 0 <= j < |rules| ensures AtMost(Name(r), Name(rules[j])) {
        if j > 0 { AtMostTransitive(Name(r), Name(rules[0]), Name(rules[j])); }
      }
    } else {
      AtMostTotal(Name(r), Name(rules[0]));
      OrderedRest(rules);
      InsertKeepsOrder(r, rules[1..]);
      var rest := InsertByName(r, rules[1..]);
      InsertPermutes(r, rules[1..]);
      forall j | 0 <= j < |rest| ensures AtMost(Name(rules[0]), Name(rest[j])) { assert rest[j] in rest; }
    }
  }

  lemma {:induction false} SortByNameCorrect(rules: seq<Rule>)
    ensures InNameOrder(SortByName(rules)) && multiset(SortByName(rules)) == multiset(rules)
  {
    if rules != [] {
      SortByNameCorrect(rules[1..]);
      InsertKeepsOrder(rules[0], SortByName(rules[1..]));
      InsertPermutes(rules[0], SortByName(rules[1..]));
      assert rules == [rules[0]] + rules[1..];
    }
  }

  /** The rules run for an event are exactly the enabled, applicable ones, each as often as it is
      registered, in name order. */
  lemma {:induction false} RulesForEventAre(cfg: Settings, rules: seq<Rule>, eventType: string)
    requires InNameOrder(rules)
    ensures InNameOrder(RulesForEvent(cfg, rules, eventType))
    ensures forall r :: r in RulesForEvent(cfg, rules, eventType) <==>
              r in rules && IsEnabled(cfg, r) && AppliesTo(r, eventType)
    ensures forall r :: IsEnabled(cfg, r) && AppliesTo(r, eventType) ==>
              multiset(RulesForEvent(cfg, rules, eventType))[r] == multiset(rules)[r]
  {
    if rules != [] {
      OrderedRest(rules);
      RulesForEventAre(cfg, rules[1..], eventType);
      var rest := RulesForEvent(cfg, rules[1..], eventType);
      forall j | 0 <= j < |rest| ensures AtMost(Name(rules[0]), Name(rest[j])) { assert rest[j] in rest; }
      assert rules == [rules[0]] + rules[1..];
    }
  }

  lemma OrderedRest(rules: seq<Rule>)
    requires rules != [] && InNameOrder(rules)
    ensures InNameOrder(rules[1..]) && forall r :: r in rules[1..] ==> AtMost(Name(rules[0]), Name(r))
  {
    forall r | r in rules[1..] ensures AtMost(Name(rules[0]), Name(r)) {
      var k :| 0 <= k < |rules[1..]| && rules[1..][k] == r;
      assert rules[k + 1] == r;
    }
  }

  /** The registered rules in their order. */
  lemma StartOrder()
    ensures SortByName([NightMode, DoorOpenedLights, TemperatureAlert]) == RULES
  {
    var d, n, t := Name(DoorOpenedLights), Name(NightMode), Name(TemperatureAlert);
    assert d[0] < n[0] < t[0];
    assert AtMost(n, t) && AtMost(d, n) && AtMost(d, t) && !AtMost(n, d);
    assert [TemperatureAlert][1..] == [];
    assert SortByName([TemperatureAlert]) == [TemperatureAlert];
    assert [DoorOpenedLights, TemperatureAlert][1..] == [TemperatureAlert];
    assert SortByName([DoorOpenedLights, TemperatureAlert]) == [DoorOpenedLights, TemperatureAlert];
    assert [NightMode, DoorOpenedLights, TemperatureAlert][1..] == [DoorOpenedLights, TemperatureAlert];
    assert InsertByName(NightMode, [TemperatureAlert]) == [NightMode, TemperatureAlert];
    assert [DoorOpenedLights, TemperatureAlert][1..] == [TemperatureAlert];
  }

  // ----- The trace -----

  const RULES: seq<Rule> := [DoorOpenedLights, NightMode, TemperatureAlert]

  function RunEvents(cfg: Settings, works: nat -> bool, events: seq<Context>): Home {
    if events == [] then INITIAL
    else
      var before, ctx := events[..|events| - 1], events[|events| - 1];
      EvaluateAll(cfg, works, RulesForEvent(cfg, RULES, ctx.eventType), RunEvents(cfg, works, before), ctx)
  }

  predicate IsDoorEvent(cfg: Settings, ctx: Context) {
    ctx.eventType == "telemetry-received" && IsReading(cfg, ctx)
  }

  /** Event `i` is the last contact reading of the door among the first `n` events. */
  ghost predicate LastReadingAt(cfg: Settings, events: seq<Context>, n: nat, i: int) {
    0 <= i < n <= |events| && IsDoorEvent(cfg, events[i]) && forall j :: i < j < n ==> !IsDoorEvent(cfg, events[j])
  }

  /** The door opens at event `n`: it reads open, and the last reading before it was closed. */
  ghost predicate OpensAt(cfg: Settings, events: seq<Context>, n: nat) {
    n < |events| && IsDoorEvent(cfg, events[n]) && !events[n].data["contact"].flag
    && exists i :: LastReadingAt(cfg, events, n, i) && events[i].data["contact"].flag
  }

  /** The commands event `n` should cause when `start` were attempted before it. */
  ghost function CommandsAt(cfg: Settings, works: nat -> bool, events: seq<Context>, n: nat, start: nat): seq<Command>
    requires n < |events|
  {
    if cfg.doorEnabled && OpensAt(cfg, events, n) then Sent(works, start, cfg.doorLights, "ON")
    else if cfg.nightEnabled && events[n].eventType == "schedule" then Sent(works, start, cfg.nightLights, "OFF")
    else []
  }

  /** The rules' memory is the last reading. */
  lemma {:induction false} MemoryIsLastReading(cfg: Settings, works: nat -> bool, events: seq<Context>, n: nat)
    requires cfg.doorEnabled && n <= |events|
    ensures var h := RunEvents(cfg, works, events[..n]);
      (cfg.doorSensor in h.previous ==> exists i :: LastReadingAt(cfg, events, n, i))
      && forall i :: LastReadingAt(cfg, events, n, i) ==>
           cfg.doorSensor in h.previous && h.previous[cfg.doorSensor] == events[i].data["contact"].flag
  {
    if n > 0 {
      MemoryIsLastReading(cfg, works, events, n - 1);
      assert events[..n][..n - 1] == events[..n - 1];
      var h := RunEvents(cfg, works, events[..n - 1]);
      OneEvent(cfg, works, h, events[n - 1]);
      LastReadingStep(cfg, events, n);
      if IsDoorEvent(cfg, events[n - 1]) {
        assert LastReadingAt(cfg, events, n, n - 1);
      } else if cfg.doorSensor in h.previous {
        var i :| LastReadingAt(cfg, events, n - 1, i);
        assert LastReadingAt(cfg, events, n, i);
      }
    }
  }

  lemma LastReadingStep(cfg: Settings, events: seq<Context>, n: nat)
    requires 0 < n <= |events|
    ensures forall i :: LastReadingAt(cfg, events, n, i) <==>
      if IsDoorEvent(cfg, events[n - 1]) then i == n - 1 else LastReadingAt(cfg, events, n - 1, i)
  {
  }

  function OnlyIf(b: bool, r: Rule): seq<Rule> { if b then [r] else [] }

  lemma RulesFor(cfg: Settings, t: string)
    ensures RulesForEvent(cfg, RULES, t) ==
      OnlyIf(cfg.doorEnabled && t == "telemetry-received", DoorOpenedLights)
      + OnlyIf(cfg.nightEnabled && t == "schedule", NightMode)
      + OnlyIf(cfg.temperatureEnabled && t == "telemetry-received", TemperatureAlert)
  {
    var d := OnlyIf(cfg.doorEnabled && t == "telemetry-received", DoorOpenedLights);
    var n := OnlyIf(cfg.nightEnabled && t == "schedule", NightMode);
    var a := OnlyIf(cfg.temperatureEnabled && t == "telemetry-received", TemperatureAlert);
    assert RULES[1..] == [NightMode, TemperatureAlert];
    assert [NightMode, TemperatureAlert][1..] == [TemperatureAlert];
    assert RulesForEvent(cfg, [TemperatureAlert], t) == a;
    assert RulesForEvent(cfg, [NightMode, TemperatureAlert], t) == n + a;
    assert RulesForEvent(cfg, RULES, t) == d + (n + a);
    assert d + n + a == d + (n + a);
  }

  ghost predicate Effect(cfg: Settings, works: nat -> bool, h: Home, ctx: Context, h': Home) {
    var opens := cfg.doorEnabled && IsDoorEvent(cfg, ctx) && !ctx.data["contact"].flag
                 && cfg.doorSensor in h.previous && h.previous[cfg.doorSensor];
    h'.previous == (if cfg.doorEnabled && IsDoorEvent(cfg, ctx)
                    then h.previous[cfg.doorSensor := ctx.data["contact"].flag] else h.previous)
    && h'.attempts == h.attempts +
         if opens then Sent(works, |h.attempts|, cfg.doorLights, "ON")
         else if cfg.nightEnabled && ctx.eventType == "schedule" then Sent(works, |h.attempts|, cfg.nightLights, "OFF")
         else []
  }

  /** One rule, if it is enabled and applies. */
  function Step(cfg: Settings, works: nat -> bool, b: bool, r: Rule, h: Home, ctx: Context): Home {
    if b then Evaluate(cfg, works, r, h, ctx).home else h
  }

  /** The three rules one after the other, each if it is enabled and applies. */
  function InTurn(cfg: Settings, works: nat -> bool, h: Home, ctx: Context): Home {
    var h1 := Step(cfg, works, cfg.doorEnabled && ctx.eventType == "telemetry-received", DoorOpenedLights, h, ctx);
    var h2 := Step(cfg, works, cfg.nightEnabled && ctx.eventType == "schedule", NightMode, h1, ctx);
    Step(cfg, works, cfg.temperatureEnabled && ctx.eventType == "telemetry-received", TemperatureAlert, h2, ctx)
  }

  lemma EngineRunsInTurn(cfg: Settings, works: nat -> bool, h: Home, ctx: Context)
    ensures EvaluateAll(cfg, works, RulesForEvent(cfg, RULES, ctx.eventType), h, ctx) == InTurn(cfg, works, h, ctx)
  {
    var t := ctx.eventType;
    RulesFor(cfg, t);
    var d := OnlyIf(cfg.doorEnabled && t == "telemetry-received", DoorOpenedLights);
    var n := OnlyIf(cfg.nightEnabled && t == "schedule", NightMode);
    assert [] + d == d;
    AppendOne(cfg, works, [], cfg.doorEnabled && t == "telemetry-received", DoorOpenedLights, h, ctx);
    AppendOne(cfg, works, d, cfg.nightEnabled && t == "schedule", NightMode, h, ctx);
    AppendOne(cfg, works, d + n, cfg.temperatureEnabled && t == "telemetry-received", TemperatureAlert, h, ctx);
  }

  /** What one event does to memory and commands. */
  lemma OneEvent(cfg: Settings, works: nat -> bool, h: Home, ctx: Context)
    ensures Effect(cfg, works, h, ctx, EvaluateAll(cfg, works, RulesForEvent(cfg, RULES, ctx.eventType), h, ctx))
  {
    EngineRunsInTurn(cfg, works, h, ctx);
    InTurnEffect(cfg, works, h, ctx);
  }

  lemma InTurnEffect(cfg: Settings, works: nat -> bool, h: Home, ctx: Context)
    ensures Effect(cfg, works, h, ctx, InTurn(cfg, works, h, ctx))
  {
    if ctx.eventType == "schedule" {
      assert |ctx.eventType| == 8 && |"telemetry-received"| == 18;
    }
  }

  lemma AppendOne(cfg: Settings, works: nat -> bool, rules: seq<Rule>, b: bool, r: Rule, h: Home, ctx: Context)
    ensures EvaluateAll(cfg, works, rules + OnlyIf(b, r), h, ctx) ==
      Step(cfg, works, b, r, EvaluateAll(cfg, works, rules, h, ctx), ctx)
  {
    if b {
      assert (rules + [r])[..|rules|] == rules;
    } else {
      assert rules + [] == rules;
    }
  }

  /** Over every event sequence and every pattern of failing commands, event `n` adds to the commands
      attempted so far exactly: the door lights, in order up to the first failure, when the door
      opens; the night lights likewise on a schedule event; and nothing otherwise. */
  lemma DoorRuleIsEdgeDetector(cfg: Settings, works: nat -> bool, events: seq<Context>, n: nat)
    requires n < |events|
    ensures var before := RunEvents(cfg, works, events[..n]).attempts;
      RunEvents(cfg, works, events[..n + 1]).attempts == before + CommandsAt(cfg, works, events, n, |before|)
  {
    assert events[..n + 1][..n] == events[..n];
    OneEvent(cfg, works, RunEvents(cfg, works, events[..n]), events[n]);
    if cfg.doorEnabled {
      MemoryIsLastReading(cfg, works, events, n);
    }
  }

  /** The commands of a firing are an initial part of the list, cut only behind a failed one. */
  lemma {:induction false} SentIsPrefix(works: nat -> bool, start: nat, devices: seq<string>, state: string)
    ensures var sent := Sent(works, start, devices, state);
      |sent| <= |devices|
      && (forall i :: 0 <= i < |sent| ==> sent[i] == Command(devices[i], state))
      && (forall k :: start <= k < start + |sent| - 1 ==> works(k))
      && (|sent| < |devices| ==> sent != [] && !works(start + |sent| - 1))
    decreases |devices|
  {
    if devices != [] && works(start) {
      SentIsPrefix(works, start + 1, devices[1..], state);
      var rest := Sent(works, start + 1, devices[1..], state);
      assert Sent(works, start, devices, state) == [Command(devices[0], state)] + rest;
    }
  }

  /** The alert an event should raise: of an enabled rule, for the configured device or for any if none is
      configured, a number above the threshold. */
  function AlertOf(cfg: Settings, ctx: Context): seq<real> {
    if cfg.temperatureEnabled && ctx.eventType == "telemetry-received"
       && (cfg.temperatureDevice.None? || ctx.deviceId == cfg.temperatureDevice)
       && "temperature" in ctx.data && ctx.data["temperature"].Num? && cfg.threshold < ctx.data["temperature"].num
    then [ctx.data["temperature"].num] else []
  }

  lemma StepAlerts(cfg: Settings, works: nat -> bool, b: bool, r: Rule, h: Home, ctx: Context)
    ensures r != TemperatureAlert || !b ==> Step(cfg, works, b, r, h, ctx).alerts == h.alerts
  {
  }

  /** Over every event sequence and every pattern of failing commands, event `n` raises exactly that alert. */
  lemma AlertsFollowReadings(cfg: Settings, works: nat -> bool, events: seq<Context>, n: nat)
    requires n < |events|
    ensures RunEvents(cfg, works, events[..n + 1]).alerts
      == RunEvents(cfg, works, events[..n]).alerts + AlertOf(cfg, events[n])
  {
    assert events[..n + 1][..n] == events[..n];
    EventAlerts(cfg, works, RunEvents(cfg, works, events[..n]), events[n]);
  }

  lemma EventAlerts(cfg: Settings, works: nat -> bool, h: Home, ctx: Context)
    ensures EvaluateAll(cfg, works, RulesForEvent(cfg, RULES, ctx.eventType), h, ctx).alerts
      == h.alerts + AlertOf(cfg, ctx)
  {
    EngineRunsInTurn(cfg, works, h, ctx);
    var h1 := Step(cfg, works, cfg.doorEnabled && ctx.eventType == "telemetry-received", DoorOpenedLights, h, ctx);
    StepAlerts(cfg, works, cfg.doorEnabled && ctx.eventType == "telemetry-received", DoorOpenedLights, h, ctx);
    StepAlerts(cfg, works, cfg.nightEnabled && ctx.eventType == "schedule", NightMode, h1, ctx);
    assert h.alerts + [] == h.alerts;
  }

  /** One evaluation of a list of rules evaluates each of them once, in order, whether or not others
      raise. */
  lemma {:induction false} EachIsEvaluated(cfg: Settings, works: nat -> bool, rules: seq<Rule>, h: Home, ctx: Context)
    ensures EvaluateAll(cfg, works, rules, h, ctx).evaluated == h.evaluated + rules
  {
    if rules == [] {
      assert h.evaluated + rules == h.evaluated;
    } else {
      var before, r := rules[..|rules| - 1], rules[|rules| - 1];
      EachIsEvaluated(cfg, works, before, h, ctx);
      assert rules == before + [r];
      assert (h.evaluated + before) + [r] == h.evaluated + rules;
    }
  }

  /** Over every event sequence and every pattern of failing commands, event `n` evaluates exactly the
      enabled applicable rules, once each, in name order. */
  lemma EveryRuleRuns(cfg: Settings, works: nat -> bool, events: seq<Context>, n: nat)
    requires n < |events|
    ensures RunEvents(cfg, works, events[..n + 1]).evaluated
      == RunEvents(cfg, works, events[..n]).evaluated + RulesForEvent(cfg, RULES, events[n].eventType)
  {
    assert events[..n + 1][..n] == events[..n];
    var ctx, before := events[n], RunEvents(cfg, works, events[..n]);
    EachIsEvaluated(cfg, works, RulesForEvent(cfg, RULES, ctx.eventType), before, ctx);
  }

  /** An evaluation raises exactly when it reaches a command that fails. */
  lemma RaisesExactly(cfg: Settings, works: nat -> bool, r: Rule, h: Home, ctx: Context)
    ensures var o := Evaluate(cfg, works, r, h, ctx);
      o.Raised? <==> exists k :: |h.attempts| <= k < |o.home.attempts| && !works(k)
  {
    SentIsPrefix(works, |h.attempts|, cfg.nightLights, "OFF");
    SentIsPrefix(works, |h.attempts|, cfg.doorLights, "ON");
  }

  /** Failures stay where they happen: memory, alerts and the rules evaluated are the same under every
      pattern of failing commands. */
  lemma {:induction false} FailuresAreContained(cfg: Settings, works: nat -> bool, works': nat -> bool,
                                                events: seq<Context>)
    ensures RunEvents(cfg, works, events).previous == RunEvents(cfg, works', events).previous
    ensures RunEvents(cfg, works, events).alerts == RunEvents(cfg, works', events).alerts
    ensures RunEvents(cfg, works, events).evaluated == RunEvents(cfg, works', events).evaluated
  {
    if events != [] {
      var before, ctx := events[..|events| - 1], events[|events| - 1];
      FailuresAreContained(cfg, works, works', before);
      EngineRunsInTurn(cfg, works, RunEvents(cfg, works, before), ctx);
      EngineRunsInTurn(cfg, works', RunEvents(cfg, works', before), ctx);
      TurnIgnoresFailures(cfg, works, works', RunEvents(cfg, works, before), RunEvents(cfg, works', before), ctx);
    }
  }

  lemma StepIgnoresFailures(cfg: Settings, works: nat -> bool, works': nat -> bool, b: bool, r: Rule, h: Home, h': Home,
                            ctx: Context)
    requires SameSoFar(h, h')
    ensures SameSoFar(Step(cfg, works, b, r, h, ctx), Step(cfg, works', b, r, h', ctx))
  {
  }

  predicate SameSoFar(h: Home, h': Home) {
    h.previous == h'.previous && h.alerts == h'.alerts && h.evaluated == h'.evaluated
  }

  lemma TurnIgnoresFailures(cfg: Settings, works: nat -> bool, works': nat -> bool, h: Home, h': Home, ctx: Context)
    requires SameSoFar(h, h')
    ensures SameSoFar(InTurn(cfg, works, h, ctx), InTurn(cfg, works', h', ctx))
  {
    var door := cfg.doorEnabled && ctx.eventType == "telemetry-received";
    var night := cfg.nightEnabled && ctx.eventType == "schedule";
    var hot := cfg.temperatureEnabled && ctx.eventType == "telemetry-received";
    StepIgnoresFailures(cfg, works, works', door, DoorOpenedLights, h, h', ctx);
    var h1, h1' := Step(cfg, works, door, DoorOpenedLights, h, ctx), Step(cfg, works', door, DoorOpenedLights, h', ctx);
    StepIgnoresFailures(cfg, works, works', night, NightMode, h1, h1', ctx);
    var h2, h2' := Step(cfg, works, night, NightMode, h1, ctx), Step(cfg, works', night, NightMode, h1', ctx);
    StepIgnoresFailures(cfg, works, works', hot, TemperatureAlert, h2, h2', ctx);
  }
}

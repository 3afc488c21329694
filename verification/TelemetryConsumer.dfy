/** The consumer object of backend-python/app/mqtt/consumers.py: it resolves a topic name, updates the
    device's reported state, files the fields, and remembers which names it has warned about. */
module TelemetryConsumers {
  import opened Prelude
  import opened Registry
  import opened Telemetry
  import opened DeviceServices

  class TelemetryConsumer {
    const service: DeviceService
    var store: Store
    var unregistered: set<string>

    constructor (service: DeviceService)
      ensures this.service == service && store == map[] && unregistered == {}
    {
      this.service := service;
      store, unregistered := map[], {};
    }

    function Now(): World
      reads this, service
    {
      World(service.Tables(), store)
    }

    /** `warned` is true for the first unresolved message of a name since it last resolved. */
    method IdentityFor(name: string) returns (identity: Option<Identity>, warned: bool)
      modifies this`unregistered
      ensures identity == Resolve(service.Tables(), name)
      ensures unregistered == if identity.None? then old(unregistered) + {name} else old(unregistered) - {name}
      ensures warned <==> identity.None? && name !in old(unregistered)
    {
      identity := service.ResolveIdentity(name);
      warned := identity.None? && name !in unregistered;
      if identity.None? {
        unregistered := unregistered + {name};
      } else {
        unregistered := unregistered - {name};
      }
    }

    /** The event carries the registry's name for the device; there is none when nothing was filed
        for want of known fields or of a usable tag. */
    method ConsumeTelemetry(name: string, body: Body, time: int) returns (event: Option<(string, Body)>)
      modifies this, service
      ensures Now() == Consume(old(Now()), name, body, time)
      ensures event == Announced(old(service.Tables()), name, body)
    {
      var identity, _ := IdentityFor(name);
      var tag := if identity.Some? then identity.value.ieee else name;
      UpdateReportedState(name, identity, body);
      var fields := ChooseFields(identity, body);
      var filed := FileFields(tag, time, fields);
      if !filed {
        return None;
      }
      return Some((if identity.Some? then identity.value.name else name, fields));
    }

    method UpdateReportedState(name: string, identity: Option<Identity>, body: Body)
      requires identity == Resolve(service.Tables(), name)
      modifies service
      ensures var action := MessageAction(old(service.Tables()), name, body);
        service.Tables() == if action.Some? then Act(old(service.Tables()), action.value) else old(service.Tables())
    {
      if identity.Some? && "state" in body && body["state"].Text? {
        var _ := service.UpdateState(identity.value.ieee, body["state"].text);
      }
    }

    /** False when there is no known field, or the tag is refused. */
    method FileFields(tag: string, time: int, fields: Body) returns (filed: bool)
      modifies this`store
      ensures store == WriteTelemetry(old(store), tag, time, fields)
      ensures filed <==> fields != map[] && !IsBlank(tag)
    {
      NothingToFile(store, tag, time, fields);
      if fields == map[] || IsBlank(tag) {
        return false;
      }
      var normalized := NormalizeFields(fields);
      store := store + Points(Sanitize(tag), time, normalized);
      return true;
    }
  }

  method ChooseFields(identity: Option<Identity>, body: Body) returns (fields: Body)
    ensures fields == FieldsToFile(identity, body)
  {
    var source := body;
    if identity.Some? && IsActuator(identity.value.kind) {
      var on := StateToBool(body);
      if on.Some? {
        source := source["state" := Flag(on.value)];
      } else {
        source := source - {"state"};
      }
    } else {
      source := source - {"state"};
    }
    fields := map k | k in source && k in KNOWN_FIELDS :: source[k];
  }

  lemma NothingToFile(store: Store, tag: string, time: int, fields: Body)
    ensures fields == map[] ==> WriteTelemetry(store, tag, time, fields) == store
  {
    if fields == map[] {
      assert Normalize(fields) == map[];
      assert Points(Sanitize(tag), time, Normalize(fields)) == map[];
    }
  }
}

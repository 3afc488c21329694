/** The device registry: the tables `device` and `device_alias` as rows in id order, the queries of
    backend-python/app/device/repository.py, and the changes made by the transactions of
    backend-python/app/device/service.py, each as a function from tables to tables. */
module Registry {
  import opened Prelude
  import opened Sequences

  datatype DeviceType = Light | Sensor | Switch | Plug | Other

  datatype Device = Device(id: nat, ieee: string, name: string, kind: DeviceType, vendor: Option<string>,
                           model: Option<string>, available: bool, state: Option<string>)

  datatype Alias = Alias(id: nat, owner: string, name: string)

  /** Both tables with the next value of each id sequence. */
  datatype Db = Db(devices: seq<Device>, aliases: seq<Alias>, nextDevice: nat, nextAlias: nat)

  datatype Definition = Definition(description: Option<string>, model: Option<string>, vendor: Option<string>)

  /** One entry of the Zigbee2MQTT device list. */
  datatype Payload = Payload(ieee: Option<string>, name: Option<string>, vendor: Option<string>,
                             model: Option<string>, definition: Option<Definition>)

  /** Who a device is and what it is and was called. */
  datatype Identity = Identity(ieee: string, name: string, aliases: seq<string>, kind: DeviceType)

  // ----- Queries -----

  function HasAddress(a: string): Device -> bool { (d: Device) => d.ieee == a }

  function HasId(id: nat): Device -> bool { (d: Device) => d.id == id }

  function HasName(n: string): Device -> bool { (d: Device) => d.name == n }

  function IsNamed(n: string): Alias -> bool { (r: Alias) => r.name == n }

  function IndexOfAddress(ds: seq<Device>, a: string): (i: nat)
    ensures i <= |ds|
    ensures i < |ds| ==> ds[i].ieee == a
    ensures forall j :: 0 <= j < i ==> ds[j].ieee != a
  {
    IndexWhere(ds, HasAddress(a))
  }

  function IndexOfId(ds: seq<Device>, id: nat): (i: nat)
    ensures i <= |ds|
    ensures i < |ds| ==> ds[i].id == id
    ensures forall j :: 0 <= j < i ==> ds[j].id != id
  {
    IndexWhere(ds, HasId(id))
  }

  /** Names are not unique; the lowest id wins. */
  function IndexOfName(ds: seq<Device>, n: string): (i: nat)
    ensures i <= |ds|
    ensures i < |ds| ==> ds[i].name == n
    ensures forall j :: 0 <= j < i ==> ds[j].name != n
  {
    IndexWhere(ds, HasName(n))
  }

  function IndexOfAlias(al: seq<Alias>, n: string): (i: nat)
    ensures i <= |al|
    ensures i < |al| ==> al[i].name == n
    ensures forall j :: 0 <= j < i ==> al[j].name != n
  {
    IndexWhere(al, IsNamed(n))
  }

  function FindByAddress(db: Db, a: string): Option<Device> { First(db.devices, HasAddress(a)) }

  function FindByName(db: Db, n: string): Option<Device> { First(db.devices, HasName(n)) }

  /** The address that has claimed the name `n`. */
  function OwnerOf(db: Db, n: string): Option<string> {
    var i := IndexOfAlias(db.aliases, n);
    if i < |db.aliases| then Some(db.aliases[i].owner) else None
  }

  function FindByAlias(db: Db, n: string): Option<Device> {
    match OwnerOf(db, n)
    case None => None
    case Some(a) => FindByAddress(db, a)
  }

  function ListAliases(al: seq<Alias>, a: string): seq<string> {
    if al == [] then [] else (if al[0].owner == a then [al[0].name] else []) + ListAliases(al[1..], a)
  }

  /** An address, then a current name, then a claimed name. */
  function ResolveDevice(db: Db, value: string): Option<Device> {
    if value == "" then None
    else if FindByAddress(db, value).Some? then FindByAddress(db, value)
    else if FindByName(db, value).Some? then FindByName(db, value)
    else FindByAlias(db, value)
  }

  function IdentityOf(db: Db, d: Device): Identity {
    Identity(d.ieee, d.name, ListAliases(db.aliases, d.ieee), d.kind)
  }

  function Resolve(db: Db, value: string): Option<Identity> {
    match ResolveDevice(db, value)
    case None => None
    case Some(d) => Some(IdentityOf(db, d))
  }

  // ----- Mapping a payload to a row -----

  function ResolveVendor(p: Payload): Option<string> {
    if p.definition.Some? && p.definition.value.vendor.Some? then p.definition.value.vendor else p.vendor
  }

  function ResolveModel(p: Payload): Option<string> {
    if p.definition.Some? && p.definition.value.model.Some? then p.definition.value.model else p.model
  }

  /** Lower case for the letters that occur in the words below; no other character has one of
      their letters as its lower case form next to the letter that follows it. */
  function Lower(s: string): string {
    seq(|s|, i requires 0 <= i < |s| => if 'A' <= s[i] <= 'Z' then (s[i] as int + 32) as char else s[i])
  }

  predicate OccursAt(s: string, word: string, i: nat) {
    i + |word| <= |s| && s[i..i + |word|] == word
  }

  predicate Mentions(s: string, word: string) {
    exists i :: 0 <= i <= |s| && OccursAt(s, word, i)
  }

  function DetermineType(p: Payload): DeviceType {
    if p.definition.None? || p.definition.value.description.None? then Other
    else
      var desc := Lower(p.definition.value.description.value);
      if Mentions(desc, "light") || Mentions(desc, "bulb") || Mentions(desc, "led") then Light
      else if Mentions(desc, "sensor") || Mentions(desc, "motion") || Mentions(desc, "occupancy")
              || Mentions(desc, "temperature") then Sensor
      else if Mentions(desc, "switch") || Mentions(desc, "button") then Switch
      else Other
  }

  predicate FitsText(t: Option<string>) { t.Some? ==> |t.value| <= 255 }

  /** The columns a payload writes accept its values. */
  predicate FitsColumns(p: Payload) {
    p.name.Some? && FitsText(p.name) && FitsText(ResolveVendor(p)) && FitsText(ResolveModel(p))
  }

  /** A new device starts available and without a reported state. */
  function ToEntity(id: nat, p: Payload): Device
    requires p.ieee.Some? && p.name.Some?
  {
    Device(id, p.ieee.value, p.name.value, DetermineType(p), ResolveVendor(p), ResolveModel(p), true, None)
  }

  /** Availability and state belong to other topics and are left alone. */
  function Refresh(d: Device, p: Payload): Device
    requires p.name.Some?
  {
    d.(name := p.name.value, kind := DetermineType(p), vendor := ResolveVendor(p), model := ResolveModel(p))
  }

  // ----- Changes -----

  /** Insert unless blank or already claimed by any device. */
  function AddAlias(db: Db, a: string, n: string): Db {
    if IsBlank(n) || OwnerOf(db, n).Some? then db
    else db.(aliases := db.aliases + [Alias(db.nextAlias, a, n)], nextAlias := db.nextAlias + 1)
  }

  function RememberName(db: Db, a: string, n: string): Db {
    if n == "" || a == "" then db else AddAlias(db, a, n)
  }

  function Inserted(db: Db, p: Payload): Db
    requires p.ieee.Some? && p.name.Some?
  {
    db.(devices := db.devices + [ToEntity(db.nextDevice, p)], nextDevice := db.nextDevice + 1)
  }

  /** One round of the sync loop; None when the database refuses the row. */
  function ApplyPayload(db: Db, p: Payload): Option<Db> {
    if p.ieee.None? || !FitsColumns(p) then None
    else
      var a, n := p.ieee.value, p.name.value;
      var i := IndexOfAddress(db.devices, a);
      if i == |db.devices| then
        if |a| > 24 then None else Some(RememberName(Inserted(db, p), a, n))
      else
        var previous := db.devices[i].name;
        var updated := db.(devices := db.devices[i := Refresh(db.devices[i], p)]);
        var remembered := if previous != n then RememberName(updated, a, previous) else updated;
        Some(RememberName(remembered, a, n))
  }

  function ApplyAll(db: Db, ps: seq<Payload>): Option<Db> {
    if ps == [] then Some(db)
    else
      match ApplyAll(db, ps[..|ps| - 1])
      case None => None
      case Some(d) => ApplyPayload(d, ps[|ps| - 1])
  }

  /** The addresses of a device list. */
  function Addresses(ps: seq<Payload>): seq<Option<string>> {
    seq(|ps|, i requires 0 <= i < |ps| => ps[i].ieee)
  }

  function MarkUnavailableNotIn(db: Db, active: seq<Option<string>>): Db {
    db.(devices := seq(|db.devices|, i requires 0 <= i < |db.devices| =>
      if Some(db.devices[i].ieee) in active then db.devices[i] else db.devices[i].(available := false)))
  }

  /** A device list is applied as a whole or, when one row is refused, not at all. */
  function Sync(db: Db, ps: seq<Payload>): Db {
    match ApplyAll(db, ps)
    case None => db
    case Some(d) => MarkUnavailableNotIn(d, Addresses(ps))
  }

  /** A rename in the app: `PUT /api/devices/{id}`. Unchanged when there is no such device or the
      name is too long for its column. */
  function UpdateDevice(db: Db, id: nat, n: string, kind: Option<DeviceType>): Db {
    var i := IndexOfId(db.devices, id);
    if i == |db.devices| || |n| > 255 then db
    else
      var d := db.devices[i];
      var updated := db.(devices := db.devices[i := d.(name := n, kind := if kind.Some? then kind.value else d.kind)]);
      if d.name == n then updated else RememberName(RememberName(updated, d.ieee, d.name), d.ieee, n)
  }

  function WithoutOwner(al: seq<Alias>, a: string): seq<Alias> {
    if al == [] then [] else (if al[0].owner == a then [] else [al[0]]) + WithoutOwner(al[1..], a)
  }

  /** Deleting a device deletes its alias rows with it. */
  function DeleteDevice(db: Db, id: nat): Db {
    var i := IndexOfId(db.devices, id);
    if i == |db.devices| then db
    else db.(devices := Drop(db.devices, i), aliases := WithoutOwner(db.aliases, db.devices[i].ieee))
  }

  function SetAvailable(db: Db, a: string, online: bool): Db {
    var i := IndexOfAddress(db.devices, a);
    if i == |db.devices| then db else db.(devices := db.devices[i := db.devices[i].(available := online)])
  }

  function UpdateAvailability(db: Db, name: string, online: bool): Db {
    match ResolveDevice(db, name)
    case None => db
    case Some(d) => SetAvailable(db, d.ieee, online)
  }

  /** The state column holds ten characters; a longer value is refused. */
  function UpdateState(db: Db, a: string, state: string): Db {
    var i := IndexOfAddress(db.devices, a);
    if i == |db.devices| || |state| > 10 then db
    else db.(devices := db.devices[i := db.devices[i].(state := Some(state))])
  }

  // ----- Runs -----

  /** Everything that changes the registry. */
  datatype Action =
    | SyncList(payloads: seq<Payload>)
    | Update(id: nat, name: string, kind: Option<DeviceType>)
    | Delete(id: nat)
    | Availability(topicName: string, online: bool)
    | ReportState(address: string, state: string)

  function Act(db: Db, action: Action): Db {
    match action
    case SyncList(ps) => Sync(db, ps)
    case Update(id, n, kind) => UpdateDevice(db, id, n, kind)
    case Delete(id) => DeleteDevice(db, id)
    case Availability(n, online) => UpdateAvailability(db, n, online)
    case ReportState(a, s) => UpdateState(db, a, s)
  }

  function Run(db: Db, actions: seq<Action>): Db
    decreases |actions|
  {
    if actions == [] then db else Run(Act(db, actions[0]), actions[1..])
  }

  const EMPTY: Db := Db([], [], 0, 0)
}

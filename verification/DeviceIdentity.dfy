/** The tags under which a device's telemetry may be filed (backend-python/app/device/identity.py). */
module DeviceIdentity {
  import opened Prelude
  import opened Registry

  /** Every tag a device's points may carry: its address, its name, its former names. */
  function TelemetryKeys(id: Identity): seq<string> {
    AddKeys([id.ieee], [id.name] + id.aliases)
  }

  function AddKeys(keys: seq<string>, names: seq<string>): seq<string>
    decreases |names|
  {
    if names == [] then keys
    else if names[0] != "" && names[0] !in keys then AddKeys(keys + [names[0]], names[1..])
    else AddKeys(keys, names[1..])
  }

  lemma {:induction false} AddKeysSpec(keys: seq<string>, names: seq<string>)
    requires NoDuplicates(keys)
    ensures NoDuplicates(AddKeys(keys, names)) && keys <= AddKeys(keys, names)
    ensures forall k :: k in AddKeys(keys, names) <==> k in keys || (k in names && k != "")
    decreases |names|
  {
    if names != [] {
      assert names == [names[0]] + names[1..];
      if names[0] != "" && names[0] !in keys {
        AddKeysSpec(keys + [names[0]], names[1..]);
      } else {
        AddKeysSpec(keys, names[1..]);
      }
    }
  }

  /** The address leads, nothing is repeated, and nothing else is left out or added. */
  lemma TelemetryKeysSpec(id: Identity)
    ensures TelemetryKeys(id) != [] && TelemetryKeys(id)[0] == id.ieee && NoDuplicates(TelemetryKeys(id))
    ensures forall k :: k in TelemetryKeys(id) <==> k == id.ieee || (k != "" && (k == id.name || k in id.aliases))
  {
    AddKeysSpec([id.ieee], [id.name] + id.aliases);
  }

  method CollectTelemetryKeys(id: Identity) returns (keys: seq<string>)
    ensures keys == TelemetryKeys(id)
  {
    keys := [id.ieee];
    var names := [id.name] + id.aliases;
    assert names[0..] == names;
    for i := 0 to |names|
      invariant AddKeys(keys, names[i..]) == TelemetryKeys(id)
    {
      assert names[i..][1..] == names[i + 1..];
      if names[i] != "" && names[i] !in keys {
        keys := keys + [names[i]];
      }
    }
  }
}

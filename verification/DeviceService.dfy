/** The device service of backend-python/app/device/service.py over its two tables. Each method is
    one transaction; a refused row rolls the tables back. */
module DeviceServices {
  import opened Prelude
  import R = Registry

  datatype UpdateResult =
    | NotFound
    | Rejected
    | Updated(renameRequest: Option<(string, string)>)

  class DeviceService {
    var devices: seq<R.Device>
    var aliases: seq<R.Alias>
    var nextDevice: nat
    var nextAlias: nat

    function Tables(): R.Db
      reads this
    {
      R.Db(devices, aliases, nextDevice, nextAlias)
    }

    constructor ()
      ensures Tables() == R.EMPTY
    {
      devices, aliases, nextDevice, nextAlias := [], [], 0, 0;
    }

    /** True when a row was inserted: the name is not blank and nobody had claimed it. */
    method AddAlias(a: string, n: string) returns (inserted: bool)
      modifies this
      ensures Tables() == R.AddAlias(old(Tables()), a, n)
      ensures inserted <==> !IsBlank(n) && R.OwnerOf(old(Tables()), n).None?
      ensures inserted <==> |aliases| == |old(aliases)| + 1
    {
      if IsBlank(n) || R.IndexOfAlias(aliases, n) < |aliases| {
        return false;
      }
      aliases := aliases + [R.Alias(nextAlias, a, n)];
      nextAlias := nextAlias + 1;
      return true;
    }

    method RememberName(a: string, n: string)
      modifies this
      ensures Tables() == R.RememberName(old(Tables()), a, n)
    {
      if n == "" || a == "" {
        return;
      }
      var _ := AddAlias(a, n);
    }

    method Restore(tables: R.Db)
      modifies this
      ensures Tables() == tables
    {
      devices, aliases, nextDevice, nextAlias := tables.devices, tables.aliases, tables.nextDevice, tables.nextAlias;
    }

    /** One round of the sync loop; false when the database refuses the row. */
    method ApplyPayload(p: R.Payload) returns (ok: bool)
      modifies this
      ensures ok <==> R.ApplyPayload(old(Tables()), p).Some?
      ensures ok ==> Some(Tables()) == R.ApplyPayload(old(Tables()), p)
    {
      if p.ieee.None? || !R.FitsColumns(p) {
        return false;
      }
      var a, n := p.ieee.value, p.name.value;
      var i := R.IndexOfAddress(devices, a);
      if i == |devices| {
        if |a| > 24 {
          return false;
        }
        devices := devices + [R.ToEntity(nextDevice, p)];
        nextDevice := nextDevice + 1;
      } else {
        var previous := devices[i].name;
        devices := devices[i := R.Refresh(devices[i], p)];
        if previous != n {
          RememberName(a, previous);
        }
      }
      RememberName(a, n);
      return true;
    }

    /** The addresses announced to subscribers, or None when the whole list was rolled back. */
    method SyncDevices(payloads: seq<R.Payload>) returns (announced: Option<seq<Option<string>>>)
      modifies this
      ensures Tables() == R.Sync(old(Tables()), payloads)
      ensures announced == if R.ApplyAll(old(Tables()), payloads).Some? then Some(R.Addresses(payloads)) else None
    {
      var active := R.Addresses(payloads);
      var before := Tables();
      for i := 0 to |payloads|
        invariant R.ApplyAll(before, payloads[..i]) == Some(Tables())
      {
        assert payloads[..i + 1][..i] == payloads[..i];
        var ok := ApplyPayload(payloads[i]);
        if !ok {
          RefusedEntry(before, payloads, i);
          Restore(before);
          return None;
        }
      }
      assert payloads[..|payloads|] == payloads;
      devices := R.MarkUnavailableNotIn(Tables(), active).devices;
      return Some(active);
    }

    function ResolveIdentity(value: string): Option<R.Identity>
      reads this
    {
      R.Resolve(Tables(), value)
    }

    /** On a rename the broker is asked, after the commit, to rename the device too. */
    method UpdateDevice(id: nat, name: string, kind: Option<R.DeviceType>) returns (result: UpdateResult)
      modifies this
      ensures Tables() == R.UpdateDevice(old(Tables()), id, name, kind)
      ensures var i := R.IndexOfId(old(devices), id);
        result == if i == |old(devices)| then NotFound
                  else if |name| > 255 then Rejected
                  else Updated(if old(devices)[i].name == name then None else Some((old(devices)[i].name, name)))
    {
      var i := R.IndexOfId(devices, id);
      if i == |devices| {
        return NotFound;
      }
      var device := devices[i];
      if |name| > 255 {
        return Rejected;
      }
      devices := devices[i := device.(name := name, kind := if kind.Some? then kind.value else device.kind)];
      var renamed := device.name != name;
      if renamed {
        RememberName(device.ieee, device.name);
        RememberName(device.ieee, name);
      }
      return Updated(if renamed then Some((device.name, name)) else None);
    }

    method DeleteDevice(id: nat) returns (found: bool)
      modifies this
      ensures Tables() == R.DeleteDevice(old(Tables()), id)
      ensures found <==> R.IndexOfId(old(devices), id) < |old(devices)|
    {
      var i := R.IndexOfId(devices, id);
      if i == |devices| {
        return false;
      }
      aliases := R.WithoutOwner(aliases, devices[i].ieee);
      devices := devices[..i] + devices[i + 1..];
      return true;
    }

    /** True when a device was found under the name. */
    method UpdateAvailability(name: string, available: bool) returns (updated: bool)
      modifies this
      ensures Tables() == R.UpdateAvailability(old(Tables()), name, available)
      ensures updated <==> R.ResolveDevice(old(Tables()), name).Some?
    {
      var device := R.ResolveDevice(Tables(), name);
      if device.None? {
        return false;
      }
      var i := R.IndexOfAddress(devices, device.value.ieee);
      assert device.value in devices;
      devices := devices[i := devices[i].(available := available)];
      return true;
    }

    method UpdateState(a: string, state: string) returns (updated: bool)
      modifies this
      ensures Tables() == R.UpdateState(old(Tables()), a, state)
      ensures updated <==> R.FindByAddress(old(Tables()), a).Some? && |state| <= 10
    {
      var i := R.IndexOfAddress(devices, a);
      if i == |devices| || |state| > 10 {
        return false;
      }
      devices := devices[i := devices[i].(state := Some(state))];
      return true;
    }
  }

  /** A refused entry refuses the list. */
  lemma {:induction false} RefusedEntry(db: R.Db, ps: seq<R.Payload>, i: nat)
    requires i < |ps| && R.ApplyAll(db, ps[..i]).Some? && R.ApplyPayload(R.ApplyAll(db, ps[..i]).value, ps[i]).None?
    ensures R.ApplyAll(db, ps).None?
  {
    var before := ps[..|ps| - 1];
    if i < |before| {
      assert before[..i] == ps[..i];
      RefusedEntry(db, before, i);
    }
  }
}

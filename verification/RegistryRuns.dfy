/** What holds over every run of syncs, renames, deletions, availability and state reports: the
    registry stays well formed, the first claim on a name lasts as long as its device, and names
    lead to the right device. */
module RegistryRuns {
  import opened Prelude
  import opened DeviceIdentity
  import opened Registry
  import opened RegistryInvariant
  import opened RegistrySync
  import opened Sequences

  // ----- Alias rows -----

  ghost predicate DistinctNames(al: seq<Alias>) {
    forall i, j :: 0 <= i < j < |al| ==> al[i].name != al[j].name
  }

  function OwnerIn(al: seq<Alias>, n: string): Option<string> {
    var i := IndexOfAlias(al, n);
    if i < |al| then Some(al[i].owner) else None
  }

  lemma OwnerInCons(al: seq<Alias>, n: string)
    requires al != []
    ensures OwnerIn(al, n) == if al[0].name == n then Some(al[0].owner) else OwnerIn(al[1..], n)
  {
    assert al == [al[0]] + al[1..];
    IndexInConcat([al[0]], al[1..], IsNamed(n));
    assert IndexWhere([al[0]], IsNamed(n)) == if al[0].name == n then 0 else 1;
  }

  lemma AbsentName(al: seq<Alias>, n: string)
    requires al != [] && DistinctNames(al) && al[0].name == n
    ensures OwnerIn(al[1..], n) == None
  {
    assert forall i :: 0 <= i < |al[1..]| ==> al[1..][i] == al[i + 1];
  }

  lemma {:induction false} ListAliasesAre(al: seq<Alias>, a: string, n: string)
    requires DistinctNames(al)
    ensures n in ListAliases(al, a) <==> OwnerIn(al, n) == Some(a)
  {
    if al != [] {
      OwnerInCons(al, n);
      ListAliasesAre(al[1..], a, n);
      if al[0].name == n { AbsentName(al, n); }
    }
  }

  /** A name claimed later is listed later. */
  lemma {:induction false} ClaimedLastListedLast(al: seq<Alias>, x: Alias, a: string)
    ensures ListAliases(al + [x], a) == ListAliases(al, a) + if x.owner == a then [x.name] else []
  {
    if al == [] {
      assert al + [x] == [x] && [x][1..] == [];
    } else {
      assert (al + [x])[0] == al[0] && (al + [x])[1..] == al[1..] + [x];
      ClaimedLastListedLast(al[1..], x, a);
      var first, more := if al[0].owner == a then [al[0].name] else [], if x.owner == a then [x.name] else [];
      assert first + (ListAliases(al[1..], a) + more) == (first + ListAliases(al[1..], a)) + more;
    }
  }

  lemma {:induction false} WithoutOwnerOwner(al: seq<Alias>, a: string, n: string)
    requires DistinctNames(al)
    ensures OwnerIn(WithoutOwner(al, a), n) == if OwnerIn(al, n) == Some(a) then None else OwnerIn(al, n)
  {
    if al != [] {
      OwnerInCons(al, n);
      WithoutOwnerOwner(al[1..], a, n);
      var rest := WithoutOwner(al[1..], a);
      if al[0].owner == a {
        if al[0].name == n { AbsentName(al, n); }
        assert WithoutOwner(al, a) == rest;
      } else {
        assert ([al[0]] + rest)[1..] == rest;
        OwnerInCons([al[0]] + rest, n);
      }
    }
  }

  ghost predicate Ordered(al: seq<Alias>) {
    forall i, j :: 0 <= i < j < |al| ==> al[i].id < al[j].id && al[i].name != al[j].name
  }

  ghost predicate Precedes(x: Alias, al: seq<Alias>) {
    forall y :: y in al ==> x.id < y.id && x.name != y.name
  }

  lemma OrderedTail(al: seq<Alias>)
    requires al != [] && Ordered(al)
    ensures Ordered(al[1..]) && Precedes(al[0], al[1..])
  {
    forall y | y in al[1..] ensures al[0].id < y.id && al[0].name != y.name {
      var i :| 0 <= i < |al[1..]| && al[1..][i] == y;
      assert al[i + 1] == y;
    }
  }

  lemma OrderedCons(x: Alias, al: seq<Alias>)
    requires Ordered(al) && Precedes(x, al)
    ensures Ordered([x] + al)
  {
    var r := [x] + al;
    forall i, j | 0 <= i < j < |r| ensures r[i].id < r[j].id && r[i].name != r[j].name {
      assert r[j] == al[j - 1] && al[j - 1] in al;
      if i > 0 { assert r[i] == al[i - 1]; }
    }
  }

  lemma {:induction false} WithoutOwnerRows(al: seq<Alias>, a: string)
    requires Ordered(al)
    ensures Ordered(WithoutOwner(al, a)) && forall x :: x in WithoutOwner(al, a) <==> x in al && x.owner != a
  {
    if al != [] {
      OrderedTail(al);
      WithoutOwnerRows(al[1..], a);
      assert al == [al[0]] + al[1..];
      if al[0].owner != a { OrderedCons(al[0], WithoutOwner(al[1..], a)); }
    }
  }

  // ----- One action -----

  ghost predicate Removes(db: Db, action: Action, a: string) {
    action.Delete? && IndexOfId(db.devices, action.id) < |db.devices|
    && db.devices[IndexOfId(db.devices, action.id)].ieee == a
  }

  lemma DeleteRows(db: Db, i: nat, a: string)
    requires WellFormed(db) && i < |db.devices|
    ensures First(Drop(db.devices, i), HasAddress(a)) == if a == db.devices[i].ieee then None else FindByAddress(db, a)
  {
    var ds := Drop(db.devices, i);
    if a == db.devices[i].ieee {
      forall j | 0 <= j < |ds| ensures ds[j].ieee != a { DroppedRow(db.devices, i, j); }
    } else {
      FirstAfterDrop(db.devices, i, HasAddress(a));
    }
  }

  lemma DeleteOwners(db: Db, id: nat, n: string)
    requires WellFormed(db) && IndexOfId(db.devices, id) < |db.devices|
    ensures var gone := db.devices[IndexOfId(db.devices, id)].ieee;
      OwnerOf(DeleteDevice(db, id), n) == if OwnerOf(db, n) == Some(gone) then None else OwnerOf(db, n)
  {
    WithoutOwnerOwner(db.aliases, db.devices[IndexOfId(db.devices, id)].ieee, n);
  }

  lemma DeleteEffect(db: Db, id: nat)
    requires WellFormed(db) && IndexOfId(db.devices, id) < |db.devices|
    ensures var gone, db' := db.devices[IndexOfId(db.devices, id)].ieee, DeleteDevice(db, id);
      (forall a :: FindByAddress(db', a) == if a == gone then None else FindByAddress(db, a))
      && (forall n :: OwnerOf(db', n) == if OwnerOf(db, n) == Some(gone) then None else OwnerOf(db, n))
      && WellFormed(db')
  {
    var gone, db' := db.devices[IndexOfId(db.devices, id)].ieee, DeleteDevice(db, id);
    forall a ensures FindByAddress(db', a) == if a == gone then None else FindByAddress(db, a) {
      DeleteRows(db, IndexOfId(db.devices, id), a);
    }
    forall n ensures OwnerOf(db', n) == if OwnerOf(db, n) == Some(gone) then None else OwnerOf(db, n) {
      DeleteOwners(db, id, n);
    }
    DeleteKeepsRows(db, id);
  }

  lemma DeleteKeepsDevices(db: Db, id: nat)
    requires DevicesOk(db)
    ensures DevicesOk(DeleteDevice(db, id))
  {
    var i, ds := IndexOfId(db.devices, id), DeleteDevice(db, id).devices;
    if i < |db.devices| {
      forall j, k | 0 <= j < k < |ds| ensures ds[j].id < ds[k].id && ds[j].ieee != ds[k].ieee {
        DroppedRow(db.devices, i, j);
        DroppedRow(db.devices, i, k);
      }
      forall j | 0 <= j < |ds| ensures ds[j].id < db.nextDevice { DroppedRow(db.devices, i, j); }
    }
  }

  lemma DeleteKeepsRows(db: Db, id: nat)
    requires WellFormed(db) && IndexOfId(db.devices, id) < |db.devices|
    ensures WellFormed(DeleteDevice(db, id))
  {
    var al := DeleteDevice(db, id).aliases;
    DeleteKeepsDevices(db, id);
    WithoutOwnerRows(db.aliases, db.devices[IndexOfId(db.devices, id)].ieee);
    forall k | 0 <= k < |al|
      ensures al[k].id < db.nextAlias && al[k].owner != "" && !IsBlank(al[k].name)
      ensures FindByAddress(DeleteDevice(db, id), al[k].owner).Some?
    {
      assert al[k] in al;
      KeptAlias(db, id, al[k]);
    }
  }

  lemma KeptAlias(db: Db, id: nat, r: Alias)
    requires WellFormed(db) && IndexOfId(db.devices, id) < |db.devices|
    requires r in db.aliases && r.owner != db.devices[IndexOfId(db.devices, id)].ieee
    ensures r.id < db.nextAlias && r.owner != "" && !IsBlank(r.name)
    ensures FindByAddress(DeleteDevice(db, id), r.owner).Some?
  {
    var m :| 0 <= m < |db.aliases| && db.aliases[m] == r;
    DeleteRows(db, IndexOfId(db.devices, id), r.owner);
  }

  /** Replacing one row by one with the same keys. */
  lemma OneRowKeeps(db: Db, i: nat, d: Device)
    requires WellFormed(db) && i < |db.devices| && d.id == db.devices[i].id && d.ieee == db.devices[i].ieee
    ensures var db' := db.(devices := db.devices[i := d]);
      WellFormed(db') && forall a :: FindByAddress(db, a).Some? <==> FindByAddress(db', a).Some?
  {
    var db' := db.(devices := db.devices[i := d]);
    RelabelKeeps(db, db'.devices);
    forall a ensures IndexOfAddress(db'.devices, a) == IndexOfAddress(db.devices, a) {
      SameKeysSameIndex(db.devices, db'.devices, a);
    }
  }

  lemma UpdateEffect(db: Db, id: nat, n: string, kind: Option<DeviceType>)
    requires WellFormed(db)
    ensures var db' := UpdateDevice(db, id, n, kind);
      WellFormed(db') && db.aliases <= db'.aliases
      && (forall a :: FindByAddress(db, a).Some? ==> FindByAddress(db', a).Some?)
  {
    var i := IndexOfId(db.devices, id);
    if i < |db.devices| && |n| <= 255 {
      var d := db.devices[i];
      var updated := db.(devices := db.devices[i := d.(name := n, kind := if kind.Some? then kind.value else d.kind)]);
      OneRowKeeps(db, i, updated.devices[i]);
      if d.name != n {
        assert FindByAddress(db, d.ieee).Some?;
        RememberNameKeeps(updated, d.ieee, d.name);
        RememberNameKeeps(RememberName(updated, d.ieee, d.name), d.ieee, n);
      }
    }
  }

  /** The owner of a name after a rename in the app. */
  lemma UpdateOwner(db: Db, id: nat, n: string, kind: Option<DeviceType>, m: string)
    ensures var i := IndexOfId(db.devices, id);
      OwnerOf(UpdateDevice(db, id, n, kind), m) ==
      if OwnerOf(db, m).None? && i < |db.devices| && |n| <= 255 && db.devices[i].name != n && db.devices[i].ieee != ""
         && !IsBlank(m) && (m == n || m == db.devices[i].name)
      then Some(db.devices[i].ieee) else OwnerOf(db, m)
  {
    var i := IndexOfId(db.devices, id);
    if i < |db.devices| && |n| <= 255 {
      var d := db.devices[i];
      var updated := db.(devices := db.devices[i := d.(name := n, kind := if kind.Some? then kind.value else d.kind)]);
      RememberNameOwner(updated, d.ieee, d.name, m);
      RememberNameOwner(RememberName(updated, d.ieee, d.name), d.ieee, n, m);
    }
  }

  lemma OneRowFinds(db: Db, i: nat, d: Device, a: string)
    requires WellFormed(db) && i < |db.devices| && d.id == db.devices[i].id && d.ieee == db.devices[i].ieee
    ensures FindByAddress(db.(devices := db.devices[i := d]), a)
      == if a == d.ieee then Some(d) else FindByAddress(db, a)
  {
    SameKeysSameIndex(db.devices, db.devices[i := d], a);
    assert a == d.ieee ==> IndexOfAddress(db.devices, a) == i;
  }

  /** A rename gives one device its new label and type and leaves the others as they were. */
  lemma RenameEffect(db: Db, id: nat, n: string, kind: Option<DeviceType>, a: string)
    requires WellFormed(db)
    ensures var i := IndexOfId(db.devices, id);
      FindByAddress(UpdateDevice(db, id, n, kind), a) ==
      if i < |db.devices| && |n| <= 255 && a == db.devices[i].ieee
      then Some(db.devices[i].(name := n, kind := if kind.Some? then kind.value else db.devices[i].kind))
      else FindByAddress(db, a)
  {
    var i := IndexOfId(db.devices, id);
    if i < |db.devices| && |n| <= 255 {
      var d := db.devices[i].(name := n, kind := if kind.Some? then kind.value else db.devices[i].kind);
      var updated := db.(devices := db.devices[i := d]);
      OneRowFinds(db, i, d, a);
      RememberNameRows(updated, d.ieee, db.devices[i].name);
      RememberNameRows(RememberName(updated, d.ieee, db.devices[i].name), d.ieee, n);
    }
  }

  /** An availability message changes that flag of the device its name leads to, and nothing else. */
  lemma AvailabilityEffect(db: Db, n: string, online: bool, a: string)
    requires WellFormed(db)
    ensures var d, db' := ResolveDevice(db, n), UpdateAvailability(db, n, online);
      FindByAddress(db', a) ==
        (if d.Some? && a == d.value.ieee then Some(d.value.(available := online)) else FindByAddress(db, a))
      && db'.aliases == db.aliases && (d.None? ==> db' == db)
  {
    var d := ResolveDevice(db, n);
    if d.Some? {
      assert d.value in db.devices;
      var j :| 0 <= j < |db.devices| && db.devices[j] == d.value;
      var i := IndexOfAddress(db.devices, d.value.ieee);
      assert i == j;
      OneRowFinds(db, i, d.value.(available := online), a);
    }
  }

  ghost predicate OnlyFlags(db: Db, db': Db) {
    db'.aliases == db.aliases && |db'.devices| == |db.devices|
    && (forall i :: 0 <= i < |db.devices| ==> db'.devices[i].name == db.devices[i].name)
    && (forall a :: FindByAddress(db, a).Some? <==> FindByAddress(db', a).Some?)
  }

  lemma SetAvailableEffect(db: Db, a: string, online: bool)
    requires WellFormed(db)
    ensures WellFormed(SetAvailable(db, a, online)) && OnlyFlags(db, SetAvailable(db, a, online))
  {
    var i := IndexOfAddress(db.devices, a);
    if i < |db.devices| { OneRowKeeps(db, i, db.devices[i].(available := online)); }
  }

  lemma UpdateStateEffect(db: Db, a: string, s: string)
    requires WellFormed(db)
    ensures WellFormed(UpdateState(db, a, s)) && OnlyFlags(db, UpdateState(db, a, s))
  {
    var i := IndexOfAddress(db.devices, a);
    if i < |db.devices| { OneRowKeeps(db, i, db.devices[i].(state := Some(s))); }
  }

  lemma SetFlagEffect(db: Db, n: string, online: bool)
    requires WellFormed(db)
    ensures WellFormed(UpdateAvailability(db, n, online)) && OnlyFlags(db, UpdateAvailability(db, n, online))
  {
    var d := ResolveDevice(db, n);
    if d.Some? {
      SetAvailableEffect(db, d.value.ieee, online);
    } else {
      assert UpdateAvailability(db, n, online) == db;
    }
  }

  lemma FlagEffect(db: Db, action: Action)
    requires WellFormed(db) && (action.Availability? || action.ReportState?)
    ensures WellFormed(Act(db, action)) && OnlyFlags(db, Act(db, action))
  {
    match action {
      case Availability(n, online) =>
        SetFlagEffect(db, n, online);
        assert Act(db, action) == UpdateAvailability(db, n, online);
      case ReportState(a, s) =>
        UpdateStateEffect(db, a, s);
        assert Act(db, action) == UpdateState(db, a, s);
    }
  }

  /** Every action keeps the registry well formed, whether or not it succeeds. */
  lemma ActKeepsWellFormed(db: Db, action: Action)
    requires WellFormed(db)
    ensures WellFormed(Act(db, action))
  {
    match action {
      case SyncList(ps) => SyncMeetsSpec(db, ps);
      case Update(id, n, kind) => UpdateEffect(db, id, n, kind);
      case Delete(id) => if IndexOfId(db.devices, id) < |db.devices| { DeleteEffect(db, id); }
      case Availability(_, _) => FlagEffect(db, action);
      case ReportState(_, _) => FlagEffect(db, action);
    }
  }

  /** A claimed name keeps its owner, and a device its row, through every action but the deletion
      of that device. */
  lemma ActKeepsClaim(db: Db, action: Action, a: string)
    requires WellFormed(db) && !Removes(db, action, a)
    ensures FindByAddress(db, a).Some? ==> FindByAddress(Act(db, action), a).Some?
    ensures forall n :: OwnerOf(db, n) == Some(a) ==> OwnerOf(Act(db, action), n) == Some(a)
  {
    match action {
      case SyncList(ps) =>
        SyncMeetsSpec(db, ps);
        if forall p :: p in ps ==> Accepts(db, p) { SyncKeepsDevice(db, ps, a); }
      case Update(id, n, kind) =>
        UpdateEffect(db, id, n, kind);
        forall m | OwnerOf(db, m) == Some(a) ensures OwnerOf(Act(db, action), m) == Some(a) {
          UpdateOwner(db, id, n, kind, m);
        }
      case Delete(id) => if IndexOfId(db.devices, id) < |db.devices| { DeleteEffect(db, id); }
      case Availability(_, _) => FlagEffect(db, action);
      case ReportState(_, _) => FlagEffect(db, action);
    }
  }

  lemma SyncKeepsDevice(db: Db, ps: seq<Payload>, a: string)
    requires WellFormed(db) && forall p :: p in ps ==> Accepts(db, p)
    ensures FindByAddress(db, a).Some? ==> FindByAddress(Sync(db, ps), a).Some?
  {
    SyncMeetsSpec(db, ps);
    var i := IndexOfAddress(db.devices, a);
    if i < |db.devices| { assert Sync(db, ps).devices[i] == RowAfter(db.devices[i], ps); }
  }

  // ----- Runs -----

  /** No action of the run deletes the device with address `a`. */
  ghost predicate Spares(db: Db, actions: seq<Action>, a: string)
    decreases |actions|
  {
    actions == [] || (!Removes(db, actions[0], a) && Spares(Act(db, actions[0]), actions[1..], a))
  }

  lemma {:induction false} RunKeepsWellFormed(db: Db, actions: seq<Action>)
    requires WellFormed(db)
    ensures WellFormed(Run(db, actions))
    decreases |actions|
  {
    if actions != [] {
      ActKeepsWellFormed(db, actions[0]);
      RunKeepsWellFormed(Act(db, actions[0]), actions[1..]);
    }
  }

  /** Over every run from an empty registry addresses and claimed names stay unique and every
      claimed name has a registered owner. */
  lemma ReachableIsWellFormed(actions: seq<Action>)
    ensures WellFormed(Run(EMPTY, actions))
  {
    RunKeepsWellFormed(EMPTY, actions);
  }

  /** Once `n` is claimed for `a` it stays claimed for `a` through every run that does not delete
      `a`, and `a` stays registered. */
  lemma {:induction false} ClaimPersists(db: Db, actions: seq<Action>, n: string, a: string)
    requires WellFormed(db) && OwnerOf(db, n) == Some(a) && Spares(db, actions, a)
    ensures OwnerOf(Run(db, actions), n) == Some(a) && FindByAddress(Run(db, actions), a).Some?
    decreases |actions|
  {
    OwnerIsRegistered(db, n);
    if actions != [] {
      ActKeepsWellFormed(db, actions[0]);
      ActKeepsClaim(db, actions[0], a);
      ClaimPersists(Act(db, actions[0]), actions[1..], n, a);
    }
  }

  lemma OwnerIsRegistered(db: Db, n: string)
    requires WellFormed(db) && OwnerOf(db, n).Some?
    ensures FindByAddress(db, OwnerOf(db, n).value).Some? && n != ""
  {
  }

  /** A claimed name always resolves, and it resolves to its owner exactly when no other device has
      it as address and the first device that carries it as name, if any, is the owner. */
  lemma ClaimedNameResolves(db: Db, n: string, a: string)
    requires WellFormed(db) && OwnerOf(db, n) == Some(a)
    ensures Resolve(db, n).Some?
    ensures Resolve(db, n).value.ieee == a <==>
      n == a || (FindByAddress(db, n).None? && (FindByName(db, n).Some? ==> FindByName(db, n).value.ieee == a))
  {
    OwnerIsRegistered(db, n);
  }

  /** Alias persistence: a name claimed for `a` still resolves to `a` after any run that does not
      delete `a`, in every state where no other device has it as address or carries it as name. */
  lemma AliasPersistence(db: Db, actions: seq<Action>, n: string, a: string)
    requires WellFormed(db) && OwnerOf(db, n) == Some(a) && Spares(db, actions, a)
    requires var db' := Run(db, actions);
      forall d :: d in db'.devices && d.ieee != a ==> d.ieee != n && d.name != n
    ensures Resolve(Run(db, actions), n).Some? && Resolve(Run(db, actions), n).value.ieee == a
    ensures n in TelemetryKeys(Resolve(Run(db, actions), n).value)
  {
    RunKeepsWellFormed(db, actions);
    ClaimPersists(db, actions, n, a);
    var db' := Run(db, actions);
    ClaimedNameResolves(db', n, a);
    OwnedNameIsKey(db', n, a, n);
  }

  /** Whatever identifier leads to the owner of `n`, the keys then queried include `n`. */
  lemma OwnedNameIsKey(db: Db, n: string, a: string, identifier: string)
    requires WellFormed(db) && OwnerOf(db, n) == Some(a)
    requires Resolve(db, identifier).Some? && Resolve(db, identifier).value.ieee == a
    ensures n in TelemetryKeys(Resolve(db, identifier).value)
  {
    OwnerIsRegistered(db, n);
    ListAliasesAre(db.aliases, a, n);
    TelemetryKeysSpec(Resolve(db, identifier).value);
  }

  /** Two devices share a telemetry key only if it is an address or a name one of them carries now. */
  lemma SharedKeys(db: Db, d: Device, e: Device, k: string)
    requires WellFormed(db) && d in db.devices && e in db.devices && d.ieee != e.ieee
    requires k in TelemetryKeys(IdentityOf(db, d)) && k in TelemetryKeys(IdentityOf(db, e))
    ensures k in {d.ieee, e.ieee, d.name, e.name}
  {
    TelemetryKeysSpec(IdentityOf(db, d));
    TelemetryKeysSpec(IdentityOf(db, e));
    ListAliasesAre(db.aliases, d.ieee, k);
    ListAliasesAre(db.aliases, e.ieee, k);
  }

  // ----- Current names -----

  /** A device's current name resolves to it exactly when no other device has that name as address
      and no device with a lower id carries it. */
  lemma CurrentNameResolves(db: Db, i: nat)
    requires WellFormed(db) && i < |db.devices| && db.devices[i].name != ""
    ensures var d := db.devices[i];
      Resolve(db, d.name).Some?
      && (Resolve(db, d.name).value.ieee == d.ieee <==>
          d.name == d.ieee
          || forall j :: 0 <= j < |db.devices| ==>
               db.devices[j].ieee != d.name && (j < i ==> db.devices[j].name != d.name))
  {
    var n := db.devices[i].name;
    var k, m := IndexOfName(db.devices, n), IndexOfAddress(db.devices, n);
    assert k <= i;
  }

  /** After a sync of a list with distinct addresses and distinct names every listed name resolves
      to its own device, also when devices swap names within the list, provided no unlisted device
      carries a listed name and no listed name is another device's address. */
  lemma SyncResolvesNames(db: Db, ps: seq<Payload>, p: Payload)
    requires WellFormed(db) && (forall q :: q in ps ==> Accepts(db, q)) && p in ps
    requires p.ieee.Some? && p.name.Some? && p.name.value != ""
    requires forall q :: q in ps && q != p ==> q.ieee != p.ieee && q.name != p.name
    requires forall d :: d in db.devices && !Listed(ps, d.ieee) ==> d.name != p.name.value
    requires forall d :: d in Sync(db, ps).devices && d.ieee != p.ieee.value ==> d.ieee != p.name.value
    ensures var r := Resolve(Sync(db, ps), p.name.value);
      r.Some? && r.value.ieee == p.ieee.value && r.value.name == p.name.value
  {
    SyncLists(db, ps, p);
    var d, a, n := Sync(db, ps), p.ieee.value, p.name.value;
    var i := IndexOfAddress(d.devices, a);
    NameAfterSync(db, ps, i);
    assert Latest(ps, a) == Some(p);
    forall j | 0 <= j < |d.devices| && j != i ensures d.devices[j].name != n && d.devices[j].ieee != n {
      assert d.devices[j].ieee != a;
      assert d.devices[j] in d.devices;
      OtherNameDiffers(db, ps, p, j);
    }
    SoleNameResolves(d, i);
  }

  /** A name that no other device has as name or address resolves to its device. */
  lemma SoleNameResolves(db: Db, i: nat)
    requires WellFormed(db) && i < |db.devices| && db.devices[i].name != ""
    requires forall j :: 0 <= j < |db.devices| && j != i ==>
               db.devices[j].name != db.devices[i].name && db.devices[j].ieee != db.devices[i].name
    ensures Resolve(db, db.devices[i].name) == Some(IdentityOf(db, db.devices[i]))
  {
    var n := db.devices[i].name;
    assert IndexOfName(db.devices, n) == i;
  }

  lemma SyncLists(db: Db, ps: seq<Payload>, p: Payload)
    requires WellFormed(db) && (forall q :: q in ps ==> Accepts(db, q)) && p in ps && p.ieee.Some?
    ensures WellFormed(Sync(db, ps)) && FindByAddress(Sync(db, ps), p.ieee.value).Some?
  {
    SyncMeetsSpec(db, ps);
  }

  lemma OtherNameDiffers(db: Db, ps: seq<Payload>, p: Payload, j: nat)
    requires WellFormed(db) && (forall q :: q in ps ==> Accepts(db, q)) && p.ieee.Some? && p.name.Some?
    requires forall q :: q in ps && q != p ==> q.name != p.name
    requires forall d :: d in db.devices && !Listed(ps, d.ieee) ==> d.name != p.name.value
    requires j < |Sync(db, ps).devices| && Sync(db, ps).devices[j].ieee != p.ieee.value
    ensures Sync(db, ps).devices[j].name != p.name.value
  {
    NameAfterSync(db, ps, j);
    if Listed(ps, Sync(db, ps).devices[j].ieee) {
      assert Latest(ps, Sync(db, ps).devices[j].ieee).value in ps;
    } else {
      assert db.devices[j] in db.devices;
    }
  }

  /** The name a row carries after a sync. */
  lemma NameAfterSync(db: Db, ps: seq<Payload>, j: nat)
    requires WellFormed(db) && (forall q :: q in ps ==> Accepts(db, q)) && j < |Sync(db, ps).devices|
    ensures var d := Sync(db, ps).devices[j];
      if Listed(ps, d.ieee) then Some(d.name) == Latest(ps, d.ieee).value.name
      else j < |db.devices| && db.devices[j].ieee == d.ieee && db.devices[j].name == d.name
  {
    SyncMeetsSpec(db, ps);
    var d := Sync(db, ps).devices[j];
    if j < |db.devices| {
      assert d == RowAfter(db.devices[j], ps);
    } else {
      assert NewRow(db, ps, j, d);
    }
  }

  // ----- The first device to take a free name -----

  /** Nobody carries the name or has claimed it. */
  predicate Free(db: Db, n: string) {
    OwnerOf(db, n).None? && FindByName(db, n).None?
  }

  /** The first entry of a list that carries the name. */
  function FirstNamed(ps: seq<Payload>, n: string): Option<Payload> {
    if ps == [] then None
    else if FirstNamed(ps[..|ps| - 1], n).Some? then FirstNamed(ps[..|ps| - 1], n)
    else if ps[|ps| - 1].name == Some(n) then Some(ps[|ps| - 1])
    else None
  }

  /** The device an action names `n`, the first one if it names several. */
  function Namer(db: Db, action: Action, n: string): Option<string> {
    match action
    case SyncList(ps) =>
      if (forall p :: p in ps ==> Accepts(db, p)) && FirstNamed(ps, n).Some? then FirstNamed(ps, n).value.ieee else None
    case Update(id, n', _) =>
      var i := IndexOfId(db.devices, id);
      if i < |db.devices| && |n'| <= 255 && n' == n then Some(db.devices[i].ieee) else None
    case _ => None
  }

  lemma {:induction false} FirstNamedIs(ps: seq<Payload>, n: string)
    ensures FirstNamed(ps, n).None? ==> forall p :: p in ps ==> p.name != Some(n)
    ensures FirstNamed(ps, n).Some? ==> FirstNamed(ps, n).value in ps && FirstNamed(ps, n).value.name == Some(n)
  {
    if ps != [] {
      FirstNamedIs(ps[..|ps| - 1], n);
      assert ps == ps[..|ps| - 1] + [ps[|ps| - 1]];
    }
  }

  /** On a free name the first claim of a list is by the first entry that carries it. */
  lemma {:induction false} FirstClaimOnFree(db: Db, ps: seq<Payload>, n: string)
    requires Free(db, n) && !IsBlank(n)
    requires FirstNamed(ps, n).Some? ==> FirstNamed(ps, n).value.ieee.Some? && FirstNamed(ps, n).value.ieee.value != ""
    ensures FirstClaim(db, ps, n) == if FirstNamed(ps, n).Some? then FirstNamed(ps, n).value.ieee else None
  {
    if ps != [] {
      var before, p := ps[..|ps| - 1], ps[|ps| - 1];
      FirstClaimOnFree(db, before, n);
      FirstNamedIs(before, n);
      if FirstNamed(before, n).None? && p.ieee.Some? {
        assert PreviousName(db, before, p.ieee.value) != Some(n);
      }
    }
  }

  /** A free name stays free until some device is named so, and that device then owns it. */
  lemma FreeNameStep(db: Db, action: Action, n: string)
    requires WellFormed(db) && Free(db, n) && !IsBlank(n)
    ensures Namer(db, action, n).None? ==> Free(Act(db, action), n)
    ensures Namer(db, action, n).Some? && Namer(db, action, n).value != "" ==>
              OwnerOf(Act(db, action), n) == Namer(db, action, n)
  {
    match action {
      case SyncList(ps) => FreeNameSync(db, ps, n);
      case Update(id, n', kind) => FreeNameUpdate(db, id, n', kind, n);
      case Delete(id) => FreeNameDelete(db, id, n);
      case Availability(_, _) => FlagEffect(db, action);
      case ReportState(_, _) => FlagEffect(db, action);
    }
  }

  lemma FreeNameUpdate(db: Db, id: nat, n': string, kind: Option<DeviceType>, n: string)
    requires Free(db, n) && !IsBlank(n)
    ensures var w := Namer(db, Update(id, n', kind), n);
      (w.None? ==> Free(UpdateDevice(db, id, n', kind), n))
      && (w.Some? && w.value != "" ==> OwnerOf(UpdateDevice(db, id, n', kind), n) == w)
  {
    UpdateOwner(db, id, n', kind, n);
    UpdateNames(db, id, n', kind);
  }

  lemma FreeNameDelete(db: Db, id: nat, n: string)
    requires WellFormed(db) && Free(db, n)
    ensures Free(DeleteDevice(db, id), n)
  {
    if IndexOfId(db.devices, id) < |db.devices| {
      DeleteOwners(db, id, n);
      var i, ds := IndexOfId(db.devices, id), DeleteDevice(db, id).devices;
      forall j | 0 <= j < |ds| ensures ds[j].name != n { DroppedRow(db.devices, i, j); }
    }
  }

  lemma UpdateNames(db: Db, id: nat, n: string, kind: Option<DeviceType>)
    ensures var db' := UpdateDevice(db, id, n, kind);
      |db'.devices| == |db.devices|
      && forall j :: 0 <= j < |db.devices| ==>
           db'.devices[j].name == if j == IndexOfId(db.devices, id) && |n| <= 255 then n else db.devices[j].name
  {
    var i := IndexOfId(db.devices, id);
    if i < |db.devices| && |n| <= 255 {
      var d := db.devices[i];
      var updated := db.(devices := db.devices[i := d.(name := n, kind := if kind.Some? then kind.value else d.kind)]);
      RememberNameRows(updated, d.ieee, d.name);
      RememberNameRows(RememberName(updated, d.ieee, d.name), d.ieee, n);
    }
  }

  lemma RememberNameRows(db: Db, a: string, n: string)
    ensures RememberName(db, a, n).devices == db.devices
  {
  }

  lemma FreeNameSync(db: Db, ps: seq<Payload>, n: string)
    requires WellFormed(db) && Free(db, n) && !IsBlank(n)
    ensures var w := Namer(db, SyncList(ps), n);
      (w.None? ==> Free(Sync(db, ps), n))
      && (w.Some? && w.value != "" ==> OwnerOf(Sync(db, ps), n) == w)
  {
    FirstNamedIs(ps, n);
    if exists p :: p in ps && !Accepts(db, p) {
      SyncMeetsSpec(db, ps);
    } else {
      if FirstNamed(ps, n).None? || FirstNamed(ps, n).value.ieee != Some("") { FreeNameClaimed(db, ps, n); }
      if FirstNamed(ps, n).None? { UnlistedNameUnused(db, ps, n); }
    }
  }

  lemma FreeNameClaimed(db: Db, ps: seq<Payload>, n: string)
    requires WellFormed(db) && Free(db, n) && !IsBlank(n) && forall p :: p in ps ==> Accepts(db, p)
    requires FirstNamed(ps, n).Some? ==> FirstNamed(ps, n).value.ieee != Some("")
    ensures OwnerOf(Sync(db, ps), n) == if FirstNamed(ps, n).Some? then FirstNamed(ps, n).value.ieee else None
  {
    SyncMeetsSpec(db, ps);
    FirstNamedIs(ps, n);
    FirstClaimOnFree(db, ps, n);
  }

  lemma UnlistedNameUnused(db: Db, ps: seq<Payload>, n: string)
    requires WellFormed(db) && FindByName(db, n).None? && forall p :: p in ps ==> Accepts(db, p) && p.name != Some(n)
    ensures FindByName(Sync(db, ps), n).None?
  {
    var ds := Sync(db, ps).devices;
    forall j | 0 <= j < |ds| ensures ds[j].name != n { NameAfterSync(db, ps, j); }
  }

  /** The first device to be named `n` in a run, with the number of actions until it is. */
  function FirstNamer(db: Db, actions: seq<Action>, n: string): Option<(nat, string)>
    decreases |actions|
  {
    if actions == [] then None
    else if Namer(db, actions[0], n).Some? then Some((1, Namer(db, actions[0], n).value))
    else
      match FirstNamer(Act(db, actions[0]), actions[1..], n)
      case None => None
      case Some(r) => Some((r.0 + 1, r.1))
  }

  lemma FirstNamerStep(db: Db, actions: seq<Action>, n: string, k: nat, a: string)
    requires WellFormed(db) && Free(db, n) && !IsBlank(n)
    requires FirstNamer(db, actions, n) == Some((k, a)) && a != ""
    ensures actions != [] && WellFormed(Act(db, actions[0]))
    ensures k == 1 ==> OwnerOf(Act(db, actions[0]), n) == Some(a)
    ensures k != 1 ==>
              k > 1 && Free(Act(db, actions[0]), n)
              && FirstNamer(Act(db, actions[0]), actions[1..], n) == Some((k - 1, a))
  {
    FirstNamerUnfolds(db, actions, n, k, a);
    ActKeepsWellFormed(db, actions[0]);
    FreeNameStep(db, actions[0], n);
  }

  lemma FirstNamerUnfolds(db: Db, actions: seq<Action>, n: string, k: nat, a: string)
    requires FirstNamer(db, actions, n) == Some((k, a))
    ensures actions != []
    ensures if k == 1 then Namer(db, actions[0], n) == Some(a)
            else k > 1 && Namer(db, actions[0], n).None?
                 && FirstNamer(Act(db, actions[0]), actions[1..], n) == Some((k - 1, a))
  {
    if Namer(db, actions[0], n).None? { FirstNamerCount(Act(db, actions[0]), actions[1..], n); }
  }

  lemma FirstNamerCount(db: Db, actions: seq<Action>, n: string)
    ensures FirstNamer(db, actions, n).Some? ==> FirstNamer(db, actions, n).value.0 >= 1
  {
  }

  /** The first device named `n` after a time when nobody carried or had claimed `n` owns it for as
      long as it is registered. */
  lemma {:induction false} FirstNamerOwns(db: Db, actions: seq<Action>, n: string, k: nat, a: string)
    requires WellFormed(db) && Free(db, n) && !IsBlank(n)
    requires FirstNamer(db, actions, n) == Some((k, a)) && a != ""
    ensures 1 <= k <= |actions|
    ensures WellFormed(Run(db, actions[..k])) && OwnerOf(Run(db, actions[..k]), n) == Some(a)
    decreases |actions|
  {
    FirstNamerStep(db, actions, n, k, a);
    if k > 1 { FirstNamerOwns(Act(db, actions[0]), actions[1..], n, k - 1, a); }
    RunTake(db, actions, k);
  }

  lemma RunTake(db: Db, actions: seq<Action>, k: nat)
    requires 0 < k <= |actions|
    ensures Run(db, actions[..k]) == Run(Act(db, actions[0]), actions[1..][..k - 1])
  {
    assert actions[..k][0] == actions[0] && actions[..k][1..] == actions[1..][..k - 1];
  }

  lemma {:induction false} RunSplits(db: Db, first: seq<Action>, second: seq<Action>)
    ensures Run(db, first + second) == Run(Run(db, first), second)
    decreases |first|
  {
    if first == [] {
      assert first + second == second;
    } else {
      assert (first + second)[1..] == first[1..] + second;
      RunSplits(Act(db, first[0]), first[1..], second);
    }
  }

  lemma ClaimedBefore(db: Db, actions: seq<Action>, k: nat, n: string, a: string)
    requires k <= |actions| && WellFormed(Run(db, actions[..k])) && OwnerOf(Run(db, actions[..k]), n) == Some(a)
    requires Spares(Run(db, actions[..k]), actions[k..], a)
    ensures WellFormed(Run(db, actions)) && OwnerOf(Run(db, actions), n) == Some(a)
  {
    RunContinues(db, actions, k);
    RunKeepsWellFormed(Run(db, actions[..k]), actions[k..]);
    ClaimPersists(Run(db, actions[..k]), actions[k..], n, a);
  }

  lemma RunContinues(db: Db, actions: seq<Action>, k: nat)
    requires k <= |actions|
    ensures Run(db, actions) == Run(Run(db, actions[..k]), actions[k..])
  {
    RunSplits(db, actions[..k], actions[k..]);
    assert actions[..k] + actions[k..] == actions;
  }

  /** Late registration: if nobody carried or had claimed `n`, the first device named `n` after that
      owns it at the end of every run that does not delete the device in between. */
  lemma FirstNamerKeeps(db: Db, actions: seq<Action>, n: string, k: nat, a: string)
    requires WellFormed(db) && Free(db, n) && !IsBlank(n)
    requires FirstNamer(db, actions, n) == Some((k, a)) && a != ""
    requires k <= |actions| && Spares(Run(db, actions[..k]), actions[k..], a)
    ensures WellFormed(Run(db, actions)) && OwnerOf(Run(db, actions), n) == Some(a)
  {
    FirstNamerOwns(db, actions, n, k, a);
    ClaimedBefore(db, actions, k, n, a);
  }
}

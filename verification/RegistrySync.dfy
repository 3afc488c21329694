/** What a device list does to the registry, stated without the loop: per device by the last entry
    for its address, per name by the first claim. */
module RegistrySync {
  import opened Prelude
  import opened Registry
  import opened RegistryInvariant
  import opened Sequences

  // ----- Reading a device list -----

  /** The last entry for an address. */
  function Latest(ps: seq<Payload>, a: string): (r: Option<Payload>)
    ensures r.Some? ==> r.value in ps && r.value.ieee == Some(a)
    ensures r.None? ==> forall p :: p in ps ==> p.ieee != Some(a)
  {
    if ps == [] then None
    else if ps[|ps| - 1].ieee == Some(a) then Some(ps[|ps| - 1])
    else Latest(ps[..|ps| - 1], a)
  }

  /** What a device was called just before an entry: by an earlier entry, or by its row. */
  function PreviousName(db: Db, before: seq<Payload>, a: string): Option<string> {
    if Latest(before, a).Some? then Latest(before, a).value.name
    else if FindByAddress(db, a).Some? then Some(FindByAddress(db, a).value.name)
    else None
  }

  /** The entry `p` lays claim to `n`, as the device's name or as the name it gives up. */
  predicate Claims(db: Db, before: seq<Payload>, p: Payload, n: string) {
    p.ieee.Some? && p.ieee.value != "" && !IsBlank(n)
    && (p.name == Some(n) || PreviousName(db, before, p.ieee.value) == Some(n))
  }

  /** The first address in the list that lays claim to `n`. */
  function FirstClaim(db: Db, ps: seq<Payload>, n: string): Option<string> {
    if ps == [] then None
    else
      var before, p := ps[..|ps| - 1], ps[|ps| - 1];
      if FirstClaim(db, before, n).Some? then FirstClaim(db, before, n)
      else if Claims(db, before, p, n) then p.ieee
      else None
  }

  /** The database takes the entry: it has an address and a name, and they fit their columns. */
  predicate Accepts(db: Db, p: Payload) {
    p.ieee.Some? && FitsColumns(p) && (|p.ieee.value| <= 24 || FindByAddress(db, p.ieee.value).Some?)
  }

  // ----- The loop -----

  /** `d` has the rows of `db`, in place, refreshed by the list, then the new rows. */
  ghost predicate RowsFollow(db: Db, ps: seq<Payload>, d: Db) {
    |db.devices| <= |d.devices|
    && d.nextDevice - |d.devices| == db.nextDevice - |db.devices|
    && (forall i :: 0 <= i < |db.devices| ==> d.devices[i] == Refreshed(db.devices[i], ps))
    && (forall i :: |db.devices| <= i < |d.devices| ==> NewRow(db, ps, i, d.devices[i]))
    && (forall p :: p in ps && p.ieee.Some? ==> FindByAddress(d, p.ieee.value).Some?)
  }

  function Refreshed(row: Device, ps: seq<Payload>): Device {
    var p := Latest(ps, row.ieee);
    if p.Some? && p.value.name.Some? then Refresh(row, p.value) else row
  }

  ghost predicate NewRow(db: Db, ps: seq<Payload>, i: nat, d: Device) {
    var p := Latest(ps, d.ieee);
    i >= |db.devices| && FindByAddress(db, d.ieee).None? && p.Some? && p.value.name.Some?
    && d == ToEntity(db.nextDevice + i - |db.devices|, p.value)
  }

  ghost predicate AliasesGrow(db: Db, d: Db) {
    db.aliases <= d.aliases && d.nextAlias - |d.aliases| == db.nextAlias - |db.aliases|
  }

  /** One entry, seen from the rows before it. */
  lemma ApplyPayloadEffect(d: Db, p: Payload)
    requires WellFormed(d)
    ensures ApplyPayload(d, p).Some? <==> Accepts(d, p)
    ensures ApplyPayload(d, p).Some? ==>
      var d' := ApplyPayload(d, p).value;
      WellFormed(d') && AliasesGrow(d, d') && OneMore(d, p, d')
  {
    if Accepts(d, p) {
      if FindByAddress(d, p.ieee.value).None? {
        InsertEffect(d, p);
      } else {
        RefreshEffect(d, p);
      }
    }
  }

  lemma InsertedFinds(d: Db, p: Payload)
    requires WellFormed(d) && p.ieee.Some? && p.name.Some? && FindByAddress(d, p.ieee.value).None?
    ensures WellFormed(Inserted(d, p)) && FindByAddress(Inserted(d, p), p.ieee.value).Some?
  {
    AppendDeviceKeeps(d, ToEntity(d.nextDevice, p));
    AppendedIndex(d.devices, ToEntity(d.nextDevice, p), p.ieee.value);
  }

  lemma InsertEffect(d: Db, p: Payload)
    requires WellFormed(d) && Accepts(d, p) && FindByAddress(d, p.ieee.value).None?
    ensures var d' := ApplyPayload(d, p).value; WellFormed(d') && AliasesGrow(d, d') && OneMore(d, p, d')
  {
    InsertedFinds(d, p);
    RememberNameKeeps(Inserted(d, p), p.ieee.value, p.name.value);
    assert ApplyPayload(d, p) == Some(RememberName(Inserted(d, p), p.ieee.value, p.name.value));
  }

  lemma RefreshEffect(d: Db, p: Payload)
    requires WellFormed(d) && Accepts(d, p) && FindByAddress(d, p.ieee.value).Some?
    ensures var d' := ApplyPayload(d, p).value; WellFormed(d') && AliasesGrow(d, d') && OneMore(d, p, d')
  {
    var a := p.ieee.value;
    var i := IndexOfAddress(d.devices, a);
    var previous := d.devices[i].name;
    var updated := d.(devices := d.devices[i := Refresh(d.devices[i], p)]);
    RelabelKeeps(d, updated.devices);
    SameKeysSameIndex(d.devices, updated.devices, a);
    RememberNameKeeps(updated, a, previous);
    var remembered := if previous != p.name.value then RememberName(updated, a, previous) else updated;
    RememberNameKeeps(remembered, a, p.name.value);
  }

  /** One entry, seen from the owner of a name. */
  lemma ApplyPayloadOwner(d: Db, p: Payload, n: string)
    requires ApplyPayload(d, p).Some?
    ensures var a := p.ieee.value;
      OwnerOf(ApplyPayload(d, p).value, n) ==
      if OwnerOf(d, n).Some? then OwnerOf(d, n)
      else if a != "" && !IsBlank(n)
              && (p.name == Some(n) || (FindByAddress(d, a).Some? && FindByAddress(d, a).value.name == n))
      then Some(a) else None
  {
    var a := p.ieee.value;
    var i := IndexOfAddress(d.devices, a);
    if i == |d.devices| {
      RememberNameOwner(Inserted(d, p), a, p.name.value, n);
    } else {
      var updated := d.(devices := d.devices[i := Refresh(d.devices[i], p)]);
      var previous := d.devices[i].name;
      RememberNameOwner(updated, a, previous, n);
      var remembered := if previous != p.name.value then RememberName(updated, a, previous) else updated;
      RememberNameOwner(remembered, a, p.name.value, n);
    }
  }

  /** A row of the tables after part of the list carries the name that list gave it. */
  lemma NameSoFar(db: Db, ps: seq<Payload>, d: Db, a: string)
    requires RowsFollow(db, ps, d) && WellFormed(db) && forall p :: p in ps ==> Accepts(db, p)
    ensures FindByAddress(d, a).Some? <==> PreviousName(db, ps, a).Some?
    ensures FindByAddress(d, a).Some? ==> PreviousName(db, ps, a) == Some(FindByAddress(d, a).value.name)
    ensures FindByAddress(d, a).Some? <==> FindByAddress(db, a).Some? || Latest(ps, a).Some?
  {
    var i, j := IndexOfAddress(d.devices, a), IndexOfAddress(db.devices, a);
    forall m | 0 <= m < |db.devices| ensures d.devices[m].ieee == db.devices[m].ieee {
      assert d.devices[m] == Refreshed(db.devices[m], ps);
    }
    if j < |db.devices| {
      assert d.devices[j].ieee == a;
      assert d.devices[i] == Refreshed(db.devices[i], ps);
    }
  }

  lemma {:induction false} ApplyAllSpec(db: Db, ps: seq<Payload>)
    requires WellFormed(db)
    ensures ApplyAll(db, ps).Some? <==> forall p :: p in ps ==> Accepts(db, p)
    ensures ApplyAll(db, ps).Some? ==>
      var d := ApplyAll(db, ps).value;
      WellFormed(d) && RowsFollow(db, ps, d) && AliasesGrow(db, d)
      && forall n :: OwnerOf(d, n) == if OwnerOf(db, n).Some? then OwnerOf(db, n) else FirstClaim(db, ps, n)
  {
    if ps == [] {
    } else {
      var before, p := ps[..|ps| - 1], ps[|ps| - 1];
      assert ps == before + [p];
      ApplyAllSpec(db, before);
      if ApplyAll(db, before).Some? {
        var d := ApplyAll(db, before).value;
        ApplyPayloadEffect(d, p);
        if p.ieee.Some? { NameSoFar(db, before, d, p.ieee.value); }
        assert Accepts(d, p) <==> Accepts(db, p);
        if Accepts(d, p) {
          var d' := ApplyPayload(d, p).value;
          RowsStep(db, before, p, d, d');
          forall n ensures OwnerOf(d', n) == if OwnerOf(db, n).Some? then OwnerOf(db, n) else FirstClaim(db, ps, n) {
            ApplyPayloadOwner(d, p, n);
          }
        }
      }
    }
  }

  lemma LatestSnoc(before: seq<Payload>, p: Payload, x: string)
    ensures Latest(before + [p], x) == if p.ieee == Some(x) then Some(p) else Latest(before, x)
  {
    assert (before + [p])[..|before|] == before;
  }

  ghost predicate OneMore(d: Db, p: Payload, d': Db)
    requires p.ieee.Some? && p.name.Some?
  {
    var i := IndexOfAddress(d.devices, p.ieee.value);
    if i == |d.devices|
    then d'.devices == d.devices + [ToEntity(d.nextDevice, p)] && d'.nextDevice == d.nextDevice + 1
    else d'.devices == d.devices[i := Refresh(d.devices[i], p)] && d'.nextDevice == d.nextDevice
  }

  lemma OneMoreFinds(d: Db, p: Payload, d': Db, x: string)
    requires p.ieee.Some? && p.name.Some? && OneMore(d, p, d')
    ensures FindByAddress(d, x).Some? || p.ieee == Some(x) ==> FindByAddress(d', x).Some?
  {
    if IndexOfAddress(d.devices, p.ieee.value) == |d.devices| {
      AppendedIndex(d.devices, ToEntity(d.nextDevice, p), x);
    } else {
      SameKeysSameIndex(d.devices, d'.devices, x);
    }
  }

  lemma OldRowStep(db: Db, before: seq<Payload>, p: Payload, d: Db, d': Db, j: nat)
    requires WellFormed(d) && RowsFollow(db, before, d) && j < |db.devices|
    requires p.ieee.Some? && p.name.Some? && OneMore(d, p, d')
    ensures j < |d'.devices| && d'.devices[j] == Refreshed(db.devices[j], before + [p])
  {
    assert d.devices[j] == Refreshed(db.devices[j], before);
    LatestSnoc(before, p, db.devices[j].ieee);
    var i := IndexOfAddress(d.devices, p.ieee.value);
    assert i != j ==> d.devices[j].ieee != p.ieee.value;
  }

  lemma NewRowStep(db: Db, before: seq<Payload>, p: Payload, d: Db, d': Db, j: nat)
    requires WellFormed(d) && RowsFollow(db, before, d) && |db.devices| <= j < |d'.devices|
    requires p.ieee.Some? && p.name.Some? && OneMore(d, p, d')
    requires FindByAddress(db, p.ieee.value).Some? ==> FindByAddress(d, p.ieee.value).Some?
    ensures NewRow(db, before + [p], j, d'.devices[j])
  {
    var i := IndexOfAddress(d.devices, p.ieee.value);
    LatestSnoc(before, p, d'.devices[j].ieee);
    if j < |d.devices| {
      assert NewRow(db, before, j, d.devices[j]);
      assert i != j ==> d.devices[j].ieee != p.ieee.value;
    }
  }

  lemma RowsStep(db: Db, before: seq<Payload>, p: Payload, d: Db, d': Db)
    requires WellFormed(db) && WellFormed(d) && RowsFollow(db, before, d) && Accepts(d, p)
    requires forall q :: q in before ==> Accepts(db, q)
    requires OneMore(d, p, d')
    ensures RowsFollow(db, before + [p], d')
  {
    NameSoFar(db, before, d, p.ieee.value);
    forall q | q in before + [p] && q.ieee.Some? ensures FindByAddress(d', q.ieee.value).Some? {
      OneMoreFinds(d, p, d', q.ieee.value);
    }
    forall j | 0 <= j < |db.devices| ensures d'.devices[j] == Refreshed(db.devices[j], before + [p]) {
      OldRowStep(db, before, p, d, d', j);
    }
    forall j | |db.devices| <= j < |d'.devices| ensures NewRow(db, before + [p], j, d'.devices[j]) {
      NewRowStep(db, before, p, d, d', j);
    }
  }

  // ----- The whole sync -----

  predicate Listed(ps: seq<Payload>, a: string) { Latest(ps, a).Some? }

  lemma ActiveIsListed(ps: seq<Payload>, a: string)
    ensures Some(a) in Addresses(ps) <==> Listed(ps, a)
  {
    if Some(a) in Addresses(ps) {
      var i :| 0 <= i < |ps| && Addresses(ps)[i] == Some(a);
      assert ps[i] in ps;
    }
    if Listed(ps, a) {
      var i :| 0 <= i < |ps| && ps[i] == Latest(ps, a).value;
      assert Addresses(ps)[i] == Some(a);
    }
  }

  /** A device row after the sync, from the row before. */
  function RowAfter(row: Device, ps: seq<Payload>): Device {
    if Listed(ps, row.ieee) then Refreshed(row, ps) else row.(available := false)
  }

  /** The sync either takes every entry or changes nothing. When it takes them: existing rows stay
      in place, refreshed by the last entry for their address, available as before if listed and
      unavailable if not; each new address gets one new row from its last entry, available; alias
      rows are only added, each name going to the first that claims it. */
  lemma SyncMeetsSpec(db: Db, ps: seq<Payload>)
    requires WellFormed(db)
    ensures WellFormed(Sync(db, ps))
    ensures (exists p :: p in ps && !Accepts(db, p)) ==> Sync(db, ps) == db
    ensures (forall p :: p in ps ==> Accepts(db, p)) ==>
      var d := Sync(db, ps);
      |db.devices| <= |d.devices|
      && d.nextDevice - |d.devices| == db.nextDevice - |db.devices|
      && (forall i :: 0 <= i < |db.devices| ==> d.devices[i] == RowAfter(db.devices[i], ps))
      && (forall i :: |db.devices| <= i < |d.devices| ==> NewRow(db, ps, i, d.devices[i]))
      && (forall p :: p in ps ==> FindByAddress(d, p.ieee.value).Some?)
      && AliasesGrow(db, d)
      && (forall n :: OwnerOf(d, n) == if OwnerOf(db, n).Some? then OwnerOf(db, n) else FirstClaim(db, ps, n))
  {
    ApplyAllSpec(db, ps);
    if ApplyAll(db, ps).Some? {
      var d := ApplyAll(db, ps).value;
      MarkedRows(db, ps, d);
      RelabelKeeps(d, Sync(db, ps).devices);
    }
  }

  lemma MarkedRows(db: Db, ps: seq<Payload>, d: Db)
    requires RowsFollow(db, ps, d)
    ensures var ds := MarkUnavailableNotIn(d, Addresses(ps)).devices;
      (forall i :: 0 <= i < |db.devices| ==> ds[i] == RowAfter(db.devices[i], ps))
      && (forall i :: |db.devices| <= i < |ds| ==> NewRow(db, ps, i, ds[i]))
      && (forall p :: p in ps && p.ieee.Some? ==> First(ds, HasAddress(p.ieee.value)).Some?)
  {
    var ds := MarkUnavailableNotIn(d, Addresses(ps)).devices;
    forall i | 0 <= i < |db.devices| ensures ds[i] == RowAfter(db.devices[i], ps) { OldRowMarked(db, ps, d, i); }
    forall i | |db.devices| <= i < |ds| ensures NewRow(db, ps, i, ds[i]) { NewRowMarked(db, ps, d, i); }
    forall p | p in ps && p.ieee.Some? ensures First(ds, HasAddress(p.ieee.value)).Some? {
      SameKeysSameIndex(d.devices, ds, p.ieee.value);
    }
  }

  lemma OldRowMarked(db: Db, ps: seq<Payload>, d: Db, i: nat)
    requires RowsFollow(db, ps, d) && i < |db.devices|
    ensures MarkUnavailableNotIn(d, Addresses(ps)).devices[i] == RowAfter(db.devices[i], ps)
  {
    ActiveIsListed(ps, db.devices[i].ieee);
    assert d.devices[i] == Refreshed(db.devices[i], ps);
  }

  lemma NewRowMarked(db: Db, ps: seq<Payload>, d: Db, i: nat)
    requires RowsFollow(db, ps, d) && |db.devices| <= i < |d.devices|
    ensures NewRow(db, ps, i, MarkUnavailableNotIn(d, Addresses(ps)).devices[i])
  {
    assert NewRow(db, ps, i, d.devices[i]);
    ActiveIsListed(ps, d.devices[i].ieee);
  }

  /** After a sync every nonblank name in the list, and every nonblank name a listed device gave
      up, is claimed by some device. */
  lemma SyncClaimsNames(db: Db, ps: seq<Payload>, k: nat, n: string)
    requires WellFormed(db) && (forall p :: p in ps ==> Accepts(db, p)) && k < |ps|
    requires Claims(db, ps[..k], ps[k], n)
    ensures OwnerOf(Sync(db, ps), n).Some?
  {
    SyncMeetsSpec(db, ps);
    FirstClaimFinds(db, ps, k, n);
  }

  lemma {:induction false} FirstClaimFinds(db: Db, ps: seq<Payload>, k: nat, n: string)
    requires k < |ps| && Claims(db, ps[..k], ps[k], n)
    ensures FirstClaim(db, ps, n).Some?
  {
    if k < |ps| - 1 {
      assert ps[..|ps| - 1][..k] == ps[..k];
      FirstClaimFinds(db, ps[..|ps| - 1], k, n);
    }
  }

  lemma {:induction false} FirstClaimIs(db: Db, ps: seq<Payload>, n: string)
    requires FirstClaim(db, ps, n).Some?
    ensures exists k :: 0 <= k < |ps| && Claims(db, ps[..k], ps[k], n) && ps[k].ieee == FirstClaim(db, ps, n)
  {
    var before := ps[..|ps| - 1];
    if FirstClaim(db, before, n).Some? {
      FirstClaimIs(db, before, n);
      var k :| 0 <= k < |before| && Claims(db, before[..k], before[k], n)
               && before[k].ieee == FirstClaim(db, before, n);
      assert before[..k] == ps[..k];
    }
  }

  // ----- Idempotence -----

  /** Applying the same list again changes nothing, even when it repeats an address under
      different names. */
  lemma SyncIdempotent(db: Db, ps: seq<Payload>)
    requires WellFormed(db)
    ensures Sync(Sync(db, ps), ps) == Sync(db, ps)
  {
    SyncMeetsSpec(db, ps);
    if forall p :: p in ps ==> Accepts(db, p) {
      var d := Sync(db, ps);
      SyncMeetsSpec(d, ps);
      assert forall p :: p in ps ==> Accepts(d, p);
      var e := Sync(d, ps);
      RowsSettle(db, ps, d, e);
      forall n ensures OwnerOf(e, n) == OwnerOf(d, n) {
        if OwnerOf(d, n).None? && FirstClaim(d, ps, n).Some? {
          NothingLeftToClaim(db, ps, n);
        }
      }
      NoNewAliases(d, e);
    }
  }

  /** When every listed address already has a row, none is added. */
  lemma NoRowIsNew(d: Db, ps: seq<Payload>, e: Db)
    requires forall p :: p in ps && p.ieee.Some? ==> FindByAddress(d, p.ieee.value).Some?
    requires forall i :: |d.devices| <= i < |e.devices| ==> NewRow(d, ps, i, e.devices[i])
    ensures |e.devices| <= |d.devices|
  {
    assert |e.devices| <= |d.devices| || NewRow(d, ps, |d.devices|, e.devices[|d.devices|]);
    assert forall i, row :: !NewRow(d, ps, i, row);
  }

  lemma RowsSettle(db: Db, ps: seq<Payload>, d: Db, e: Db)
    requires WellFormed(db) && (forall p :: p in ps ==> Accepts(db, p)) && d == Sync(db, ps) && e == Sync(d, ps)
    ensures e.devices == d.devices && e.nextDevice == d.nextDevice
  {
    SyncMeetsSpec(db, ps);
    assert forall p :: p in ps ==> Accepts(d, p);
    SyncMeetsSpec(d, ps);
    NoRowIsNew(d, ps, e);
    forall i | 0 <= i < |d.devices| ensures e.devices[i] == d.devices[i] {
      assert e.devices[i] == RowAfter(d.devices[i], ps);
      if i < |db.devices| {
        RowAfterTwice(db.devices[i], ps);
      } else {
        NewRowSettles(db, ps, i, d.devices[i]);
      }
    }
  }

  lemma RowAfterTwice(row: Device, ps: seq<Payload>)
    ensures RowAfter(RowAfter(row, ps), ps) == RowAfter(row, ps)
  {
  }

  lemma NewRowSettles(db: Db, ps: seq<Payload>, i: nat, d: Device)
    requires NewRow(db, ps, i, d)
    ensures RowAfter(d, ps) == d
  {
  }

  /** After a sync the list claims no name that is still free. */
  lemma NothingLeftToClaim(db: Db, ps: seq<Payload>, n: string)
    requires WellFormed(db) && forall p :: p in ps ==> Accepts(db, p)
    requires OwnerOf(Sync(db, ps), n).None?
    ensures FirstClaim(Sync(db, ps), ps, n).None?
  {
    var d := Sync(db, ps);
    SyncMeetsSpec(db, ps);
    if FirstClaim(d, ps, n).Some? {
      FirstClaimIs(d, ps, n);
      var k :| 0 <= k < |ps| && Claims(d, ps[..k], ps[k], n);
      var a := ps[k].ieee.value;
      var j := CurrentNameEntry(db, ps, k, n);
      assert Claims(db, ps[..j], ps[j], n);
      SyncClaimsNames(db, ps, j, n);
      assert false;
    }
  }

  /** A name claimed by an entry of the second pass was some entry's name in the first. */
  lemma CurrentNameEntry(db: Db, ps: seq<Payload>, k: nat, n: string) returns (j: nat)
    requires WellFormed(db) && forall p :: p in ps ==> Accepts(db, p)
    requires k < |ps| && Claims(Sync(db, ps), ps[..k], ps[k], n)
    ensures j < |ps| && ps[j].ieee == ps[k].ieee && ps[j].name == Some(n)
  {
    var d := Sync(db, ps);
    SyncMeetsSpec(db, ps);
    var a := ps[k].ieee.value;
    if ps[k].name == Some(n) {
      j := k;
    } else if Latest(ps[..k], a).Some? {
      var p := Latest(ps[..k], a).value;
      j :| 0 <= j < |ps[..k]| && ps[..k][j] == p;
    } else {
      assert ps[k] in ps;
      ListedName(db, ps, a);
      var p := Latest(ps, a).value;
      j :| 0 <= j < |ps| && ps[j] == p;
    }
  }

  /** After a sync a listed device is called what its last entry says. */
  lemma ListedName(db: Db, ps: seq<Payload>, a: string)
    requires WellFormed(db) && (forall p :: p in ps ==> Accepts(db, p)) && Listed(ps, a)
    ensures FindByAddress(Sync(db, ps), a).Some?
    ensures Latest(ps, a).value.name == Some(FindByAddress(Sync(db, ps), a).value.name)
  {
    SyncMeetsSpec(db, ps);
    var ds := Sync(db, ps).devices;
    var i := IndexOfAddress(ds, a);
    if i < |db.devices| { assert ds[i] == RowAfter(db.devices[i], ps); } else { assert NewRow(db, ps, i, ds[i]); }
  }

  lemma AliasesDistinctPrefix(d: Db, e: Db)
    requires WellFormed(e) && d.aliases <= e.aliases && |d.aliases| < |e.aliases|
    ensures OwnerOf(d, e.aliases[|d.aliases|].name).None?
  {
    assert forall i :: 0 <= i < |d.aliases| ==> d.aliases[i] == e.aliases[i];
  }

  lemma NoNewAliases(d: Db, e: Db)
    requires WellFormed(e) && AliasesGrow(d, e) && forall n :: OwnerOf(e, n) == OwnerOf(d, n)
    ensures e.aliases == d.aliases && e.nextAlias == d.nextAlias
  {
    if |d.aliases| < |e.aliases| {
      var r := e.aliases[|d.aliases|];
      assert OwnerOf(e, r.name).Some?;
      AliasesDistinctPrefix(d, e);
    }
  }
}

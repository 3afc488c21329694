/** What every change of the registry keeps. */
module RegistryInvariant {
  import opened Prelude
  import opened Registry
  import opened Sequences

  ghost predicate DevicesOk(db: Db) {
    (forall i, j :: 0 <= i < j < |db.devices| ==>
       db.devices[i].id < db.devices[j].id && db.devices[i].ieee != db.devices[j].ieee)
    && forall i :: 0 <= i < |db.devices| ==> db.devices[i].id < db.nextDevice
  }

  ghost predicate AliasesOk(db: Db) {
    (forall i, j :: 0 <= i < j < |db.aliases| ==>
       db.aliases[i].id < db.aliases[j].id && db.aliases[i].name != db.aliases[j].name)
    && forall i :: 0 <= i < |db.aliases| ==>
         db.aliases[i].id < db.nextAlias && db.aliases[i].owner != "" && !IsBlank(db.aliases[i].name)
  }

  ghost predicate OwnersExist(db: Db) {
    forall i :: 0 <= i < |db.aliases| ==> FindByAddress(db, db.aliases[i].owner).Some?
  }

  /** Rows are in id order, addresses and claimed names are unique, claimed names are not blank,
      and every claimed name belongs to a registered device. */
  ghost predicate WellFormed(db: Db) {
    DevicesOk(db) && AliasesOk(db) && OwnersExist(db)
  }

  /** Same devices in the same places; only labels, kind, availability and state may differ. */
  ghost predicate SameKeys(ds: seq<Device>, ds': seq<Device>) {
    |ds| == |ds'| && forall i :: 0 <= i < |ds| ==> ds[i].id == ds'[i].id && ds[i].ieee == ds'[i].ieee
  }

  lemma SameKeysSameIndex(ds: seq<Device>, ds': seq<Device>, a: string)
    requires SameKeys(ds, ds')
    ensures IndexOfAddress(ds, a) == IndexOfAddress(ds', a)
  {
    IndexSame(ds, ds', HasAddress(a));
  }

  /** Changing non-key columns keeps the invariant. */
  lemma RelabelKeeps(db: Db, ds': seq<Device>)
    requires WellFormed(db) && SameKeys(db.devices, ds')
    ensures WellFormed(db.(devices := ds'))
  {
    forall a ensures IndexOfAddress(ds', a) == IndexOfAddress(db.devices, a) {
      SameKeysSameIndex(db.devices, ds', a);
    }
  }

  /** A new row is found last; the others are found where they were. */
  lemma AppendedIndex(ds: seq<Device>, d: Device, a: string)
    ensures IndexOfAddress(ds + [d], a) ==
      if IndexOfAddress(ds, a) < |ds| then IndexOfAddress(ds, a) else if a == d.ieee then |ds| else |ds| + 1
  {
    IndexInConcat(ds, [d], HasAddress(a));
  }

  lemma AppendDeviceKeeps(db: Db, d: Device)
    requires WellFormed(db) && d.id == db.nextDevice && FindByAddress(db, d.ieee).None?
    ensures WellFormed(db.(devices := db.devices + [d], nextDevice := db.nextDevice + 1))
  {
    forall a ensures FindByAddress(db, a).Some? ==> IndexOfAddress(db.devices + [d], a) < |db.devices| {
      AppendedIndex(db.devices, d, a);
    }
  }

  /** Who owns `m` after remembering `n` for `a`: the first claim stands. */
  function OwnerAfter(owner: Option<string>, m: string, a: string, n: string): Option<string> {
    if owner.None? && m == n && a != "" && !IsBlank(n) then Some(a) else owner
  }

  lemma RememberNameOwner(db: Db, a: string, n: string, m: string)
    ensures OwnerOf(RememberName(db, a, n), m) == OwnerAfter(OwnerOf(db, m), m, a, n)
  {
    if n != "" && a != "" && !IsBlank(n) && OwnerOf(db, n).None? {
      IndexInConcat(db.aliases, [Alias(db.nextAlias, a, n)], IsNamed(m));
    }
  }

  /** Remembering a name leaves the devices alone and at most appends one alias row. */
  lemma RememberNameKeeps(db: Db, a: string, n: string)
    ensures var db' := RememberName(db, a, n);
      db'.devices == db.devices && db'.nextDevice == db.nextDevice && db.aliases <= db'.aliases
      && db'.nextAlias - |db'.aliases| == db.nextAlias - |db.aliases|
      && (WellFormed(db) && FindByAddress(db, a).Some? ==> WellFormed(db'))
  {
    if WellFormed(db) && FindByAddress(db, a).Some? && n != "" && a != "" && !IsBlank(n) && OwnerOf(db, n).None? {
      AppendAliasKeeps(db, a, n);
    }
  }

  lemma AppendAliasKeeps(db: Db, a: string, n: string)
    requires WellFormed(db) && FindByAddress(db, a).Some? && OwnerOf(db, n).None? && a != "" && !IsBlank(n)
    ensures WellFormed(db.(aliases := db.aliases + [Alias(db.nextAlias, a, n)], nextAlias := db.nextAlias + 1))
  {
    var db' := db.(aliases := db.aliases + [Alias(db.nextAlias, a, n)], nextAlias := db.nextAlias + 1);
    forall i | 0 <= i < |db'.aliases|
      ensures db'.aliases[i].id < db'.nextAlias && db'.aliases[i].owner != "" && !IsBlank(db'.aliases[i].name)
      ensures FindByAddress(db', db'.aliases[i].owner).Some?
    {
      if i < |db.aliases| { assert db'.aliases[i] == db.aliases[i]; }
    }
    forall i, j | 0 <= i < j < |db'.aliases|
      ensures db'.aliases[i].id < db'.aliases[j].id && db'.aliases[i].name != db'.aliases[j].name
    {
      assert db'.aliases[i] == db.aliases[i];
      if j < |db.aliases| { assert db'.aliases[j] == db.aliases[j]; }
    }
  }
}

# Smart home: a verified model

The repository is a home automation system: a Python backend (devices over Zigbee2MQTT, telemetry in a
time series database, recipes, automation rules) and a React frontend. This project models the parts
whose correctness spans many calls and proves what they promise for every input and every run.

- **Device registry** (`Registry`, `RegistryInvariant`, `RegistrySync`, `RegistryRuns`,
  `RegistryColumns`, `DeviceIdentity`, `DeviceServices`). A device has an immutable address, a mutable and non-unique name, and the names it
  has claimed; the first claim stands. `Registry` holds the tables as rows in id order and each
  transaction as a function on them; the class `DeviceServices.DeviceService` performs the transactions
  step by step and is proved against these functions.
- **Telemetry** (`Telemetry`, `TelemetryConsumers`, `TelemetryRuns`, `TelemetryHistory`, `LatestTelemetry`,
  `TelemetryLatest`). Messages arrive on a topic name that may be stale; points are filed under the address when
  the name resolves and under the name itself when it does not. The time series is a map from (tag, time, field)
  to a value: a write to a taken slot overwrites it, and a query returns each selected slot once, in any order.
  What is filed is told from the run of messages and registry changes; what is shown, from the state at its end.
- **State timeline** (`Timeline`). The segments drawn from a list of points, against a step function of
  time that is stated on the unsorted list. `TelemetryHistory.TimelineOfFilings` and `TelemetryHistory.EndToEnd`
  join the three: from messages and registry changes in any order to the timeline on the screen.
- **Recipes** (`Recipes`, `RecipeStore`, `RecipeSearch`, `Pagination`). Five tables, the saving transactions,
  the search in its Python and its HQL form, and pages.
- **Client state** (`Polling`, `CookProgress`). Overlapping requests settling in any order; progress that
  survives reloads.
- **Automation** (`Automation`, `DoorRuns`). The rule engine and the door rule over event traces with failing
  commands; and over runs of messages and registry changes, whose events carry the names the registry has for the
  devices at the time.

`Prelude`, `Sequences` and `Sorting` are shared: optional values, Python's blank text, looking rows up, and a stable
sort by key with its theory. Code that changes state in the source is a class or a method here (`DeviceService`,
`TelemetryConsumer`, `RecipeService`, `Poller`, `CookProgressHook`, `RuleEngine`, `BuildStateSegments`,
`GetLatest`, `CollectTelemetryKeys`, `BuildDeviceFilter`, `NormalizeFields`); each method states its result
or its whole new state by a function, and the lemmas are about these functions.

## Where the code falls short of its promise

Each of these is a property that fails on some input; the lemma named gives the exact condition.

- A device whose current name is blank but not empty (a space, say) makes every history request for it fail,
  because the name is one of its telemetry keys and `sanitize` refuses blank text
  (`QueryFailsExactly`, with the input in `BlankNameHidesHistory`).
- A timeline segment has negative length when a point after `to` changes the state (`NonNegativeExactly`,
  `LateChangeReverses`), and neighbouring segments repeat a state when a change is undone in the same
  instant (`AlternatesExactly`, `SameInstantBlip`).
- Recipes are ordered by title only, so two recipes with equal titles on either side of a page boundary may
  be shown twice or not at all (`SearchPagesExactly`, `SeparateQueriesExactly`; two soups in `SoupsMayRepeat`).
- The recipe search passes `%`, `_` and backslash on to LIKE, so it finds the texts that contain what was typed
  exactly when it holds none of them (`TypedTextIsContained`; a percent sign in `PercentFindsAll`).
- The repository promises that the Python query gives the same result as the HQL one. A backslash escapes in
  PostgreSQL's LIKE, which the Python form uses as it is, and has no special meaning in HQL's, whose text names no
  escape character; so the two select the same recipes exactly when what was typed holds no backslash
  (`FormsAgree`, `LikesAgreeExactly`; the search a, backslash, b in `BackslashFindsMore`).
- Renaming the door sensor in the app silences the door rule, which compares the name the registry has when a
  message arrives with the configured one (`DoorOpensLights`, `RenameSilencesDoor`).
- Ingredient amounts are kept to two decimals (`AmountKeptExactly`; an eighth in `EighthIsRounded`); servings of zero or less and fractional
  steps are lost over a reload (`ReadBackExactly`, `ZeroServingsAreForgotten`).
- The latest values depend on the order in which the database returns its tables exactly when, for some field,
  two records at its greatest time disagree, or two records at all if none is dated (`OrderIrrelevantExactly`,
  with both inputs in `OrderMatters`).
- `sanitize` drops characters, and it can drop all of them. A reading whose tag is left empty is stored and never
  shown again: `ResolvedReadingKept`, `Healing`, `HistoryIsReports` and `EndToEnd` hold exactly when the tag is not
  empty. `UntaggableReadingIsLost` files one under a name in Chinese characters and then registers the device.
- Two devices can share a tag: a name does so with some other exactly when it holds a dropped character
  (`CollidesExactly`). The history of one then shows the reports of the other (`SharedTagMixes`, with two lamps in
  `SharedTagMixesHistories`); it is the device's own reports exactly when none is mixed in (`HistoryIsReports`), which
  is when no other device whose address has one of the queried tags reports in the range (`MixedExactly`).

The comment above `nonEmptyOrPlaceholder` in RecipeRepository.java argues only from an empty request. The list of
ids is also empty when no requested name exists; the placeholder is right there as well, because no link has id -1
(`PlaceholderCountsNothing`).

## Model

| member | source | states |
|---|---|---|
| `RegistryRuns.ReachableIsWellFormed` | backend-python/app/device/models.py:23-57 | Over every run of syncs, renames, deletions, availability and state reports, addresses and claimed names stay unique, rows stay in id order, no claimed name is blank and every claimed name has a registered owner. |
| `RegistryRuns.ActKeepsWellFormed` | backend-python/app/device/service.py:26-157 | Each single transaction keeps that invariant, whether it succeeds or is rolled back. |
| `RegistryRuns.ActKeepsClaim` | backend-python/app/device/repository.py:49-64 | No transaction takes a claimed name from its owner or unregisters a device, except the deletion of that device. |
| `RegistryRuns.ClaimPersists` | backend-python/app/device/repository.py:49-64 | A name claimed for an address stays claimed for it through every run that does not delete the device. |
| `RegistryRuns.ClaimedNameResolves` | backend-python/app/device/service.py:159-174 | A claimed name always resolves, and to its owner if and only if no other device has it as address and the first device carrying it as name, if any, is the owner. |
| `RegistryRuns.AliasPersistence` | backend-python/app/device/service.py:159-179 | After any run without deletion of the owner, a claimed name still resolves to the owner, and is among its telemetry keys, in every state where no other device has it as address or name. |
| `RegistryRuns.OwnedNameIsKey` | backend-python/app/device/identity.py:24-36 | Whichever identifier leads to a device, the keys queried include every name it has claimed. |
| `RegistryRuns.SharedKeys` | backend-python/app/device/identity.py:24-36 | Two devices share a telemetry key only if it is the address or the current name of one of them. |
| `RegistryRuns.CurrentNameResolves` | backend-python/app/device/repository.py:27-31 | A current name resolves to its device if and only if no other device has it as address and no device with a lower id carries it. |
| `RegistryRuns.SyncResolvesNames` | backend-python/app/device/service.py:31-51 | After a sync, an entry whose address and name no other entry has resolves by name to its own device, also when devices swap names within the list, provided no unlisted device carries the name and it is no other device's address. |
| `RegistryRuns.FirstNamerOwns` | backend-python/app/device/service.py:31-50 | Over every run, the first device named n after a time when nobody carried or had claimed n owns n from that action on. |
| `RegistryRuns.FirstNamerKeeps` | backend-python/app/device/service.py:31-50 | That device still owns n at the end of every run that does not delete it in between. |
| `RegistryRuns.FreeNameStep` | backend-python/app/device/service.py:31-50 | A name nobody carries or has claimed stays so under every transaction that names no device so, and otherwise goes to the first device named so. |
| `RegistryRuns.DeleteEffect` | backend-python/app/device/service.py:150-157 | Deletion removes exactly the device and the names it had claimed; every other address and name is found as before. |
| `RegistryRuns.RenameEffect` | backend-python/app/device/service.py:125-144 | A rename changes the label and type of the one device with that id; every other address finds the row it found. |
| `RegistryRuns.UpdateOwner` | backend-python/app/device/service.py:138-143 | After a rename the old and the new name, if unclaimed and not blank, belong to the device; every other name keeps its owner. |
| `RegistryRuns.AvailabilityEffect` | backend-python/app/device/service.py:64-76 | An availability message changes that flag of the device its possibly stale name leads to, and nothing else; an unknown name changes nothing. |
| `RegistryColumns.StateEffect` | backend-python/app/device/service.py:78-84 | A state report stores exactly the reported text in the row with that address, if it has at most ten characters, and leaves every other column, row and alias as it was. |
| `RegistryRuns.ListAliasesAre` | backend-python/app/device/repository.py:40-47 | The names listed for a device are exactly those it owns. |
| `RegistryRuns.ClaimedLastListedLast` | backend-python/app/device/repository.py:40-47 | The names of a device are listed in the order in which it claimed them. |
| `RegistryInvariant.RememberNameOwner` | backend-python/app/device/repository.py:49-64 | Remembering a name for a device claims it if it is not blank, unclaimed and the address not empty, and changes the owner of no other name. |
| `RegistryInvariant.RememberNameKeeps` | backend-python/app/device/service.py:176-179 | Remembering a name leaves the device rows alone, appends at most one alias row, uses one id per row, and keeps the invariant. |
| `RegistrySync.SyncMeetsSpec` | backend-python/app/device/service.py:26-51 | The sync takes every entry or changes nothing. When it takes them, existing rows stay in place, each new address gets one new row, and each row is that of the last entry for its address (column by column in `RegistryColumns.SyncColumns`); alias rows are only added, each name going to its first claimant. |
| `RegistrySync.ApplyAllSpec` | backend-python/app/device/service.py:31-50 | The loop succeeds if and only if every entry has an address and a name that fit their columns, and then its rows and owners are those of the last entries and first claims. |
| `RegistrySync.ApplyPayloadOwner` | backend-python/app/device/service.py:40-50 | One entry gives a still unclaimed name to its device when it is the name listed or the name given up. |
| `RegistrySync.SyncClaimsNames` | backend-python/app/device/service.py:40-50 | After a sync every nonblank listed name, and every nonblank name a listed device gave up on the way, is claimed by some device. |
| `RegistrySync.SyncIdempotent` | backend-python/app/device/service.py:31-51 | Applying the same list twice gives the same tables as once, also when it repeats an address under different names. |
| `RegistryColumns.SyncColumns` | backend-python/app/device/service.py:31-51 | After an accepted sync every row that was there keeps its place, id, address and reported state, and is available if and only if it was and its address is listed; if listed, its name is that of the last entry for its address, vendor and model are those of the definition where it gives them, else the entry's own, and the type follows the description; if not listed these are unchanged. Every added row has the next id, an address nobody had, the same columns from its last entry, is available and has no reported state. |
| `RegistryColumns.TypeFollowsWords` | backend-python/app/device/z2m_mapper.py:29-41 | In whatever case its letters are, a description with light, bulb or led makes a light; else with sensor, motion, occupancy or temperature a sensor; else with switch or button a switch; anything else, and no description, makes another device. |
| `RegistryColumns.RefusedExactly` | backend-python/schema.sql:13-24 | An entry is refused if and only if its address or name is missing, its address is new and longer than 24 characters, or its name, vendor or model is longer than 255. |
| `DeviceIdentity.TelemetryKeysSpec` | backend-python/app/device/identity.py:24-36 | The keys are the address first, then without repetition exactly the nonempty current and former names. |
| `DeviceIdentity.CollectTelemetryKeys` | backend-python/app/device/identity.py:32-36 | The loop that appends to the list computes those keys. |
| `Registry.IndexOfAddress` | backend-python/app/device/repository.py:22-25 | The row found for an address has it, and none is found only if no row has it. |
| `Registry.IndexOfName` | backend-python/app/device/repository.py:27-31 | The row found for a name is the first, hence lowest id, that carries it. |
| `DeviceServices.DeviceService.AddAlias` | backend-python/app/device/repository.py:49-64 | Inserts one row, and reports so, if and only if the name is not blank and unclaimed. |
| `DeviceServices.DeviceService.RememberName` | backend-python/app/device/service.py:176-179 | New tables of remembering a name. |
| `DeviceServices.DeviceService.ApplyPayload` | backend-python/app/device/service.py:33-50 | One round of the loop against its specification; fails exactly when the database refuses the row. |
| `DeviceServices.DeviceService.SyncDevices` | backend-python/app/device/service.py:26-57 | The loop in a transaction: the tables of `Registry.Sync`, and an announcement of the listed addresses exactly when it commits. |
| `DeviceServices.DeviceService.UpdateDevice` | backend-python/app/device/service.py:125-148 | The tables of a rename; a rename request with old and new name exactly when the label changed; unknown id and too long name reported. |
| `DeviceServices.DeviceService.DeleteDevice` | backend-python/app/device/service.py:150-157 | The tables of a deletion; reports whether the id existed. |
| `DeviceServices.DeviceService.UpdateAvailability` | backend-python/app/device/service.py:64-76 | The tables of an availability message; reports whether a device was found under the name. |
| `DeviceServices.DeviceService.UpdateState` | backend-python/app/device/service.py:78-84 | The tables of a state report; succeeds exactly when the device exists and the text fits its column. |
| `TelemetryHistory.TimelineOfFilings` | frontend/src/modules/devices/lib/contactSegments.ts:25-54 | End to end, for every field (contact and state among them) and every reading of its values as a state: over every run of messages and registry changes, the segments drawn from the history of an identifier are the canonical tiling of the range that shows at each instant the last reading filed at or before it, or the first, among those filed under any tag the identifier stands for at the end, raw and former names included. Premises: no two readings filed in the range have the same time, the range was empty under these tags before the run and is not reversed, and something was filed in it. |
| `TelemetryHistory.EndToEnd` | frontend/src/modules/devices/lib/contactSegments.ts:25-54 | For an actuator with a report in the range, into whose history no other device's report is mixed: the segments follow its reports if and only if its address leaves a tag. |
| `TelemetryHistory.HistoryIsFilings` | backend-python/app/telemetry/router.py:87-108 | For every field, over every run, the history of an identifier is exactly what was filed in the range under one of the tags it stands for at the end, in time order, whatever the device was called when it was filed and however the database orders tables and records. |
| `TelemetryHistory.HistoryShows` | backend-python/app/telemetry/router.py:98-108 | Point by point: the history has as many points as readings were filed in the range, in time order, and a point is in it if and only if one of these readings has its time and is its number, or true for one, or false for zero. |
| `TelemetryHistory.HistoryIsReports` | backend-python/app/telemetry/router.py:23-37 | For an actuator whose address leaves a tag, the history of its state is its reports in the range if and only if no other device's report is mixed in; and, when none is, if and only if the address leaves a tag or there is nothing to show. |
| `TelemetryHistory.RecordsAfterRun` | backend-python/app/mqtt/consumers.py:81-146 | After every run a record of one of the tags is in the store if and only if the run filed it, or it was there and the run filed nothing in its slot. |
| `TelemetryHistory.FilingsAre` | backend-python/app/mqtt/consumers.py:81-82 | What a run files under some tags is what its steps file, each with the registry as it was at that step. |
| `TelemetryHistory.HealedReadingIsFiling` | backend-python/app/mqtt/consumers.py:81-82 | A reading filed under an unresolved name is among those that the history of the first device later named so is made of, if and only if the name leaves a tag. |
| `TelemetryHistory.MixedExactly` | backend-python/app/telemetry/service.py:127-149 | Something of another device is mixed into the history of a state if and only if at some step in the range another device reports whose address has one of the queried tags. |
| `TelemetryHistory.StateFieldFiled` | backend-python/app/mqtt/consumers.py:119-132 | The fields of a message hold a state if and only if its device is a light, switch or plug and its text is ON or OFF, and then true for ON and false for OFF. |
| `TelemetryHistory.SharedTagMixes` | backend-python/app/telemetry/service.py:127-149 | When the addresses of two devices share a tag, a report of one is in the history of the other. |
| `TelemetryHistory.SharedTagMixesHistories` | backend-python/app/telemetry/service.py:146-149 | From the empty registry: two lamps, "0x1" and "0x:1", are listed, then the second reports; the history of the first, which reported nothing, shows it. |
| `TelemetryRuns.Healing` | backend-python/app/mqtt/consumers.py:81-82 | A reading filed under a raw name because nothing resolved it is in the history of the first device later named so, in every state from then until that device is deleted, for every identifier leading to it, if and only if the name leaves a tag; its value is the last one filed in its slot. |
| `TelemetryRuns.ResolvedReadingKept` | backend-python/app/mqtt/consumers.py:81-82 | A reading whose topic leads to a device is in the history of every identifier that leads to it, in every later state where that history can be read, if and only if the address leaves a tag. |
| `TelemetryRuns.FiledReadingShows` | backend-python/app/telemetry/service.py:127-143 | A filed reading is in a later history if and only if its tag is not empty and among those the history asks for; its value is the last one filed in its slot. |
| `TelemetryRuns.UntaggableReadingIsLost` | backend-python/app/telemetry/service.py:146-149 | A concrete run: a reading filed under a name in Chinese characters, then the device registered under that name; the reading is in the store and in no history, though the device's history can be read. |
| `TelemetryRuns.LateRegistrationShows` | backend-python/app/device/service.py:48-50 | For every name: a reading filed under it before the device is listed under it is in the history of that name afterwards if and only if the name leaves a tag. |
| `TelemetryRuns.LampReadingIsHealed` | backend-python/app/device/service.py:48-50 | The same at the name "lamp", which leaves one. |
| `TelemetryRuns.UnknownAsksForItself` | backend-python/app/telemetry/router.py:23-37 | A nonblank identifier that leads to no device asks for exactly its own tag. |
| `TelemetryRuns.UnknownHistoryKept` | backend-python/app/telemetry/router.py:23-37 | A reading filed under a name that led to no device is in the history of that name in every later state where it leads to none, with or without registrations and deletions in between, if and only if the name leaves a tag. |
| `TelemetryRuns.SlotAfterRun` | backend-python/app/telemetry/service.py:20-33 | Over every run a slot holds what the last step that fills it filed there, or what it held before. |
| `TelemetryRuns.LastFillSpec` | backend-python/app/telemetry/service.py:20-33 | That last step, told by its position and the registry as it was then. |
| `TelemetryRuns.ConsumeSlot` | backend-python/app/mqtt/consumers.py:60-150 | One message fills exactly the slots of its tag, its time and its filed fields, and nothing when the tag is blank; every other slot is unchanged. |
| `TelemetryRuns.StateFiled` | backend-python/app/mqtt/consumers.py:119-132 | After a message whose topic leads to a light, switch or plug, the state slot of the tag of its address at that time holds true if the body says ON and false if it says OFF; with any other text, type, unresolved name, tag or time a state slot holds what it held. |
| `TelemetryRuns.ReadingFiled` | backend-python/app/mqtt/consumers.py:134-146 | After a message, the slot of each of the eight other readings, named one by one, holds the boolean or number the body gives for it, under the address of the device the topic leads to, or under the topic's name if it leads to none; every other slot, and one for which the body gives neither, holds what it held. |
| `TelemetryRuns.MessageReports` | backend-python/app/mqtt/consumers.py:84-89 | A message stores its state text in the row of the device its topic leads to, if the text has at most ten characters, and changes no other row and no other column. |
| `TelemetryRuns.RegistryPart` | backend-python/app/mqtt/consumers.py:84-89 | A run of messages and changes is, for the registry, the run of its transactions, state reports included. |
| `TelemetryRuns.QueryFailsExactly` | backend-python/app/telemetry/service.py:127-149 | A request fails if and only if the device it leads to has a blank address or a blank name that is not empty, or leads to no device and is itself blank. |
| `TelemetryRuns.BlankNameHidesHistory` | backend-python/app/telemetry/service.py:146-149 | A concrete device list after which the history of the listed device cannot be read. |
| `TelemetryRuns.BlankSanitizes` | backend-python/app/telemetry/service.py:146-149 | Blank text has no character that a tag may hold. |
| `Telemetry.SanitizeKeepsTags` | backend-python/app/telemetry/service.py:16 | A tag holds only permitted characters, and a text is its own tag if and only if it holds only those. |
| `Telemetry.CollidesExactly` | backend-python/app/telemetry/service.py:146-149 | A name shares its tag with another name made of tag characters if and only if it holds a dropped character. |
| `Telemetry.NamesCollide` | backend-python/app/telemetry/service.py:146-149 | Names that differ only in a stretch of dropped characters share a tag. |
| `Telemetry.AddTagsSpec` | backend-python/app/telemetry/service.py:138-142 | The queried tags are those of all identifiers, each once. |
| `Telemetry.BuildDeviceFilter` | backend-python/app/telemetry/service.py:127-143 | The loop computes those tags, and fails when there is no identifier or one is blank. |
| `Telemetry.NormalizeFields` | backend-python/app/telemetry/service.py:109-124 | The loop keeps booleans and numbers, drops the rest, and changes no value, in whatever order the fields come. |
| `TelemetryConsumers.TelemetryConsumer.ConsumeTelemetry` | backend-python/app/mqtt/consumers.py:79-150 | One message: registry, store and event as specified; the event carries the registry's name, and there is none when nothing was filed. |
| `TelemetryConsumers.TelemetryConsumer.UpdateReportedState` | backend-python/app/mqtt/consumers.py:84-89 | A reported state text of a known device goes to its row. |
| `TelemetryConsumers.TelemetryConsumer.FileFields` | backend-python/app/mqtt/consumers.py:134-146 | The known fields are filed under the tag; nothing is when there is none or the tag is blank. |
| `TelemetryConsumers.TelemetryConsumer.IdentityFor` | backend-python/app/mqtt/consumers.py:153-175 | Resolves the name, and warns exactly on the first unresolved message since the name last resolved. |
| `TelemetryConsumers.ChooseFields` | backend-python/app/mqtt/consumers.py:124-134 | The step-by-step choice of fields computes the specified ones. |
| `LatestTelemetry.GetLatest` | backend-python/app/telemetry/router.py:40-71 | The nested loops compute the merge of all records. |
| `LatestTelemetry.MergeTakesNewest` | backend-python/app/telemetry/router.py:49-65 | A field has a value if and only if a valued record has it, and the value is that of the first record with the greatest time, or of the first record when none is dated. |
| `LatestTelemetry.LastUpdatedIsMaximum` | backend-python/app/telemetry/router.py:64-67 | `lastUpdated` is the greatest time of any dated valued record, and none if there is none. |
| `LatestTelemetry.OrderIrrelevantExactly` | backend-python/app/telemetry/router.py:49-67 | Every arrangement of the records gives the same values if and only if, for each field, all records at its greatest time, or all records if none is dated, agree. |
| `LatestTelemetry.MergeOrderIrrelevant` | backend-python/app/telemetry/router.py:49-67 | In particular, for records that agree at equal times and fields that have a dated record, values and `lastUpdated` do not depend on the order. |
| `LatestTelemetry.LastUpdatedOrderIrrelevant` | backend-python/app/telemetry/router.py:64-67 | `lastUpdated` never depends on the order. |
| `LatestTelemetry.OrderMatters` | backend-python/app/telemetry/router.py:61-62 | Two disagreeing records of one field, undated or of one time, answer by their order. |
| `TelemetryLatest.LatestIsLastFiled` | backend-python/app/telemetry/router.py:40-71 | Over every run a field is shown if and only if something was filed for it in the range under a tag of the identifier, and its value is that of the last reading filed, under whichever tag: the number itself, one for true, zero for false. |
| `TelemetryLatest.LastUpdatedIsLastFiled` | backend-python/app/telemetry/service.py:91-106 | Over every run the time shown is that of the last reading filed in the range for any field. |
| `TelemetryLatest.SlotsAfterRun` | backend-python/app/telemetry/service.py:20-33 | After every run a slot of one of the tags is taken if and only if it was before or the run filed something in it. |
| `TelemetryLatest.Answer` | backend-python/app/telemetry/router.py:44-71 | The loops compute the merge of the database's records. |
| `Timeline.BuildStateSegments` | frontend/src/modules/devices/lib/contactSegments.ts:25-54 | The loop with its three variables computes `StateSegments`. |
| `Timeline.TimelineTiles` | frontend/src/modules/devices/lib/contactSegments.ts:20-54 | For any nonempty input the segments start at `from`, end at `to`, meet without gaps, start at increasing times, and their durations sum to `to - from`. |
| `Timeline.TimelineShowsState` | frontend/src/modules/devices/lib/contactSegments.ts:33-50 | From `from` on every instant shows the state of the latest point at or before it, later in the list winning among equal times, or of the earliest point if there is none. |
| `Timeline.SegmentsStartAtChanges` | frontend/src/modules/devices/lib/contactSegments.ts:45-49 | A new segment starts at an instant after `from` if and only if some point at that instant reports another state than the one before. |
| `Timeline.NonNegativeExactly` | frontend/src/modules/devices/lib/contactSegments.ts:38-52 | Every segment has a length of at least zero if and only if the range is not reversed and no point after `to` changes the state. |
| `Timeline.LateChangeReverses` | frontend/src/modules/devices/lib/contactSegments.ts:52 | A concrete list whose last segment ends before it starts. |
| `Timeline.AlternatesExactly` | frontend/src/modules/devices/lib/contactSegments.ts:45-49 | Neighbouring segments differ if and only if no change after `from` is undone in the same instant. |
| `Timeline.SameInstantBlip` | frontend/src/modules/devices/lib/contactSegments.ts:41-44 | A concrete list with two neighbouring segments of one state. |
| `Timeline.DistinctTimesAlternate` | frontend/src/modules/devices/lib/contactSegments.ts:45-49 | With distinct timestamps neighbouring segments always differ. |
| `Timeline.OrderIrrelevant` | frontend/src/modules/devices/lib/contactSegments.ts:33 | With distinct timestamps the order of the points is irrelevant. |
| `Timeline.RebuildExactly` | frontend/src/modules/devices/lib/contactSegments.ts:25-54 | Turning the segments back into points and rebuilding gives the same segments if and only if neighbours differ. |
| `Timeline.CanonicalUnique` | frontend/src/modules/devices/lib/contactSegments.ts:20-24 | Two alternating tilings of a range with segments of positive length that show the same state at every instant are equal. |
| `Timeline.TimelineCanonical` | frontend/src/modules/devices/lib/contactSegments.ts:25-54 | With distinct timestamps before `to` and a nonempty range the segments are that unique tiling. |
| `RecipeStore.CreateRoundTrip` | backend-python/app/recipe/service.py:90-102 | Creating a recipe and loading it shows the request column by column: title, description, preparation and cooking time and notes as given, servings as given or four; ingredients in order numbered from 0, steps numbered from 1, and the distinct tags sorted by name. |
| `RecipeStore.CreateFrame` | backend-python/app/recipe/service.py:90-102 | Creating a recipe changes no other recipe's detail. |
| `RecipeStore.UpdateRoundTrip` | backend-python/app/recipe/service.py:104-131 | Updating a recipe and loading it shows the new request in the same columns and nothing of the old one. |
| `RecipeStore.UpdateFrame` | backend-python/app/recipe/service.py:104-131 | Updating a recipe changes no other recipe's detail, though children and tags are deleted and inserted in shared tables. |
| `RecipeStore.DeleteEffect` | backend-python/app/recipe/service.py:133-140 | After a deletion nothing of the recipe is left in any table and the invariant holds. |
| `RecipeStore.DeleteFrame` | backend-python/app/recipe/service.py:133-140 | Deleting a recipe changes no other recipe's detail. |
| `RecipeStore.ReachableIsWellFormed` | backend-python/app/recipe/service.py:90-140 | Over every run of creations, updates, deletions and tag creations recipe ids, tag ids and tag names stay unique, no link is repeated, and no child row or link lacks its recipe or tag. |
| `RecipeStore.ReachableChildIds` | backend-python/schema.sql:43-63 | Over every such run ingredient ids and step ids are never used twice and grow in the order of saving. |
| `RecipeStore.RefusedExactly` | backend-python/schema.sql:29-75 | A request is refused if and only if a title or name is longer than 255 characters, servings or a timer are not positive, a number exceeds 32 bits, an amount rounds to a hundred million or more in size, or a tag is longer than 100. |
| `RecipeStore.CreateTagEffect` | backend-python/app/recipe/service.py:34-47 | Creating a tag leaves exactly one of that name, if the name fits, adds at most one row and changes no recipe's detail. |
| `RecipeStore.LinkTagsEffect` | backend-python/app/recipe/service.py:175-182 | Linking distinct new names gives the recipe exactly these tags besides the ones it had, reuses existing tags, and adds rows for no other recipe. |
| `RecipeStore.FindTagsSpec` | backend-python/app/recipe/repository.py:95-101 | The tags listed for a recipe are those it is linked to, each once, sorted by name. |
| `RecipeStore.DistinctSpec` | backend-python/app/recipe/service.py:180 | Every requested name once. |
| `RecipeStore.DistinctInOrder` | backend-python/app/recipe/service.py:180 | In the order in which the names first occur. |
| `RecipeStore.AmountKeptExactly` | backend-python/schema.sql:47 | An amount comes back unchanged if and only if it has at most two decimals. |
| `RecipeStore.AmountIsNearest` | backend-python/schema.sql:47 | An amount comes back as whole cents, the nearest ones, the larger in size when two are nearest. |
| `RecipeStore.EighthIsRounded` | backend-python/schema.sql:47 | The amount 0.125 comes back as 0.13. |
| `Recipes.RecipeService.CreateRecipe` | backend-python/app/recipe/service.py:90-102 | The steps of the transaction give the tables of `Create`, or leave them as they were when a row is refused. |
| `Recipes.RecipeService.UpdateRecipe` | backend-python/app/recipe/service.py:104-131 | The steps of the transaction give the tables of `Update`; unknown id and refused row leave the tables as they were. |
| `Recipes.RecipeService.DeleteRecipe` | backend-python/app/recipe/service.py:133-140 | The tables of `Delete`; reports whether the id existed. |
| `Recipes.RecipeService.PersistIngredients` | backend-python/app/recipe/service.py:159-166 | The loop appends one row per ingredient, numbered from 0, ids in order. |
| `Recipes.RecipeService.PersistSteps` | backend-python/app/recipe/service.py:168-173 | The loop appends one row per step, numbered from 1, ids in order. |
| `Recipes.RecipeService.PersistTags` | backend-python/app/recipe/service.py:175-182 | The loop links each name in turn. |
| `Recipes.RecipeService.CreateTag` | backend-python/app/recipe/service.py:34-38 | The tables of `AddTag` and the id of the tag of that name, or unchanged tables when the name is refused. |
| `Recipes.RecipeService.FindOrCreate` | backend-python/app/recipe/service.py:40-47 | The id of the tag with that name, created if there is none. |
| `RecipeSearch.TagCountIsInclusion` | backend-python/app/recipe/repository.py:26-33 | For every database and every list of names, with repetitions and unknown names, the number of link rows equals the number of distinct names if and only if the recipe has a tag of every name. |
| `RecipeSearch.LinkCountIsHeld` | backend-python/app/recipe/repository.py:137-140 | The number of link rows to the ids found for some names is the number of these names the recipe has. |
| `RecipeSearch.FormsAgree` | backend-python/app/recipe/repository.py:1-6 | The HQL text and the Python conditions select the same recipes in every database, for every list of ids and count, if and only if nothing was typed or what was typed holds no backslash. |
| `RecipeSearch.LikesAgreeExactly` | backend/src/main/java/io/smarthome/core/recipe/repository/RecipeRepository.java:22-28 | With a percent sign at both ends, LIKE with a backslash as escape character and LIKE without one match the same texts if and only if the text between holds no backslash. |
| `RecipeSearch.BackslashFindsMore` | backend-python/app/recipe/repository.py:18-25 | Searching for a, backslash, b finds the recipe "ab" in the Python form and not in the HQL form. |
| `RecipeSearch.PlaceholderCountsNothing` | backend/src/main/java/io/smarthome/core/recipe/repository/RecipeRepository.java:85-92 | Replacing an empty list of ids by the placeholder changes no count of links. |
| `RecipeSearch.SearchFinds` | backend-python/app/recipe/service.py:54-65 | The result holds, once each, exactly the recipes whose title or some ingredient matches the text and that have every requested tag, and the total counts them. |
| `RecipeSearch.SearchPagesPartition` | backend-python/app/recipe/service.py:60-75 | For any page and size asked for, the pages of one order give every match once in title order; a page is empty if and only if it lies beyond the last. |
| `RecipeSearch.RespondsAsAsked` | backend-python/app/recipe/router.py:34-35 | A page of at least zero and a size from 1 to 100 are answered as asked for; a negative page is answered as the first, a smaller size as 1, a larger as 100; the items are the rows of the order from that offset on, as many as the size or as there are. |
| `RecipeSearch.SearchPagesExactly` | backend-python/app/recipe/repository.py:48-54 | Fetched by separate queries, every match appears once however ties are ordered if and only if no two matches with equal titles meet at a page boundary. |
| `RecipeSearch.EqualTitlesMayRepeat` | backend-python/app/recipe/repository.py:48-54 | Two recipes of one title, one to a page, may not appear once each. |
| `RecipeSearch.SoupsMayRepeat` | backend-python/app/recipe/repository.py:48-54 | The same at two soups. |
| `RecipeSearch.PercentFindsAll` | backend-python/app/recipe/service.py:57 | Searching for a percent sign matches every text, also one without. |
| `RecipeSearch.TypedTextIsContained` | backend-python/app/recipe/service.py:57 | A missing or blank search gives no pattern; any other gives one that matches exactly the texts containing what was typed, stripped and lowered, if and only if that holds no percent sign, underscore or backslash. |
| `RecipeSearch.PatternIsContainment` | backend-python/app/recipe/repository.py:18-25 | The same for any text between two percent signs. |
| `RecipeSearch.StripSpec` | backend-python/app/recipe/service.py:57 | Stripping cuts white space, all of it and nothing else, off both ends. |
| `RecipeSearch.PlainSearch` | backend-python/app/recipe/repository.py:22-25 | For plain text, LIKE with a percent sign at both ends is containment. |
| `Pagination.PagesPartition` | backend-python/app/common/pagination.py:16-25 | For any size of at least one, pages 0 to totalPages-1 of one order concatenate to the whole result, none is empty, and every later page is. |
| `Pagination.PagesCover` | backend-python/app/common/pagination.py:18 | The page count is the least that covers the result. |
| `Pagination.SeparateQueriesExactly` | backend-python/app/recipe/repository.py:39-55 | The same exact condition for any rows, key and page size. |
| `Polling.Poller.Start` | frontend/src/hooks/usePolling.ts:15-16 | A request gets the next number and becomes the newest. |
| `Polling.Poller.Effect` | frontend/src/hooks/usePolling.ts:33-35 | Mounting or changed dependencies set loading and start a request. |
| `Polling.Poller.Succeed` | frontend/src/hooks/usePolling.ts:24-25 | A value is written only by the newest request. |
| `Polling.Poller.Fail` | frontend/src/hooks/usePolling.ts:26-28 | An error is written only by the newest request and keeps the data. |
| `Polling.Invariant` | frontend/src/hooks/usePolling.ts:15-31 | Over every interleaving: requests in flight are numbered up to the newest; while the newest is in flight all written ones are older; once it has settled it is the last written. |
| `Polling.NeverGoesBack` | frontend/src/hooks/usePolling.ts:19-24 | Over every interleaving the requests whose outcomes are written have strictly increasing start order. |
| `Polling.ShowsLastWritten` | frontend/src/hooks/usePolling.ts:25-28 | The data is the last value written, and an error is shown only if the last outcome written was one. |
| `Polling.LoadingMeansNewestInFlight` | frontend/src/hooks/usePolling.ts:33-35 | Once mounted, loading implies that the newest request is in flight. |
| `Polling.SettledStays` | frontend/src/hooks/usePolling.ts:19-28 | Once the newest request has settled, no number of older settlements changes the state. |
| `Polling.QuietShowsNewest` | frontend/src/hooks/usePolling.ts:15-31 | When nothing is in flight, the state shows the outcome of the newest request and is not loading. |
| `Polling.LoadingUntilSettled` | frontend/src/hooks/usePolling.ts:33-35 | After an effect, over every interleaving, the state is loading until the request that is newest at the time settles. |
| `Polling.EffectShowsLoading` | frontend/src/hooks/usePolling.ts:33-35 | An effect shows loading and keeps data and error. |
| `Polling.RefreshShowsNothing` | frontend/src/hooks/usePolling.ts:15-16 | A refresh changes neither loading nor data nor error. |
| `CookProgress.CookProgressHook.constructor` | frontend/src/modules/recipes/cook/hooks/useCookProgress.ts:75-79 | Mounting shows what storage holds for the recipe. |
| `CookProgress.CookProgressHook.Render` | frontend/src/modules/recipes/cook/hooks/useCookProgress.ts:81-87 | Rendering with another recipe loads that one; state and ref stay equal. |
| `CookProgress.CookProgressHook.Apply` | frontend/src/modules/recipes/cook/hooks/useCookProgress.ts:89-96 | Ref, storage and state take the new progress together. |
| `CookProgress.CookProgressHook.SetStepIndex` | frontend/src/modules/recipes/cook/hooks/useCookProgress.ts:98-101 | The step, cut at zero, replaces the old one; servings and checks stay. |
| `CookProgress.CookProgressHook.SetServings` | frontend/src/modules/recipes/cook/hooks/useCookProgress.ts:103-106 | The servings are kept and stored as given; step and checks stay. |
| `CookProgress.CookProgressHook.ToggleIngredient` | frontend/src/modules/recipes/cook/hooks/useCookProgress.ts:108-119 | An ingredient that was checked is unchecked everywhere, otherwise added; the rest is unchanged. |
| `CookProgress.CookProgressHook.Reset` | frontend/src/modules/recipes/cook/hooks/useCookProgress.ts:121-126 | Storage forgets this recipe only; ref and state are empty. |
| `CookProgress.ReadBackExactly` | frontend/src/modules/recipes/cook/hooks/useCookProgress.ts:24-56 | Reading gives back what was written if and only if that was nothing, or it is at most twelve hours old and has a whole step of at least zero and servings above zero. |
| `CookProgress.ReloadsAreInvisible` | frontend/src/modules/recipes/cook/hooks/useCookProgress.ts:66-126 | For every sequence of steps, servings, toggles, resets, recipe switches and reloads, with arguments of that shape and no entry older than twelve hours when it is read, the progress shown is that of a plain in-memory map from recipe to progress. |
| `CookProgress.ProgressLapses` | frontend/src/modules/recipes/cook/hooks/useCookProgress.ts:34-126 | From any storage, for every such sequence at any times, the progress shown is that of an in-memory map whose entries lapse twelve hours after their last write. |
| `CookProgress.ToggleEffect` | frontend/src/modules/recipes/cook/hooks/useCookProgress.ts:108-119 | Toggling an ingredient checks it if and only if it was not checked, puts it last then, keeps the other ingredients in their order, and changes neither step nor servings. |
| `CookProgress.StoredEntryReads` | frontend/src/modules/recipes/cook/hooks/useCookProgress.ts:24-47 | What any stored entry is worth: nothing if it is no object with a time or more than twelve hours old; else its step if whole and above zero, its servings if above zero, and exactly the numbers of its list of ingredients. |
| `CookProgress.ResumeIsFoundStep` | frontend/src/modules/recipes/cook/hooks/useCookProgress.ts:72-87 | The step offered for resuming is the one shown when the recipe was opened; later steps, servings and toggles leave it, and a reset clears it. |
| `CookProgress.ZeroServingsAreForgotten` | frontend/src/modules/recipes/cook/hooks/useCookProgress.ts:27 | Servings of zero are gone after a reload. |
| `Automation.DoorRuleIsEdgeDetector` | backend-python/app/automation/rules/door_opened_lights.py:29-44 | Over every event sequence and every pattern of failing commands, an event adds exactly the door lights up to the first failure when the sensor's last boolean reading was closed and this one is open, the night lights likewise on a schedule event, and nothing otherwise. |
| `Automation.MemoryIsLastReading` | backend-python/app/automation/rules/door_opened_lights.py:34-39 | The rule's memory is the last boolean contact reading of its sensor. |
| `Automation.SentIsPrefix` | backend-python/app/automation/rules/door_opened_lights.py:43-44 | The commands of a firing are the lights in order, cut only behind a failed command. |
| `Automation.EveryRuleRuns` | backend-python/app/automation/engine.py:12-21 | Over every event sequence and every pattern of failing commands, each event evaluates exactly the enabled applicable rules, once each, in name order. |
| `Automation.RaisesExactly` | backend-python/app/automation/rules/door_opened_lights.py:41-44 | Evaluating a rule raises if and only if it reaches a command that fails. |
| `Automation.FailuresAreContained` | backend-python/app/automation/engine.py:12-21 | Memory, alerts and the rules evaluated are the same under every pattern of failing commands. |
| `Automation.AlertsFollowReadings` | backend-python/app/automation/rules/temperature_alert.py:18-39 | Over every event sequence and every pattern of failing commands, an event adds one alert, with its number, exactly when the rule is enabled, it is a telemetry event of the configured device or none is configured, and its temperature is a number above the threshold. |
| `DoorRuns.DoorOpensLights` | backend-python/app/automation/bridge.py:28-43 | Over every run of messages and registry changes and every pattern of failing commands, a step attempts exactly the door lights up to the first failure when it brings an open reading and the last reading before was closed, a reading being a filed contact message of whatever the registry names like the sensor when it arrives; otherwise it attempts nothing. |
| `DoorRuns.MemoryIsLastContact` | backend-python/app/automation/rules/door_opened_lights.py:34-39 | Over every such run the rule's memory is the last of these readings. |
| `DoorRuns.EventIsReading` | backend-python/app/mqtt/consumers.py:138-150 | The rule sees a reading if and only if the step brings one, and with its value. |
| `DoorRuns.AlertsFollowMessages` | backend-python/app/automation/bridge.py:28-43 | Over every run of messages and registry changes a step adds one alert exactly when it files a temperature above the threshold, with no device configured, or for one whose registered name, or whose topic if it has none, is the configured one. |
| `DoorRuns.RenameSilencesDoor` | backend-python/app/device/service.py:125-144 | After a rename in the app to another name than the configured one, the next message of the device, on whatever topic that leads to it, attempts nothing. |
| `Automation.RulesForEventAre` | backend-python/app/automation/registry.py:32-39 | The rules run for an event are exactly the enabled, applicable ones, each as often as registered, in name order. |
| `Automation.SortByNameCorrect` | backend-python/app/automation/registry.py:21-25 | Starting orders the rules by name and loses or repeats none. |
| `Automation.StartOrder` | backend-python/app/automation/registry.py:21-25 | The three registered rules in their order. |
| `Automation.RuleEngine.Start` | backend-python/app/automation/registry.py:21-25 | The registry holds the three rules, in the order of the trace theorems. |
| `Automation.RuleEngine.SetStates` | backend-python/app/automation/rules/door_opened_lights.py:43-44 | The loop over the lights attempts exactly those of `Sent` and leaves memory and alerts alone. |
| `Automation.RuleEngine.Fire` | backend-python/app/automation/engine.py:12-21 | The loop evaluates every rule for the event in turn, whatever happened to the ones before. |
| `Automation.RuleEngine.EvaluateRule` | backend-python/app/automation/rules/door_opened_lights.py:29-44 | One rule's effect on memory, commands and alerts. |

## Left out

- Transport and libraries: MQTT, HTTP, SQL, Flux text and log output. A transaction is a function on tables that
  may be refused; publishing a command is an operation that may fail. Messages start as a device name and a
  parsed JSON object, so topic parsing and the skipping of bridge messages are not modelled.
- TelemetryConsumers.TelemetryConsumer.ConsumeTelemetry: does not model the light columns, a registry lookup that
  fails (database down: the point is then filed under a name that may already be claimed, which healing excludes) or
  a write to the time series that fails.
- Telemetry.Consume: takes a message as one atomic step. The source resolves the name, updates the state and writes
  the point in separate sessions, between which a request may rename or delete the device.
- RegistrySync.ApplyAllSpec: says that text longer than its column is refused; PostgreSQL stores a VARCHAR whose
  excess is only spaces, cut to length. The same holds for the other length limits (`UpdateDevice`, `UpdateState`,
  `Recipes.Fits`, `FitsTagName`).
- Timestamps of rows (`last_seen`, `created_at`, `updated_at`), `exposes`, the light columns (`brightness`,
  `color_temp`, `hue`, `saturation`, `color_mode`) and the conversion from x/y colours.
- Gaps that a rollback or a skipped insert leaves in id sequences; ids only need to grow.
- Text the database refuses whatever its length (a NUL character, lone surrogates).
- `RecipeSearch.LikeUnescaped`: is HQL's LIKE without an ESCAPE clause; how Hibernate renders it in SQL is not part of
  this model.
- `Registry.Lower`: lowers ASCII letters only, which decides every word that `determine_type` looks for; `lower` in
  the recipe search and the collation of names are parameters.
- Influx type conflicts between points of one field, and the echoed device name of responses; aggregated queries and
  request validation.
- `buildContactSegments`, which only renames a field of each segment, and `formatDuration`.
- The response of the create and update calls of recipes, which may still show an unrounded amount; the theorems
  are about loading the recipe afterwards. Blank titles, units outside the list and other
  refusals by the request schemas.
- The tags attached to each search result, which are those of `RecipeStore.FindTagsSpec`.
- Unavailable or full browser storage and numbers that are not finite, in cook progress; `resumeStepIndex` is
  modelled but only its use by the hook itself.
- Unmounting in polling, after which React ignores writes.
- `Automation.RuleEngine.SetState`: a command succeeds or fails; its topic, payload and error are not modelled.
- Shopping lists, todos, calendar, health, room layout, themes, charts, and the Java backend other than its recipe
  query: single calls with single-branch contracts.

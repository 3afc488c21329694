/** Cooking progress kept in browser storage:
    frontend/src/modules/recipes/cook/hooks/useCookProgress.ts. Numbers are reals, times milliseconds. */
module CookProgress {
  import opened Prelude
  import opened Sequences

  datatype Progress = Progress(stepIndex: real, servings: Option<real>, checked: seq<real>)

  const EMPTY: Progress := Progress(0.0, None, [])
  const MAX_AGE_MS: real := 43200000.0

  /** A JSON value as the hook inspects it. */
  datatype JsValue = Undefined | Num(x: real) | List(items: seq<JsValue>) | Other

  /** The text stored for a recipe, after parsing. */
  datatype Entry =
    | Unparsable
    | NotAnObject
    | Object(stepIndex: JsValue, servings: JsValue, checked: JsValue, updatedAt: JsValue)

  type Storage = map<int, Entry>

  predicate IsInteger(x: real) { x == x.Floor as real }

  function NumbersIn(items: seq<JsValue>): seq<real> {
    if items == [] then []
    else (if items[0].Num? then [items[0].x] else []) + NumbersIn(items[1..])
  }

  /** Keep only values of the right shape. */
  function Sanitized(e: Entry): Progress
    requires e.Object?
  {
    Progress(
      if e.stepIndex.Num? && IsInteger(e.stepIndex.x) && e.stepIndex.x > 0.0 then e.stepIndex.x else 0.0,
      if e.servings.Num? && e.servings.x > 0.0 then Some(e.servings.x) else None,
      if e.checked.List? then NumbersIn(e.checked.items) else [])
  }

  /** Absent, unreadable, undated and old entries all read as no progress. */
  function Read(storage: Storage, recipe: int, now: real): Progress {
    if recipe !in storage then EMPTY
    else
      var e := storage[recipe];
      if !e.Object? || !e.updatedAt.Num? || now - e.updatedAt.x > MAX_AGE_MS then EMPTY else Sanitized(e)
  }

  function Encoded(p: Progress, now: real): Entry {
    Object(Num(p.stepIndex), if p.servings.Some? then Num(p.servings.value) else Other,
           List(Items(p.checked)), Num(now))
  }

  function Items(ids: seq<real>): seq<JsValue> {
    seq(|ids|, i requires 0 <= i < |ids| => Num(ids[i]))
  }

  function Without(ids: seq<real>, id: real): seq<real> {
    if ids == [] then [] else (if ids[0] == id then [] else [ids[0]]) + Without(ids[1..], id)
  }

  function Toggled(p: Progress, id: real): Progress {
    p.(checked := if id in p.checked then Without(p.checked, id) else p.checked + [id])
  }

  /** A mounted hook with the storage it shares with other pages. */
  datatype Hook = Hook(storage: Storage, recipe: int, progress: Progress, resume: real)

  function Opened(storage: Storage, recipe: int, now: real): Hook {
    var p := Read(storage, recipe, now);
    Hook(storage, recipe, p, p.stepIndex)
  }

  function Applied(h: Hook, p: Progress, now: real): Hook {
    h.(storage := h.storage[h.recipe := Encoded(p, now)], progress := p)
  }

  datatype Action =
    | SetStepIndex(x: real)
    | SetServings(x: real)
    | ToggleIngredient(id: real)
    | Reset
    | Render(recipe: int)
    | Reload

  /** A user action, a render with a possibly different recipe, or a reload, at time `now`. */
  function Next(h: Hook, action: Action, now: real): Hook {
    match action
    case SetStepIndex(x) => Applied(h, h.progress.(stepIndex := if x > 0.0 then x else 0.0), now)
    case SetServings(x) => Applied(h, h.progress.(servings := Some(x)), now)
    case ToggleIngredient(id) => Applied(h, Toggled(h.progress, id), now)
    case Reset => Hook(h.storage - {h.recipe}, h.recipe, EMPTY, 0.0)
    case Render(r) => if r == h.recipe then h else Opened(h.storage, r, now)
    case Reload => Opened(h.storage, h.recipe, now)
  }

  class CookProgressHook {
    var storage: Storage
    var loadedFor: int
    var progress: Progress
    var progressRef: Progress
    var resumeStepIndexRef: real

    predicate Valid()
      reads this
    {
      progressRef == progress
    }

    function Now(): Hook
      reads this
    {
      Hook(storage, loadedFor, progress, resumeStepIndexRef)
    }

    constructor (storage: Storage, recipe: int, now: real)
      ensures Valid() && Now() == Opened(storage, recipe, now)
    {
      this.storage, loadedFor := storage, recipe;
      var loaded := Read(storage, recipe, now);
      progress, progressRef, resumeStepIndexRef := loaded, loaded, loaded.stepIndex;
    }

    method Render(recipe: int, now: real)
      requires Valid()
      modifies this
      ensures Valid() && Now() == Next(old(Now()), Action.Render(recipe), now)
    {
      if loadedFor != recipe {
        var loaded := Read(storage, recipe, now);
        resumeStepIndexRef := loaded.stepIndex;
        progressRef := loaded;
        loadedFor := recipe;
        progress := loaded;
      }
    }

    method Apply(next: Progress, now: real)
      modifies this
      ensures Valid() && Now() == Applied(old(Now()), next, now)
    {
      progressRef := next;
      storage := storage[loadedFor := Encoded(next, now)];
      progress := next;
    }

    method SetStepIndex(x: real, now: real)
      requires Valid()
      modifies this
      ensures Valid() && Now() == Next(old(Now()), Action.SetStepIndex(x), now)
    {
      Apply(progressRef.(stepIndex := if x > 0.0 then x else 0.0), now);
    }

    method SetServings(x: real, now: real)
      requires Valid()
      modifies this
      ensures Valid() && Now() == Next(old(Now()), Action.SetServings(x), now)
    {
      Apply(progressRef.(servings := Some(x)), now);
    }

    method ToggleIngredient(id: real, now: real)
      requires Valid()
      modifies this
      ensures Valid() && Now() == Next(old(Now()), Action.ToggleIngredient(id), now)
    {
      Apply(Toggled(progressRef, id), now);
    }

    method Reset(now: real)
      requires Valid()
      modifies this
      ensures Valid() && Now() == Next(old(Now()), Action.Reset, now)
    {
      storage := storage - {loadedFor};
      resumeStepIndexRef := 0.0;
      progressRef := EMPTY;
      progress := EMPTY;
    }
  }

  // ----- Toggling -----

  function IsNot(id: real): real -> bool { (x: real) => x != id }

  /** Check an ingredient at the end of the list, or take it off, leaving the others as they are. */
  function Flipped(p: Progress, id: real): Progress {
    Progress(p.stepIndex, p.servings, if id in p.checked then Filter(p.checked, IsNot(id)) else p.checked + [id])
  }

  lemma {:induction false} WithoutIsFilter(ids: seq<real>, id: real)
    ensures Without(ids, id) == Filter(ids, IsNot(id))
  {
    if ids != [] { WithoutIsFilter(ids[1..], id); }
  }

  lemma ToggledIsFlipped(p: Progress, id: real)
    ensures Toggled(p, id) == Flipped(p, id)
  {
    WithoutIsFilter(p.checked, id);
  }

  /** Toggling checks an ingredient exactly when it was not checked, puts it last, and leaves the other
      ingredients in their order and the step and servings as they were. */
  lemma ToggleEffect(h: Hook, id: real, now: real)
    ensures var p, q := h.progress, Next(h, ToggleIngredient(id), now).progress;
      (id in q.checked <==> id !in p.checked)
      && Filter(q.checked, IsNot(id)) == Filter(p.checked, IsNot(id))
      && (id !in p.checked ==> q.checked == p.checked + [id])
      && q.stepIndex == p.stepIndex && q.servings == p.servings
  {
    var ids := h.progress.checked;
    ToggledIsFlipped(h.progress, id);
    if id in ids {
      FilterIn(ids, IsNot(id));
      FilterTwice(ids, IsNot(id), IsNot(id));
    } else {
      FilterConcat(ids, [id], IsNot(id));
      assert Filter([id], IsNot(id)) == [] && Filter(ids, IsNot(id)) + [] == Filter(ids, IsNot(id));
    }
  }

  // ----- The step offered for resuming -----

  /** The step offered for resuming is the one found when the recipe was opened: changing step, servings or
      ingredients leaves it, a reset clears it, and opening a recipe sets it to the step then shown. */
  lemma ResumeIsFoundStep(h: Hook, action: Action, now: real)
    ensures var h' := Next(h, action, now);
      (action.SetStepIndex? || action.SetServings? || action.ToggleIngredient? ==> h'.resume == h.resume)
      && (action.Reset? ==> h'.resume == 0.0)
      && (action == Render(h.recipe) ==> h'.resume == h.resume)
      && (action.Reload? || (action.Render? && action.recipe != h.recipe) ==> h'.resume == h'.progress.stepIndex)
  {
  }

  // ----- What a stored entry is worth -----

  lemma {:induction false} NumbersJoin(items: seq<JsValue>, more: seq<JsValue>)
    ensures NumbersIn(items + more) == NumbersIn(items) + NumbersIn(more)
  {
    if items == [] {
      assert items + more == more;
    } else {
      assert (items + more)[0] == items[0] && (items + more)[1..] == items[1..] + more;
      NumbersJoin(items[1..], more);
    }
  }

  lemma NumbersOfOne(item: JsValue)
    ensures NumbersIn([item]) == if item.Num? then [item.x] else []
  {
    assert [item][1..] == [];
  }

  /** Whatever storage holds for a recipe: an entry that is not an object with a time, or is older than
      twelve hours, is worth nothing; of any other, a whole step above zero counts, else zero; servings
      above zero, else none; and of a list of ingredients exactly the numbers. */
  lemma StoredEntryReads(storage: Storage, recipe: int, now: real)
    requires recipe in storage
    ensures var e, p := storage[recipe], Read(storage, recipe, now);
      if !e.Object? || !e.updatedAt.Num? || now > e.updatedAt.x + 43200000.0 then
        p.stepIndex == 0.0 && p.servings == None && p.checked == []
      else
        (if e.stepIndex.Num? && e.stepIndex.x > 0.0 && IsInteger(e.stepIndex.x) then p.stepIndex == e.stepIndex.x
         else p.stepIndex == 0.0)
        && (if e.servings.Num? && e.servings.x > 0.0 then p.servings == Some(e.servings.x) else p.servings == None)
        && (!e.checked.List? ==> p.checked == [])
        && (e.checked.List? ==> forall x :: x in p.checked <==> Num(x) in e.checked.items)
  {
    var e := storage[recipe];
    if e.Object? && e.checked.List? { NumbersAre(e.checked.items); }
  }

  lemma {:induction false} NumbersAre(items: seq<JsValue>)
    ensures forall x :: x in NumbersIn(items) <==> Num(x) in items
  {
    if items != [] {
      NumbersAre(items[1..]);
      assert items == [items[0]] + items[1..];
    }
  }

  // ----- Reading back what was written -----

  /** The shapes reading keeps: a whole step of at least zero, and servings above zero if any. */
  predicate ValidProgress(p: Progress) {
    IsInteger(p.stepIndex) && p.stepIndex >= 0.0 && (p.servings.Some? ==> p.servings.value > 0.0)
  }

  lemma {:induction false} NumbersBack(ids: seq<real>)
    ensures NumbersIn(Items(ids)) == ids
  {
    if ids != [] {
      NumbersBack(ids[1..]);
      assert Items(ids)[1..] == Items(ids[1..]);
      assert ids == [ids[0]] + ids[1..];
    }
  }

  /** Reading gives back what was written exactly when it is recent and well shaped, or empty. */
  lemma ReadBackExactly(storage: Storage, recipe: int, p: Progress, written: real, now: real)
    requires recipe in storage && storage[recipe] == Encoded(p, written)
    ensures Read(storage, recipe, now) == p <==> p == EMPTY || (now - written <= MAX_AGE_MS && ValidProgress(p))
  {
    NumbersBack(p.checked);
    assert Sanitized(Encoded(p, written)).checked == p.checked;
    assert IsInteger(0.0);
  }

  // ----- Reloads are invisible -----

  /** Progress as a plain in-memory map would keep it. */
  datatype Memory = Memory(progress: map<int, Progress>, recipe: int)

  function Kept(m: Memory, recipe: int): Progress {
    if recipe in m.progress then m.progress[recipe] else EMPTY
  }

  function Remembered(m: Memory, action: Action): Memory {
    var p := Kept(m, m.recipe);
    match action
    case SetStepIndex(x) => m.(progress := m.progress[m.recipe := p.(stepIndex := if x > 0.0 then x else 0.0)])
    case SetServings(x) => m.(progress := m.progress[m.recipe := p.(servings := Some(x))])
    case ToggleIngredient(id) => m.(progress := m.progress[m.recipe := Flipped(p, id)])
    case Reset => m.(progress := m.progress[m.recipe := EMPTY])
    case Render(r) => m.(recipe := r)
    case Reload => m
  }

  /** The arguments the pages pass: whole steps, or any number below zero, and servings above zero. */
  predicate ValidArgument(action: Action) {
    match action
    case SetStepIndex(x) => IsInteger(x) || x <= 0.0
    case SetServings(x) => x > 0.0
    case _ => true
  }

  predicate IsFresh(storage: Storage, r: int, now: real) {
    r in storage && storage[r].Object? && storage[r].updatedAt.Num? ==> now - storage[r].updatedAt.x <= MAX_AGE_MS
  }

  /** An entry that is about to be read is at most twelve hours old. */
  predicate Recent(h: Hook, action: Action, now: real) {
    var r := match action case Render(r) => r case _ => h.recipe;
    (action.Render? && r != h.recipe) || action.Reload? ==>
      IsFresh(h.storage, r, now)
  }

  datatype Timed = Timed(action: Action, now: real)

  function RunHook(h: Hook, actions: seq<Timed>): Hook
    decreases |actions|
  {
    if actions == [] then h else RunHook(Next(h, actions[0].action, actions[0].now), actions[1..])
  }

  function RunMemory(m: Memory, actions: seq<Timed>): Memory
    decreases |actions|
  {
    if actions == [] then m else RunMemory(Remembered(m, actions[0].action), actions[1..])
  }

  ghost predicate Proper(h: Hook, actions: seq<Timed>)
    decreases |actions|
  {
    actions == []
    || (ValidArgument(actions[0].action) && Recent(h, actions[0].action, actions[0].now)
        && Proper(Next(h, actions[0].action, actions[0].now), actions[1..]))
  }

  ghost predicate IsCopy(e: Entry, p: Progress) {
    e.Object? && e.updatedAt.Num? && e == Encoded(p, e.updatedAt.x)
  }

  /** Storage holds what memory holds, for every recipe. */
  ghost predicate Linked(h: Hook, m: Memory) {
    h.recipe == m.recipe && h.progress == Kept(m, m.recipe)
    && (forall r :: ValidProgress(Kept(m, r)))
    && (forall r :: r !in h.storage ==> Kept(m, r) == EMPTY)
    && (forall r :: r in h.storage ==> IsCopy(h.storage[r], Kept(m, r)))
  }

  lemma WriteStaysLinked(h: Hook, m: Memory, p: Progress, now: real)
    requires Linked(h, m) && ValidProgress(p)
    ensures Linked(Applied(h, p, now), m.(progress := m.progress[m.recipe := p]))
  {
    var h', m' := Applied(h, p, now), m.(progress := m.progress[m.recipe := p]);
    forall r ensures Kept(m', r) == if r == m.recipe then p else Kept(m, r) {}
    forall r | r in h'.storage ensures IsCopy(h'.storage[r], Kept(m', r)) {
      if r != m.recipe { assert h'.storage[r] == h.storage[r]; }
    }
  }

  lemma OpenStaysLinked(h: Hook, m: Memory, r: int, now: real)
    requires Linked(h, m)
    requires IsFresh(h.storage, r, now)
    ensures Linked(Opened(h.storage, r, now), m.(recipe := r))
  {
    var m' := m.(recipe := r);
    forall x ensures Kept(m', x) == Kept(m, x) {}
    if r in h.storage {
      assert IsCopy(h.storage[r], Kept(m, r));
      ReadBackExactly(h.storage, r, Kept(m, r), h.storage[r].updatedAt.x, now);
    }
  }

  lemma ResetStaysLinked(h: Hook, m: Memory)
    requires Linked(h, m)
    ensures Linked(Hook(h.storage - {h.recipe}, h.recipe, EMPTY, 0.0), m.(progress := m.progress[m.recipe := EMPTY]))
  {
    var m' := m.(progress := m.progress[m.recipe := EMPTY]);
    forall r ensures Kept(m', r) == if r == m.recipe then EMPTY else Kept(m, r) {}
  }

  lemma StepStaysLinked(h: Hook, m: Memory, action: Action, now: real)
    requires Linked(h, m) && ValidArgument(action) && Recent(h, action, now)
    ensures Linked(Next(h, action, now), Remembered(m, action))
  {
    var p := h.progress;
    match action {
      case SetStepIndex(x) => WriteStaysLinked(h, m, p.(stepIndex := if x > 0.0 then x else 0.0), now);
      case SetServings(x) => WriteStaysLinked(h, m, p.(servings := Some(x)), now);
      case ToggleIngredient(id) => ToggledIsFlipped(p, id); WriteStaysLinked(h, m, Toggled(p, id), now);
      case Reset => ResetStaysLinked(h, m);
      case Render(r) => if r != h.recipe { OpenStaysLinked(h, m, r, now); } else { assert m.(recipe := r) == m; }
      case Reload => OpenStaysLinked(h, m, h.recipe, now); assert m.(recipe := h.recipe) == m;
    }
  }

  lemma {:induction false} RunStaysLinked(h: Hook, m: Memory, actions: seq<Timed>)
    requires Linked(h, m) && Proper(h, actions)
    ensures Linked(RunHook(h, actions), RunMemory(m, actions))
    decreases |actions|
  {
    if actions != [] {
      StepStaysLinked(h, m, actions[0].action, actions[0].now);
      RunStaysLinked(Next(h, actions[0].action, actions[0].now), Remembered(m, actions[0].action), actions[1..]);
    }
  }

  /** Reload transparency: over every sequence of steps, servings, toggles, resets, recipe switches and
      reloads, with valid arguments and no entry older than twelve hours when it is read, the
      progress shown is that of a plain in-memory map from recipe to progress. */
  lemma ReloadsAreInvisible(recipe: int, start: real, actions: seq<Timed>)
    requires Proper(Opened(map[], recipe, start), actions)
    ensures var m := RunMemory(Memory(map[], recipe), actions);
      RunHook(Opened(map[], recipe, start), actions).progress == Kept(m, m.recipe)
  {
    RunStaysLinked(Opened(map[], recipe, start), Memory(map[], recipe), actions);
  }

  // ----- With expiry, from any storage -----

  /** Progress as an in-memory map would keep it, each entry with the time of its last write, and the
      progress on the screen. */
  datatype Lapsing = Lapsing(entries: map<int, (Progress, real)>, recipe: int, shown: Progress)

  /** What an entry is worth when it is opened: nothing, twelve hours after its last write. */
  function Unlapsed(entries: map<int, (Progress, real)>, recipe: int, now: real): Progress {
    if recipe in entries && now - entries[recipe].1 <= MAX_AGE_MS then entries[recipe].0 else EMPTY
  }

  function LapsingNext(m: Lapsing, action: Action, now: real): Lapsing {
    match action
    case SetStepIndex(x) => Noted(m, m.shown.(stepIndex := if x > 0.0 then x else 0.0), now)
    case SetServings(x) => Noted(m, m.shown.(servings := Some(x)), now)
    case ToggleIngredient(id) => Noted(m, Flipped(m.shown, id), now)
    case Reset => Lapsing(m.entries - {m.recipe}, m.recipe, EMPTY)
    case Render(r) => if r == m.recipe then m else Lapsing(m.entries, r, Unlapsed(m.entries, r, now))
    case Reload => Lapsing(m.entries, m.recipe, Unlapsed(m.entries, m.recipe, now))
  }

  function Noted(m: Lapsing, p: Progress, now: real): Lapsing {
    Lapsing(m.entries[m.recipe := (p, now)], m.recipe, p)
  }

  function RunLapsing(m: Lapsing, actions: seq<Timed>): Lapsing
    decreases |actions|
  {
    if actions == [] then m else RunLapsing(LapsingNext(m, actions[0].action, actions[0].now), actions[1..])
  }

  /** The usable entries of a storage, whatever else it holds. */
  function Usable(storage: Storage): map<int, (Progress, real)> {
    map r | r in storage && storage[r].Object? && storage[r].updatedAt.Num? ::
      (Sanitized(storage[r]), storage[r].updatedAt.x)
  }

  /** Opening any recipe at any time gives the same from storage as from memory. */
  ghost predicate OpensAlike(storage: Storage, entries: map<int, (Progress, real)>) {
    forall r, now :: Read(storage, r, now) == Unlapsed(entries, r, now)
  }

  ghost predicate Mirrors(h: Hook, m: Lapsing) {
    h.recipe == m.recipe && h.progress == m.shown && ValidProgress(m.shown) && OpensAlike(h.storage, m.entries)
  }

  lemma ReadIsValid(storage: Storage, recipe: int, now: real)
    ensures ValidProgress(Read(storage, recipe, now))
  {
    assert IsInteger(0.0);
  }

  lemma WrittenOpensAlike(storage: Storage, entries: map<int, (Progress, real)>, recipe: int, p: Progress, t: real)
    requires OpensAlike(storage, entries) && ValidProgress(p)
    ensures OpensAlike(storage[recipe := Encoded(p, t)], entries[recipe := (p, t)])
  {
    var storage', entries' := storage[recipe := Encoded(p, t)], entries[recipe := (p, t)];
    forall r, now ensures Read(storage', r, now) == Unlapsed(entries', r, now) {
      if r == recipe {
        ReadBackExactly(storage', r, p, t, now);
      } else {
        assert Read(storage', r, now) == Read(storage, r, now) == Unlapsed(entries, r, now);
      }
    }
  }

  lemma ClearedOpensAlike(storage: Storage, entries: map<int, (Progress, real)>, recipe: int)
    requires OpensAlike(storage, entries)
    ensures OpensAlike(storage - {recipe}, entries - {recipe})
  {
    forall r, now ensures Read(storage - {recipe}, r, now) == Unlapsed(entries - {recipe}, r, now) {
      assert Read(storage, r, now) == Unlapsed(entries, r, now);
    }
  }

  lemma StepMirrors(h: Hook, m: Lapsing, action: Action, now: real)
    requires Mirrors(h, m) && ValidArgument(action)
    ensures Mirrors(Next(h, action, now), LapsingNext(m, action, now))
  {
    var p := h.progress;
    match action {
      case SetStepIndex(x) =>
        WrittenOpensAlike(h.storage, m.entries, h.recipe, p.(stepIndex := if x > 0.0 then x else 0.0), now);
      case SetServings(x) => WrittenOpensAlike(h.storage, m.entries, h.recipe, p.(servings := Some(x)), now);
      case ToggleIngredient(id) =>
        ToggledIsFlipped(p, id);
        WrittenOpensAlike(h.storage, m.entries, h.recipe, Toggled(p, id), now);
      case Reset => ClearedOpensAlike(h.storage, m.entries, h.recipe);
      case Render(r) => ReadIsValid(h.storage, r, now);
      case Reload => ReadIsValid(h.storage, h.recipe, now);
    }
  }

  lemma {:induction false} RunMirrors(h: Hook, m: Lapsing, actions: seq<Timed>)
    requires Mirrors(h, m) && forall i :: 0 <= i < |actions| ==> ValidArgument(actions[i].action)
    ensures Mirrors(RunHook(h, actions), RunLapsing(m, actions))
    decreases |actions|
  {
    if actions != [] {
      var action, now := actions[0].action, actions[0].now;
      StepMirrors(h, m, action, now);
      RunMirrors(Next(h, action, now), LapsingNext(m, action, now), actions[1..]);
    }
  }

  /** From any storage, over every sequence of steps, servings, toggles, resets, recipe switches and
      reloads at any times, the progress shown is that of an in-memory map whose entries lapse twelve
      hours after their last write. */
  lemma ProgressLapses(storage: Storage, recipe: int, start: real, actions: seq<Timed>)
    requires forall i :: 0 <= i < |actions| ==> ValidArgument(actions[i].action)
    ensures var entries := Usable(storage);
      RunHook(Opened(storage, recipe, start), actions).progress
      == RunLapsing(Lapsing(entries, recipe, Unlapsed(entries, recipe, start)), actions).shown
  {
    var entries := Usable(storage);
    ReadIsValid(storage, recipe, start);
    assert OpensAlike(storage, entries);
    RunMirrors(Opened(storage, recipe, start), Lapsing(entries, recipe, Unlapsed(entries, recipe, start)), actions);
  }

  /** Without the limits on arguments the promise fails: servings set to zero are gone after a reload. */
  lemma ZeroServingsAreForgotten()
    ensures var actions := [Timed(SetServings(0.0), 0.0), Timed(Reload, 1.0)];
      RunHook(Opened(map[], 7, 0.0), actions).progress != Kept(RunMemory(Memory(map[], 7), actions), 7)
  {
    var actions := [Timed(SetServings(0.0), 0.0), Timed(Reload, 1.0)];
    var h := Next(Opened(map[], 7, 0.0), SetServings(0.0), 0.0);
    assert actions[1..] == [Timed(Reload, 1.0)] && actions[1..][1..] == [];
    assert RunHook(h, actions[1..]) == Next(h, Reload, 1.0);
    assert Kept(RunMemory(Memory(map[], 7), actions), 7).servings == Some(0.0);
  }
}

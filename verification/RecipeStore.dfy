/** Saving a recipe and loading it again; what saving one recipe does to the others. */
module RecipeStore {
  import opened Prelude
  import opened Sorting
  import opened Recipes
  import opened Sequences

  // ----- The invariant -----

  ghost predicate TagsOk(db: Db) {
    (forall i, j :: 0 <= i < j < |db.tags| ==> db.tags[i].id != db.tags[j].id && db.tags[i].name != db.tags[j].name)
    && forall i :: 0 <= i < |db.tags| ==> 1 <= db.tags[i].id < db.nextTag
  }

  predicate IsTagId(db: Db, id: nat) { exists t :: t in db.tags && t.id == id }

  ghost predicate LinksOk(db: Db) {
    NoDuplicates(db.links) && forall l :: l in db.links ==> IsTagId(db, l.tagId) && HasRecipe(db, l.recipeId)
  }

  predicate HasRecipe(db: Db, id: nat) { IndexOfRecipe(db.recipes, id) < |db.recipes| }

  ghost predicate ChildrenOk(db: Db) {
    (forall x :: x in db.ingredients ==> HasRecipe(db, x.recipeId))
    && (forall x :: x in db.steps ==> HasRecipe(db, x.recipeId))
  }

  ghost predicate RecipesOk(db: Db) {
    (forall i, j :: 0 <= i < j < |db.recipes| ==> db.recipes[i].id != db.recipes[j].id)
    && forall i :: 0 <= i < |db.recipes| ==> db.recipes[i].id < db.nextRecipe
  }

  /** Recipe ids, tag ids and tag names are unique, links are not repeated, and every child row and
      link belongs to an existing recipe and tag. */
  ghost predicate WellFormed(db: Db) {
    RecipesOk(db) && TagsOk(db) && LinksOk(db) && ChildrenOk(db) && db.nextTag >= 1
  }

  // ----- Tags -----

  lemma {:induction false} DistinctSpec(names: seq<string>)
    ensures NoDuplicates(Distinct(names)) && forall n :: n in Distinct(names) <==> n in names
  {
    if names != [] {
      DistinctSpec(names[..|names| - 1]);
      assert names == names[..|names| - 1] + [names[|names| - 1]];
    }
  }

  /** The names stand in the order in which they first occur. */
  lemma {:induction false} DistinctInOrder(names: seq<string>, k: nat)
    requires k <= |names|
    ensures Distinct(names[..k]) <= Distinct(names)
  {
    if k < |names| {
      DistinctInOrder(names[..|names| - 1], k);
      assert names[..|names| - 1][..k] == names[..k];
    } else {
      assert names[..k] == names;
    }
  }

  /** The recipe has a tag of that name. */
  predicate HasTag(db: Db, recipeId: nat, name: string) {
    exists t :: t in db.tags && t.name == name && Link(recipeId, t.id) in db.links
  }

  lemma AppendTagKeeps(db: Db, name: string)
    requires TagsOk(db) && db.nextTag >= 1 && IndexOfTag(db.tags, name) == |db.tags|
    ensures TagsOk(db.(tags := db.tags + [Tag(db.nextTag, name)], nextTag := db.nextTag + 1))
  {
  }

  lemma AppendLinkKeeps(db: Db, l: Link)
    requires LinksOk(db) && l !in db.links && IsTagId(db, l.tagId) && HasRecipe(db, l.recipeId)
    ensures LinksOk(db.(links := db.links + [l]))
  {
  }

  /** From `db` to `db'` only tags and links of one recipe were added. */
  ghost predicate OnlyLinked(db: Db, db': Db, recipeId: nat) {
    db.tags <= db'.tags && db'.recipes == db.recipes && db'.ingredients == db.ingredients && db'.steps == db.steps
    && (forall l :: l in db.links ==> l in db'.links)
    && (forall l :: l in db'.links && l !in db.links ==> l.recipeId == recipeId)
  }

  lemma OnlyLinkedTwice(db: Db, db': Db, db'': Db, recipeId: nat)
    requires OnlyLinked(db, db', recipeId) && OnlyLinked(db', db'', recipeId)
    ensures OnlyLinked(db, db'', recipeId)
  {
  }

  /** Linking one more tag: nothing else changes for any recipe. */
  lemma LinkTagEffect(db: Db, recipeId: nat, name: string)
    requires WellFormed(db) && HasRecipe(db, recipeId) && !HasTag(db, recipeId, name)
    ensures var db' := LinkTag(db, recipeId, name);
      WellFormed(db') && OnlyLinked(db, db', recipeId)
      && forall n :: HasTag(db', recipeId, n) <==> n == name || HasTag(db, recipeId, n)
  {
    var i := IndexOfTag(db.tags, name);
    if i < |db.tags| {
      assert db.tags[i] in db.tags;
      var l := Link(recipeId, db.tags[i].id);
      AppendLinkKeeps(db, l);
      ExistingTagNames(db, recipeId, i);
    } else {
      var added := db.(tags := db.tags + [Tag(db.nextTag, name)], nextTag := db.nextTag + 1);
      AppendTagKeeps(db, name);
      NewTagLinks(db, recipeId, name);
    }
  }

  lemma ExistingTagNames(db: Db, recipeId: nat, i: nat)
    requires WellFormed(db) && i < |db.tags|
    ensures var db' := db.(links := db.links + [Link(recipeId, db.tags[i].id)]);
      forall n :: HasTag(db', recipeId, n) <==> n == db.tags[i].name || HasTag(db, recipeId, n)
  {
    var db' := db.(links := db.links + [Link(recipeId, db.tags[i].id)]);
    assert db.tags[i] in db'.tags;
    forall n ensures HasTag(db', recipeId, n) <==> n == db.tags[i].name || HasTag(db, recipeId, n) {
      if HasTag(db', recipeId, n) {
        var t :| t in db'.tags && t.name == n && Link(recipeId, t.id) in db'.links;
        if Link(recipeId, t.id) !in db.links {
          var j :| 0 <= j < |db.tags| && db.tags[j] == t;
          assert j == i;
        }
      }
    }
  }

  lemma NewTagLinks(db: Db, recipeId: nat, name: string)
    requires WellFormed(db) && HasRecipe(db, recipeId) && IndexOfTag(db.tags, name) == |db.tags|
    ensures var db' := LinkTag(db, recipeId, name);
      LinksOk(db') && forall n :: HasTag(db', recipeId, n) <==> n == name || HasTag(db, recipeId, n)
  {
    var added := db.(tags := db.tags + [Tag(db.nextTag, name)], nextTag := db.nextTag + 1);
    var created := Tag(db.nextTag, name);
    assert created in added.tags;
    forall l | l in added.links ensures IsTagId(added, l.tagId) && HasRecipe(added, l.recipeId) {
      var t :| t in db.tags && t.id == l.tagId;
      assert t in added.tags;
    }
    forall t | t in db.tags ensures t.id < db.nextTag { var j :| 0 <= j < |db.tags| && db.tags[j] == t; }
    var l := Link(recipeId, db.nextTag);
    assert l !in added.links;
    AppendLinkKeeps(added, l);
    var db' := LinkTag(db, recipeId, name);
    forall n ensures HasTag(db', recipeId, n) <==> n == name || HasTag(db, recipeId, n) {
      if n == name { assert created in db'.tags && Link(recipeId, created.id) in db'.links; }
      if HasTag(db, recipeId, n) {
        var t :| t in db.tags && t.name == n && Link(recipeId, t.id) in db.links;
        assert t in db'.tags && Link(recipeId, t.id) in db'.links;
      }
    }
  }

  lemma {:induction false} LinkTagsEffect(db: Db, recipeId: nat, names: seq<string>)
    requires WellFormed(db) && HasRecipe(db, recipeId) && NoDuplicates(names)
    requires forall n :: n in names ==> !HasTag(db, recipeId, n)
    ensures var db' := LinkTags(db, recipeId, names);
      WellFormed(db') && OnlyLinked(db, db', recipeId)
      && forall n :: HasTag(db', recipeId, n) <==> n in names || HasTag(db, recipeId, n)
  {
    if names != [] {
      var before, n := names[..|names| - 1], names[|names| - 1];
      assert names == before + [n] && n !in before;
      LinkTagsEffect(db, recipeId, before);
      var mid := LinkTags(db, recipeId, before);
      LinkTagEffect(mid, recipeId, n);
      OnlyLinkedTwice(db, mid, LinkTag(mid, recipeId, n), recipeId);
    }
  }

  // ----- Child rows -----

  /** The recipe exists and has no rows or links of its own yet. */
  ghost predicate Childless(db: Db, id: nat) {
    HasRecipe(db, id)
    && (forall x :: x in db.ingredients ==> x.recipeId != id)
    && (forall x :: x in db.steps ==> x.recipeId != id)
    && (forall l :: l in db.links ==> l.recipeId != id)
  }

  lemma OwnPart<T>(before: seq<T>, rows: seq<T>, own: T -> bool, key: T -> int)
    requires (forall x :: x in before ==> !own(x)) && (forall x :: x in rows ==> own(x)) && SortedBy(rows, key)
    ensures SortBy(Filter(before + rows, own), key) == rows
  {
    FilterConcat(before, rows, own);
    FilterNone(before, own);
    FilterAll(rows, own);
    SortKeepsSorted(rows, key);
    assert [] + rows == rows;
  }

  lemma OtherPart<T>(before: seq<T>, rows: seq<T>, own: T -> bool)
    requires forall x :: x in rows ==> !own(x)
    ensures Filter(before + rows, own) == Filter(before, own)
  {
    FilterConcat(before, rows, own);
    FilterNone(rows, own);
    assert Filter(before, own) + [] == Filter(before, own);
  }

  lemma OwnRows(db: Db, id: nat, r: RecipeRequest)
    requires Childless(db, id)
    ensures FindIngredients(SavedRows(db, id, r), id) == IngredientRows(db.nextIngredient, id, r.ingredients)
    ensures FindSteps(SavedRows(db, id, r), id) == StepRows(db.nextStep, id, r.steps)
  {
    OwnPart(db.ingredients, IngredientRows(db.nextIngredient, id, r.ingredients), OwnIngredient(id), SortOrderOf);
    OwnPart(db.steps, StepRows(db.nextStep, id, r.steps), OwnStep(id), NumberOf);
  }

  lemma OtherRows(db: Db, id: nat, other: nat, r: RecipeRequest)
    requires other != id
    ensures FindIngredients(SavedRows(db, id, r), other) == FindIngredients(db, other)
    ensures FindSteps(SavedRows(db, id, r), other) == FindSteps(db, other)
  {
    OtherPart(db.ingredients, IngredientRows(db.nextIngredient, id, r.ingredients), OwnIngredient(other));
    OtherPart(db.steps, StepRows(db.nextStep, id, r.steps), OwnStep(other));
  }

  /** A tag added later has an id no earlier tag has. */
  lemma AddedTagIsNew(db: Db, db': Db, j: nat)
    requires TagsOk(db') && db.tags <= db'.tags && |db.tags| <= j < |db'.tags|
    ensures !IsTagId(db, db'.tags[j].id)
  {
    forall t | t in db.tags ensures t.id != db'.tags[j].id {
      var i :| 0 <= i < |db.tags| && db.tags[i] == t;
      assert db'.tags[i] == t;
    }
  }

  lemma AddedTagUnlinked(db: Db, db': Db, id: nat, other: nat, t: Tag)
    requires LinksOk(db) && TagsOk(db') && OnlyLinked(db, db', id) && other != id
    requires t in db'.tags[|db.tags|..]
    ensures Link(other, t.id) !in db'.links
  {
    var j :| |db.tags| <= j < |db'.tags| && db'.tags[j] == t;
    AddedTagIsNew(db, db', j);
  }

  /** New tags and links of one recipe do not show in another. */
  lemma OtherTags(db: Db, db': Db, id: nat, other: nat, rank: string -> int)
    requires LinksOk(db) && TagsOk(db') && OnlyLinked(db, db', id) && other != id
    ensures FindTags(db', other, rank) == FindTags(db, other, rank)
  {
    var extra := db'.tags[|db.tags|..];
    assert db'.tags == db.tags + extra;
    forall t | t in extra ensures !LinkedTo(db'.links, other)(t) { AddedTagUnlinked(db, db', id, other, t); }
    OtherPart(db.tags, extra, LinkedTo(db'.links, other));
    FilterAgrees(db.tags, LinkedTo(db'.links, other), LinkedTo(db.links, other));
  }

  // ----- Round trip -----

  /** The detail shows the request: ingredients in order numbered from 0, steps in order numbered
      from 1, the default servings when none are given, and the distinct tags sorted by name. */
  ghost predicate Shows(d: Detail, id: nat, r: RecipeRequest, rank: string -> int) {
    d.recipe.id == id && d.recipe.title == r.title && d.recipe.description == r.description
    && d.recipe.servingsBase == (if r.servingsBase.Some? then r.servingsBase.value else 4)
    && d.recipe.prepTime == r.prepTime && d.recipe.cookTime == r.cookTime && d.recipe.notes == r.notes
    && |d.ingredients| == |r.ingredients|
    && (forall i :: 0 <= i < |r.ingredients| ==>
          var x := d.ingredients[i];
          x.name == r.ingredients[i].name && x.amount == RoundCents(r.ingredients[i].amount)
          && x.unit == r.ingredients[i].unit && x.sortOrder == i)
    && |d.steps| == |r.steps|
    && (forall i :: 0 <= i < |r.steps| ==>
          var x := d.steps[i];
          x.title == r.steps[i].title && x.content == r.steps[i].content
          && x.timer == r.steps[i].timer && x.number == i + 1)
    && ShowsTags(d.tags, r, rank)
  }

  /** The tags asked for, each once, sorted by name. */
  ghost predicate ShowsTags(ts: seq<Tag>, r: RecipeRequest, rank: string -> int) {
    (forall i, j :: 0 <= i < j < |ts| ==> ts[i].name != ts[j].name)
    && SortedBy(ts, NameRank(rank))
    && (forall n :: Named(ts, n) <==> r.tags.Some? && n in r.tags.value)
  }

  predicate Named(ts: seq<Tag>, n: string) { exists t :: t in ts && t.name == n }

  /** The tags listed for a recipe are those it has, each once, by name. */
  lemma FindTagsSpec(db: Db, id: nat, rank: string -> int)
    requires WellFormed(db)
    ensures var ts := FindTags(db, id, rank);
      SortedBy(ts, NameRank(rank))
      && (forall n :: Named(ts, n) <==> HasTag(db, id, n))
      && (forall i, j :: 0 <= i < j < |ts| ==> ts[i].name != ts[j].name)
  {
    var found := Filter(db.tags, LinkedTo(db.links, id));
    var ts := FindTags(db, id, rank);
    FilterIn(db.tags, LinkedTo(db.links, id));
    SortByCorrect(found, NameRank(rank));
    SameElements(found, ts);
    forall n ensures Named(ts, n) <==> HasTag(db, id, n) {
      if t :| t in ts && t.name == n { assert t in found; }
      if HasTag(db, id, n) {
        var t :| t in db.tags && t.name == n && Link(id, t.id) in db.links;
        assert t in found;
      }
    }
    NoDuplicatesPermutes(found, ts);
    forall i, j | 0 <= i < j < |ts| ensures ts[i].name != ts[j].name {
      assert ts[i] in ts && ts[j] in ts && ts[i] != ts[j];
      TagNamesDiffer(db, ts[i], ts[j]);
    }
  }

  lemma TagNamesDiffer(db: Db, t: Tag, u: Tag)
    requires TagsOk(db) && t in db.tags && u in db.tags && t != u
    ensures t.name != u.name && t.id != u.id
  {
    var i :| 0 <= i < |db.tags| && db.tags[i] == t;
    var j :| 0 <= j < |db.tags| && db.tags[j] == u;
    assert i < j || j < i;
  }

  lemma {:induction false} MultiplicityOne<T>(s: seq<T>)
    ensures NoDuplicates(s) <==> forall x :: x in s ==> multiset(s)[x] == 1
  {
    if s != [] {
      var rest := s[1..];
      assert s == [s[0]] + rest;
      MultiplicityOne(rest);
      if NoDuplicates(s) {
        assert s[0] !in rest;
        forall i, j | 0 <= i < j < |rest| ensures rest[i] != rest[j] { assert s[i + 1] != s[j + 1]; }
      }
      if forall x :: x in s ==> multiset(s)[x] == 1 {
        assert multiset(s)[s[0]] == 1 + multiset(rest)[s[0]];
        assert s[0] !in multiset(rest);
        forall x | x in rest ensures multiset(rest)[x] == 1 { assert x in s && x in multiset(rest); }
      }
    }
  }

  lemma NoDuplicatesPermutes<T>(s: seq<T>, t: seq<T>)
    requires NoDuplicates(s) && multiset(s) == multiset(t)
    ensures NoDuplicates(t)
  {
    SameElements(s, t);
    MultiplicityOne(s);
    MultiplicityOne(t);
  }

  /** Saving child rows for a recipe that has none. */
  lemma SaveChildrenEffect(db: Db, id: nat, r: RecipeRequest)
    requires WellFormed(db) && Childless(db, id)
    ensures var db' := SaveChildren(db, id, r);
      WellFormed(db') && OnlyLinked(SavedRows(db, id, r), db', id)
      && FindIngredients(db', id) == IngredientRows(db.nextIngredient, id, r.ingredients)
      && FindSteps(db', id) == StepRows(db.nextStep, id, r.steps)
      && (forall n :: HasTag(db', id, n) <==> n in TagNames(r))
  {
    var saved := SavedRows(db, id, r);
    SavedRowsKeep(db, id, r);
    TagNamesOnce(r);
    NoTagsYet(saved, id);
    LinkTagsEffect(saved, id, TagNames(r));
    OwnRows(db, id, r);
    var db' := LinkTags(saved, id, TagNames(r));
    assert db'.ingredients == saved.ingredients && db'.steps == saved.steps;
  }

  lemma TagNamesOnce(r: RecipeRequest)
    ensures NoDuplicates(TagNames(r)) && forall n :: n in TagNames(r) <==> r.tags.Some? && n in r.tags.value
  {
    if r.tags.Some? { DistinctSpec(r.tags.value); }
  }

  lemma NoTagsYet(db: Db, id: nat)
    requires forall l :: l in db.links ==> l.recipeId != id
    ensures forall n :: !HasTag(db, id, n)
  {
  }

  lemma SaveChildrenFrame(db: Db, id: nat, r: RecipeRequest, other: nat, rank: string -> int)
    requires WellFormed(db) && Childless(db, id) && other != id
    ensures LoadDetail(SaveChildren(db, id, r), other, rank) == LoadDetail(db, other, rank)
  {
    SaveChildrenEffect(db, id, r);
    SavedRowsKeep(db, id, r);
    OtherRows(db, id, other, r);
    OtherTags(SavedRows(db, id, r), SaveChildren(db, id, r), id, other, rank);
    LoadSame(db, SaveChildren(db, id, r), other, rank);
  }

  lemma SavedRowsKeep(db: Db, id: nat, r: RecipeRequest)
    requires WellFormed(db) && HasRecipe(db, id)
    ensures WellFormed(SavedRows(db, id, r)) && HasRecipe(SavedRows(db, id, r), id)
  {
    var saved := SavedRows(db, id, r);
    forall x | x in saved.ingredients ensures HasRecipe(saved, x.recipeId) {
      if x !in db.ingredients { assert x in IngredientRows(db.nextIngredient, id, r.ingredients); }
    }
    forall x | x in saved.steps ensures HasRecipe(saved, x.recipeId) {
      if x !in db.steps { assert x in StepRows(db.nextStep, id, r.steps); }
    }
  }

  lemma SavedColumns(d: Detail, id: nat, r: RecipeRequest, rank: string -> int, ingredient: nat, step: nat)
    requires d.recipe == ToRecipe(id, r) && ShowsTags(d.tags, r, rank)
    requires d.ingredients == IngredientRows(ingredient, id, r.ingredients) && d.steps == StepRows(step, id, r.steps)
    ensures Shows(d, id, r, rank)
  {
  }

  lemma ShowsRequest(db: Db, id: nat, r: RecipeRequest, rank: string -> int)
    requires WellFormed(db) && Childless(db, id)
    requires db.recipes[IndexOfRecipe(db.recipes, id)] == ToRecipe(id, r)
    ensures var d := LoadDetail(SaveChildren(db, id, r), id, rank); d.Some? && Shows(d.value, id, r, rank)
  {
    SaveChildrenEffect(db, id, r);
    var db' := SaveChildren(db, id, r);
    SavedTags(db', id, r, rank);
    SavedColumns(LoadDetail(db', id, rank).value, id, r, rank, db.nextIngredient, db.nextStep);
  }

  lemma SavedTags(db: Db, id: nat, r: RecipeRequest, rank: string -> int)
    requires WellFormed(db) && forall n :: HasTag(db, id, n) <==> n in TagNames(r)
    ensures ShowsTags(FindTags(db, id, rank), r, rank)
  {
    FindTagsSpec(db, id, rank);
    TagNamesOnce(r);
  }

  lemma AppendedRecipe(rs: seq<Recipe>, x: Recipe, id: nat)
    ensures IndexOfRecipe(rs + [x], id) ==
      if IndexOfRecipe(rs, id) < |rs| then IndexOfRecipe(rs, id) else if x.id == id then |rs| else |rs| + 1
  {
    IndexInConcat(rs, [x], HasRecipeId(id));
  }

  /** The row with that id. */
  function Found(rs: seq<Recipe>, id: nat): Option<Recipe> { First(rs, HasRecipeId(id)) }

  lemma AddRecipeKeeps(db: Db, r: RecipeRequest)
    requires WellFormed(db)
    ensures WellFormed(AddRecipe(db, r)) && Childless(AddRecipe(db, r), db.nextRecipe)
    ensures IndexOfRecipe(AddRecipe(db, r).recipes, db.nextRecipe) == |db.recipes|
  {
    var db' := AddRecipe(db, r);
    AppendedRecipe(db.recipes, ToRecipe(db.nextRecipe, r), db.nextRecipe);
    forall id | HasRecipe(db, id) ensures id != db.nextRecipe && HasRecipe(db', id) {
      AppendedRecipe(db.recipes, ToRecipe(db.nextRecipe, r), id);
    }
  }

  lemma AddRecipeFrame(db: Db, r: RecipeRequest, other: nat, rank: string -> int)
    requires other != db.nextRecipe
    ensures LoadDetail(AddRecipe(db, r), other, rank) == LoadDetail(db, other, rank)
  {
    AppendedRecipe(db.recipes, ToRecipe(db.nextRecipe, r), other);
    LoadSame(db, AddRecipe(db, r), other, rank);
  }

  lemma LoadSame(db: Db, db': Db, id: nat, rank: string -> int)
    requires Found(db'.recipes, id) == Found(db.recipes, id)
    requires FindIngredients(db', id) == FindIngredients(db, id) && FindSteps(db', id) == FindSteps(db, id)
    requires FindTags(db', id, rank) == FindTags(db, id, rank)
    ensures LoadDetail(db', id, rank) == LoadDetail(db, id, rank)
  {
  }

  /** Creating a recipe and loading it shows the request. */
  lemma CreateRoundTrip(db: Db, r: RecipeRequest, rank: string -> int)
    requires WellFormed(db) && Fits(r)
    ensures var db', id := Create(db, r).value, db.nextRecipe;
      WellFormed(db') && LoadDetail(db', id, rank).Some? && Shows(LoadDetail(db', id, rank).value, id, r, rank)
  {
    AddRecipeKeeps(db, r);
    SaveChildrenEffect(AddRecipe(db, r), db.nextRecipe, r);
    ShowsRequest(AddRecipe(db, r), db.nextRecipe, r, rank);
  }

  /** Creating a recipe changes no other recipe's detail. */
  lemma CreateFrame(db: Db, r: RecipeRequest, other: nat, rank: string -> int)
    requires WellFormed(db) && Fits(r) && other != db.nextRecipe
    ensures LoadDetail(Create(db, r).value, other, rank) == LoadDetail(db, other, rank)
  {
    AddRecipeKeeps(db, r);
    SaveChildrenFrame(AddRecipe(db, r), db.nextRecipe, r, other, rank);
    AddRecipeFrame(db, r, other, rank);
  }

  // ----- Removing child rows -----

  lemma {:induction false} KeptIds(db: Db, id: nat)
    requires WellFormed(db)
    ensures LinksKept(db, id)
  {
    FilterIn(db.links, OtherLink(id));
    FilterIn(db.ingredients, OtherIngredient(id));
    FilterIn(db.steps, OtherStep(id));
  }

  ghost predicate LinksKept(db: Db, id: nat) {
    var db' := WithoutChildren(db, id);
    NoDuplicates(db'.links)
    && (forall l :: l in db'.links <==> l in db.links && l.recipeId != id)
    && (forall x :: x in db'.ingredients <==> x in db.ingredients && x.recipeId != id)
    && (forall x :: x in db'.steps <==> x in db.steps && x.recipeId != id)
  }

  /** Without one recipe's children the others show what they did. */
  lemma WithoutChildrenEffect(db: Db, id: nat, other: nat, rank: string -> int)
    requires WellFormed(db) && other != id
    ensures var db' := WithoutChildren(db, id);
      FindIngredients(db', other) == FindIngredients(db, other) && FindSteps(db', other) == FindSteps(db, other)
      && FindTags(db', other, rank) == FindTags(db, other, rank)
  {
    FilterTwice(db.ingredients, OwnIngredient(other), OtherIngredient(id));
    FilterTwice(db.steps, OwnStep(other), OtherStep(id));
    KeptIds(db, id);
    FilterAgrees(db.tags, LinkedTo(WithoutChildren(db, id).links, other), LinkedTo(db.links, other));
  }

  lemma ReplacedRecipe(db: Db, id: nat, r: RecipeRequest, other: nat)
    requires HasRecipe(db, id)
    ensures IndexOfRecipe(ReplaceRecipe(db, id, r).recipes, other) == IndexOfRecipe(db.recipes, other)
    ensures other != id ==> Found(ReplaceRecipe(db, id, r).recipes, other) == Found(db.recipes, other)
  {
    IndexSame(db.recipes, ReplaceRecipe(db, id, r).recipes, HasRecipeId(other));
  }

  lemma ClearedRecipe(db: Db, id: nat, r: RecipeRequest)
    requires WellFormed(db) && HasRecipe(db, id)
    ensures var cleared := WithoutChildren(ReplaceRecipe(db, id, r), id);
      WellFormed(cleared) && Childless(cleared, id)
      && IndexOfRecipe(cleared.recipes, id) == IndexOfRecipe(db.recipes, id)
  {
    var replaced := ReplaceRecipe(db, id, r);
    forall other ensures IndexOfRecipe(replaced.recipes, other) == IndexOfRecipe(db.recipes, other) {
      ReplacedRecipe(db, id, r, other);
    }
    assert RecipesOk(replaced) && LinksOk(replaced) && ChildrenOk(replaced);
    ClearKeeps(replaced, id);
  }

  lemma ClearedFrame(db: Db, id: nat, r: RecipeRequest, other: nat, rank: string -> int)
    requires WellFormed(db) && HasRecipe(db, id) && other != id
    ensures LoadDetail(WithoutChildren(ReplaceRecipe(db, id, r), id), other, rank) == LoadDetail(db, other, rank)
  {
    var cleared := WithoutChildren(ReplaceRecipe(db, id, r), id);
    ReplacedRecipe(db, id, r, other);
    WithoutChildrenEffect(db, id, other, rank);
    assert FindTags(cleared, other, rank) == FindTags(WithoutChildren(db, id), other, rank);
    LoadSame(db, cleared, other, rank);
  }

  lemma ClearKeeps(db: Db, id: nat)
    requires WellFormed(db) && HasRecipe(db, id)
    ensures WellFormed(WithoutChildren(db, id)) && Childless(WithoutChildren(db, id), id)
  {
    KeptIds(db, id);
  }

  /** Updating a recipe and loading it shows the new request and nothing of the old one. */
  lemma UpdateRoundTrip(db: Db, id: nat, r: RecipeRequest, rank: string -> int)
    requires WellFormed(db) && Fits(r) && HasRecipe(db, id)
    ensures var db' := Update(db, id, r).value;
      WellFormed(db') && LoadDetail(db', id, rank).Some? && Shows(LoadDetail(db', id, rank).value, id, r, rank)
  {
    ClearedRecipe(db, id, r);
    var cleared := WithoutChildren(ReplaceRecipe(db, id, r), id);
    SaveChildrenEffect(cleared, id, r);
    ShowsRequest(cleared, id, r, rank);
  }

  /** Updating a recipe changes no other recipe's detail. */
  lemma UpdateFrame(db: Db, id: nat, r: RecipeRequest, other: nat, rank: string -> int)
    requires WellFormed(db) && Fits(r) && HasRecipe(db, id) && other != id
    ensures LoadDetail(Update(db, id, r).value, other, rank) == LoadDetail(db, other, rank)
  {
    ClearedRecipe(db, id, r);
    SaveChildrenFrame(WithoutChildren(ReplaceRecipe(db, id, r), id), id, r, other, rank);
    ClearedFrame(db, id, r, other, rank);
  }

  lemma DropKeepsRecipes(db: Db, i: nat)
    requires RecipesOk(db) && i < |db.recipes|
    ensures RecipesOk(db.(recipes := Drop(db.recipes, i)))
    ensures Found(Drop(db.recipes, i), db.recipes[i].id) == None
  {
    var rs := Drop(db.recipes, i);
    forall j | 0 <= j < |rs| ensures rs[j].id != db.recipes[i].id && rs[j].id < db.nextRecipe {
      DroppedRow(db.recipes, i, j);
    }
    forall j, k | 0 <= j < k < |rs| ensures rs[j].id != rs[k].id {
      DroppedRow(db.recipes, i, j);
      DroppedRow(db.recipes, i, k);
    }
  }

  lemma DeleteKeeps(db: Db, id: nat)
    requires WellFormed(db) && HasRecipe(db, id)
    ensures WellFormed(Delete(db, id))
  {
    var db', i := Delete(db, id), IndexOfRecipe(db.recipes, id);
    DropKeepsRecipes(db, i);
    KeptIds(db, id);
    forall x | HasRecipe(db, x) && x != id ensures HasRecipe(db', x) { FirstAfterDrop(db.recipes, i, HasRecipeId(x)); }
    assert RecipesOk(db') && TagsOk(db');
    assert LinksOk(db') && ChildrenOk(db');
  }

  /** Deleting a recipe changes no other recipe's detail. */
  lemma DeleteFrame(db: Db, id: nat, other: nat, rank: string -> int)
    requires WellFormed(db) && other != id
    ensures LoadDetail(Delete(db, id), other, rank) == LoadDetail(db, other, rank)
  {
    if HasRecipe(db, id) {
      var db' := Delete(db, id);
      FirstAfterDrop(db.recipes, IndexOfRecipe(db.recipes, id), HasRecipeId(other));
      WithoutChildrenEffect(db, id, other, rank);
      var kept := WithoutChildren(db, id);
      assert db'.ingredients == kept.ingredients && db'.steps == kept.steps;
      assert db'.tags == kept.tags && db'.links == kept.links;
      assert FindTags(db', other, rank) == FindTags(kept, other, rank);
      LoadSame(db, db', other, rank);
    }
  }

  /** Deleting a recipe leaves nothing of it. */
  lemma DeleteEffect(db: Db, id: nat, rank: string -> int)
    requires WellFormed(db)
    ensures var db' := Delete(db, id);
      WellFormed(db') && LoadDetail(db', id, rank) == None
      && (forall x :: x in db'.ingredients ==> x.recipeId != id) && (forall x :: x in db'.steps ==> x.recipeId != id)
      && (forall l :: l in db'.links ==> l.recipeId != id)
  {
    if HasRecipe(db, id) {
      DeleteKeeps(db, id);
      DropKeepsRecipes(db, IndexOfRecipe(db.recipes, id));
      KeptIds(db, id);
    }
  }

  // ----- Runs -----

  datatype Action =
    | Creating(request: RecipeRequest)
    | Updating(id: nat, request: RecipeRequest)
    | Deleting(id: nat)
    | CreatingTag(name: string)

  lemma AddTagKeeps(db: Db, name: string)
    requires WellFormed(db)
    ensures WellFormed(AddTag(db, name))
  {
    if IndexOfTag(db.tags, name) == |db.tags| && FitsTagName(name) {
      AppendTagKeeps(db, name);
      forall l | l in db.links ensures IsTagId(AddTag(db, name), l.tagId) {
        var t :| t in db.tags && t.id == l.tagId;
        assert t in AddTag(db, name).tags;
      }
    }
  }

  lemma AddTagNames(db: Db, name: string)
    ensures var ts := AddTag(db, name).tags;
      db.tags <= ts && |ts| <= |db.tags| + 1 && (Named(ts, name) <==> FitsTagName(name) || Named(db.tags, name))
  {
    var i, ts := IndexOfTag(db.tags, name), AddTag(db, name).tags;
    if i < |db.tags| {
      assert db.tags[i] in db.tags;
    } else if FitsTagName(name) {
      assert ts[|db.tags|] in ts;
    }
  }

  lemma AddTagFrame(db: Db, name: string, id: nat, rank: string -> int)
    requires WellFormed(db)
    ensures LoadDetail(AddTag(db, name), id, rank) == LoadDetail(db, id, rank)
  {
    if IndexOfTag(db.tags, name) == |db.tags| && FitsTagName(name) {
      NewTagUnlinked(db, name);
      OtherPart(db.tags, [Tag(db.nextTag, name)], LinkedTo(db.links, id));
      LoadSame(db, AddTag(db, name), id, rank);
    }
  }

  /** Creating a tag gives the table a tag of that name, if the name fits, and changes no detail. */
  lemma CreateTagEffect(db: Db, name: string, id: nat, rank: string -> int)
    requires WellFormed(db)
    ensures var db' := AddTag(db, name);
      WellFormed(db') && db.tags <= db'.tags && |db'.tags| <= |db.tags| + 1
      && (Named(db'.tags, name) <==> FitsTagName(name) || Named(db.tags, name))
      && LoadDetail(db', id, rank) == LoadDetail(db, id, rank)
  {
    AddTagKeeps(db, name);
    AddTagNames(db, name);
    AddTagFrame(db, name, id, rank);
  }

  lemma NewTagUnlinked(db: Db, name: string)
    requires TagsOk(db) && LinksOk(db)
    ensures forall l :: l in db.links ==> l.tagId != db.nextTag
  {
    forall l | l in db.links ensures l.tagId != db.nextTag {
      var t :| t in db.tags && t.id == l.tagId;
      var j :| 0 <= j < |db.tags| && db.tags[j] == t;
    }
  }

  function Act(db: Db, a: Action): Db {
    match a
    case Creating(r) => if Create(db, r).Some? then Create(db, r).value else db
    case Updating(id, r) => if Update(db, id, r).Some? then Update(db, id, r).value else db
    case Deleting(id) => Delete(db, id)
    case CreatingTag(name) => AddTag(db, name)
  }

  function Run(actions: seq<Action>): Db {
    if actions == [] then EMPTY else Act(Run(actions[..|actions| - 1]), actions[|actions| - 1])
  }

  lemma ActKeeps(db: Db, action: Action)
    requires WellFormed(db)
    ensures WellFormed(Act(db, action))
  {
    var rank := (n: string) => 0;
    match action {
      case Creating(r) => if Fits(r) { CreateRoundTrip(db, r, rank); }
      case Updating(id, r) => if Update(db, id, r).Some? { UpdateRoundTrip(db, id, r, rank); }
      case Deleting(id) => DeleteEffect(db, id, rank);
      case CreatingTag(name) => AddTagKeeps(db, name);
    }
  }

  /** Over every run of creations, updates, deletions and tag creations, recipe ids and tag names stay
      unique, links are not repeated, and no child row or link is left without its recipe and tag. */
  lemma {:induction false} ReachableIsWellFormed(actions: seq<Action>)
    ensures WellFormed(Run(actions))
  {
    if actions != [] {
      ReachableIsWellFormed(actions[..|actions| - 1]);
      ActKeeps(Run(actions[..|actions| - 1]), actions[|actions| - 1]);
    }
  }

  // ----- Ids of child rows -----

  function IngredientId(i: Ingredient): int { i.id }

  function StepId(s: CookStep): int { s.id }

  /** Child rows stand in the order of their ids, and the next ids are greater than all of them. */
  ghost predicate ChildIdsOk(db: Db) {
    StrictlySortedBy(db.ingredients, IngredientId) && (forall x :: x in db.ingredients ==> x.id < db.nextIngredient)
    && StrictlySortedBy(db.steps, StepId) && forall x :: x in db.steps ==> x.id < db.nextStep
  }

  lemma SelectedFollows<T>(s: seq<T>, p: T -> bool, key: T -> int, y: T)
    requires s != [] && StrictlySortedBy(s, key) && y in Filter(s[1..], p)
    ensures key(s[0]) < key(y)
  {
    FilterIn(s[1..], p);
    var i :| 0 <= i < |s[1..]| && s[1..][i] == y;
    assert s[i + 1] == y;
  }

  lemma {:induction false} FilterKeepsStrict<T>(s: seq<T>, p: T -> bool, key: T -> int)
    requires StrictlySortedBy(s, key)
    ensures StrictlySortedBy(Filter(s, p), key)
  {
    if s != [] {
      var rest := Filter(s[1..], p);
      FilterKeepsStrict(s[1..], p, key);
      forall j | 0 <= j < |rest| ensures key(s[0]) < key(rest[j]) { SelectedFollows(s, p, key, rest[j]); }
    }
  }

  lemma StrictAppend<T>(s: seq<T>, t: seq<T>, key: T -> int, next: int)
    requires StrictlySortedBy(s, key) && StrictlySortedBy(t, key)
    requires (forall x :: x in s ==> key(x) < next) && forall x :: x in t ==> next <= key(x)
    ensures StrictlySortedBy(s + t, key)
  {
    forall i, j | 0 <= i < j < |s + t| ensures key((s + t)[i]) < key((s + t)[j]) {
      if i < |s| { assert s[i] in s; }
      if j >= |s| { assert t[j - |s|] in t; }
    }
  }

  lemma {:induction false} LinkTagsRows(db: Db, id: nat, names: seq<string>)
    ensures var db' := LinkTags(db, id, names);
      db'.ingredients == db.ingredients && db'.steps == db.steps
      && db'.nextIngredient == db.nextIngredient && db'.nextStep == db.nextStep
  {
    if names != [] { LinkTagsRows(db, id, names[..|names| - 1]); }
  }

  lemma SavedChildIds(db: Db, id: nat, r: RecipeRequest)
    requires ChildIdsOk(db)
    ensures ChildIdsOk(SaveChildren(db, id, r))
  {
    StrictAppend(db.ingredients, IngredientRows(db.nextIngredient, id, r.ingredients), IngredientId, db.nextIngredient);
    StrictAppend(db.steps, StepRows(db.nextStep, id, r.steps), StepId, db.nextStep);
    LinkTagsRows(SavedRows(db, id, r), id, TagNames(r));
  }

  lemma ClearedChildIds(db: Db, id: nat)
    requires ChildIdsOk(db)
    ensures ChildIdsOk(WithoutChildren(db, id))
  {
    FilterKeepsStrict(db.ingredients, OtherIngredient(id), IngredientId);
    FilterKeepsStrict(db.steps, OtherStep(id), StepId);
    FilterIn(db.ingredients, OtherIngredient(id));
    FilterIn(db.steps, OtherStep(id));
  }

  /** Over every run ingredient ids and step ids are never used twice: rows stand in the order in which
      they were saved. */
  lemma {:induction false} ReachableChildIds(actions: seq<Action>)
    ensures ChildIdsOk(Run(actions))
  {
    if actions != [] {
      var db := Run(actions[..|actions| - 1]);
      ReachableChildIds(actions[..|actions| - 1]);
      match actions[|actions| - 1] {
        case Creating(r) => if Fits(r) { SavedChildIds(AddRecipe(db, r), db.nextRecipe, r); }
        case Updating(id, r) =>
          if Update(db, id, r).Some? {
            ClearedChildIds(ReplaceRecipe(db, id, r), id);
            SavedChildIds(WithoutChildren(ReplaceRecipe(db, id, r), id), id, r);
          }
        case Deleting(id) => if HasRecipe(db, id) { ClearedChildIds(db, id); }
        case CreatingTag(name) =>
      }
    }
  }

  // ----- What is refused -----

  predicate OutOfRange(x: Option<int>) { x.Some? && (x.value > 2147483647 || x.value < -2147483648) }

  predicate IngredientRefused(x: IngredientRequest) {
    |x.name| > 255 || RoundCents(x.amount) >= 100000000.0 || RoundCents(x.amount) <= -100000000.0
  }

  predicate StepRefused(x: StepRequest) {
    (x.title.Some? && |x.title.value| > 255)
    || (x.timer.Some? && (x.timer.value <= 0 || x.timer.value > 2147483647))
  }

  /** A recipe is refused exactly when some column cannot hold its value: a title or name of more than 255
      characters, servings or a timer not above zero, a number beyond 32 bits, an amount of a hundred
      million, or a tag of more than 100 characters. */
  lemma RefusedExactly(r: RecipeRequest)
    ensures !Fits(r) <==>
      |r.title| > 255
      || (r.servingsBase.Some? && (r.servingsBase.value <= 0 || r.servingsBase.value > 2147483647))
      || OutOfRange(r.prepTime) || OutOfRange(r.cookTime)
      || (exists i :: 0 <= i < |r.ingredients| && IngredientRefused(r.ingredients[i]))
      || (exists i :: 0 <= i < |r.steps| && StepRefused(r.steps[i]))
      || (r.tags.Some? && exists i :: 0 <= i < |r.tags.value| && |r.tags.value[i]| > 100)
  {
  }

  /** An amount comes back unchanged exactly when it has at most two decimals. */
  lemma AmountKeptExactly(x: real)
    ensures RoundCents(x) == x <==> IsWhole(x * 100.0)
  {
    if x >= 0.0 { WholeKept(x * 100.0); } else { WholeKept(-(x * 100.0)); NegatedWhole(x * 100.0); }
  }

  /** An amount is stored in whole cents, the nearest ones, the larger in size when two are nearest. */
  lemma AmountIsNearest(x: real)
    ensures IsWhole(RoundCents(x) * 100.0)
    ensures -0.5 <= RoundCents(x) * 100.0 - x * 100.0 <= 0.5
    ensures RoundCents(x) * 100.0 - x * 100.0 == 0.5 ==> x > 0.0
    ensures RoundCents(x) * 100.0 - x * 100.0 == -0.5 ==> x < 0.0
  {
    var y := if x >= 0.0 then x * 100.0 + 0.5 else 0.5 - x * 100.0;
    var n := y.Floor;
    assert n as real <= y < n as real + 1.0;
    assert RoundCents(x) * 100.0 == if x >= 0.0 then n as real else -(n as real);
    NegatedWhole(n as real);
  }

  /** An eighth is stored as 0.13. */
  lemma EighthIsRounded()
    ensures RoundCents(0.125) == 0.13 && RoundCents(0.125) != 0.125
  {
    assert 0.125 * 100.0 + 0.5 == 13.0;
  }

  predicate IsWhole(y: real) { y.Floor as real == y }

  lemma WholeKept(y: real)
    ensures (y + 0.5).Floor as real == y <==> IsWhole(y)
  {
    if IsWhole(y) { assert (y + 0.5).Floor == y.Floor; }
  }

  lemma NegatedWhole(y: real)
    ensures IsWhole(-y) <==> IsWhole(y)
  {
    if IsWhole(y) { assert (-y).Floor == -y.Floor; }
    if IsWhole(-y) { assert y.Floor == -(-y).Floor; }
  }
}

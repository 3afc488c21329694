/** The recipe tables and the transactions of backend-python/app/recipe/service.py. Rows stand in id
    order; `rank` is the database's collation, which orders names. */
module Recipes {
  import opened Prelude
  import opened Sequences
  import opened Sorting

  datatype Recipe = Recipe(id: nat, title: string, description: Option<string>, servingsBase: int,
                           prepTime: Option<int>, cookTime: Option<int>, notes: Option<string>)

  datatype Ingredient = Ingredient(id: nat, recipeId: nat, name: string, amount: real, unit: Option<string>,
                                   sortOrder: int)

  datatype CookStep = CookStep(id: nat, recipeId: nat, number: int, title: Option<string>, content: string,
                               timer: Option<int>)

  datatype Tag = Tag(id: nat, name: string)

  datatype Link = Link(recipeId: nat, tagId: nat)

  datatype Db = Db(recipes: seq<Recipe>, ingredients: seq<Ingredient>, steps: seq<CookStep>, tags: seq<Tag>,
                   links: seq<Link>, nextRecipe: nat, nextIngredient: nat, nextStep: nat, nextTag: nat)

  datatype IngredientRequest = IngredientRequest(name: string, amount: real, unit: Option<string>)

  datatype StepRequest = StepRequest(title: Option<string>, content: string, timer: Option<int>)

  datatype RecipeRequest = RecipeRequest(title: string, description: Option<string>, servingsBase: Option<int>,
                                         prepTime: Option<int>, cookTime: Option<int>, notes: Option<string>,
                                         ingredients: seq<IngredientRequest>, steps: seq<StepRequest>,
                                         tags: Option<seq<string>>)

  datatype Detail = Detail(recipe: Recipe, ingredients: seq<Ingredient>, steps: seq<CookStep>, tags: seq<Tag>)

  const DEFAULT_SERVINGS_BASE := 4

  // ----- Queries -----

  function OwnIngredient(recipeId: nat): Ingredient -> bool { (i: Ingredient) => i.recipeId == recipeId }

  function OwnStep(recipeId: nat): CookStep -> bool { (s: CookStep) => s.recipeId == recipeId }

  function OtherIngredient(recipeId: nat): Ingredient -> bool { (i: Ingredient) => i.recipeId != recipeId }

  function OtherStep(recipeId: nat): CookStep -> bool { (s: CookStep) => s.recipeId != recipeId }

  function OtherLink(recipeId: nat): Link -> bool { (l: Link) => l.recipeId != recipeId }

  function LinkedTo(links: seq<Link>, recipeId: nat): Tag -> bool { (t: Tag) => Link(recipeId, t.id) in links }

  function SortOrderOf(i: Ingredient): int { i.sortOrder }

  function NumberOf(s: CookStep): int { s.number }

  function NameRank(rank: string -> int): Tag -> int { (t: Tag) => rank(t.name) }

  function HasRecipeId(id: nat): Recipe -> bool { (r: Recipe) => r.id == id }

  function HasTagName(name: string): Tag -> bool { (t: Tag) => t.name == name }

  function IndexOfRecipe(rs: seq<Recipe>, id: nat): (i: nat)
    ensures i <= |rs|
    ensures i < |rs| ==> rs[i].id == id
    ensures forall j :: 0 <= j < i ==> rs[j].id != id
  {
    IndexWhere(rs, HasRecipeId(id))
  }

  function IndexOfTag(ts: seq<Tag>, name: string): (i: nat)
    ensures i <= |ts|
    ensures i < |ts| ==> ts[i].name == name
    ensures forall j :: 0 <= j < i ==> ts[j].name != name
  {
    IndexWhere(ts, HasTagName(name))
  }

  function FindIngredients(db: Db, id: nat): seq<Ingredient> {
    SortBy(Filter(db.ingredients, OwnIngredient(id)), SortOrderOf)
  }

  function FindSteps(db: Db, id: nat): seq<CookStep> { SortBy(Filter(db.steps, OwnStep(id)), NumberOf) }

  function FindTags(db: Db, id: nat, rank: string -> int): seq<Tag> {
    SortBy(Filter(db.tags, LinkedTo(db.links, id)), NameRank(rank))
  }

  function LoadDetail(db: Db, id: nat, rank: string -> int): Option<Detail> {
    var i := IndexOfRecipe(db.recipes, id);
    if i == |db.recipes| then None
    else Some(Detail(db.recipes[i], FindIngredients(db, id), FindSteps(db, id), FindTags(db, id, rank)))
  }

  // ----- What the columns accept -----

  predicate IsInt32(x: int) { -0x8000_0000 <= x <= 0x7fff_ffff }

  predicate FitsInt(x: Option<int>) { x.Some? ==> IsInt32(x.value) }

  predicate FitsText(t: Option<string>) { t.Some? ==> |t.value| <= 255 }

  /** NUMERIC(10, 2) keeps two decimals, halves away from zero. */
  function RoundCents(x: real): real {
    if x >= 0.0 then ((x * 100.0 + 0.5).Floor as real) / 100.0 else -(((0.5 - x * 100.0).Floor as real) / 100.0)
  }

  function Servings(r: RecipeRequest): int {
    if r.servingsBase.Some? then r.servingsBase.value else DEFAULT_SERVINGS_BASE
  }

  predicate Fits(r: RecipeRequest) {
    |r.title| <= 255 && Servings(r) > 0 && IsInt32(Servings(r)) && FitsInt(r.prepTime) && FitsInt(r.cookTime)
    && (forall i :: 0 <= i < |r.ingredients| ==>
          |r.ingredients[i].name| <= 255 && -100000000.0 < RoundCents(r.ingredients[i].amount) < 100000000.0)
    && (forall i :: 0 <= i < |r.steps| ==>
          FitsText(r.steps[i].title) && FitsInt(r.steps[i].timer)
          && (r.steps[i].timer.Some? ==> r.steps[i].timer.value > 0))
    && (r.tags.Some? ==> forall i :: 0 <= i < |r.tags.value| ==> FitsTagName(r.tags.value[i]))
  }

  // ----- Changes -----

  function ToRecipe(id: nat, r: RecipeRequest): Recipe {
    Recipe(id, r.title, r.description, Servings(r), r.prepTime, r.cookTime, r.notes)
  }

  function ToIngredient(first: nat, recipeId: nat, index: nat, r: IngredientRequest): Ingredient {
    Ingredient(first + index, recipeId, r.name, RoundCents(r.amount), r.unit, index)
  }

  function ToStep(first: nat, recipeId: nat, index: nat, r: StepRequest): CookStep {
    CookStep(first + index, recipeId, index + 1, r.title, r.content, r.timer)
  }

  function IngredientRows(first: nat, recipeId: nat, rs: seq<IngredientRequest>): seq<Ingredient> {
    seq(|rs|, i requires 0 <= i < |rs| => ToIngredient(first, recipeId, i, rs[i]))
  }

  function StepRows(first: nat, recipeId: nat, rs: seq<StepRequest>): seq<CookStep> {
    seq(|rs|, i requires 0 <= i < |rs| => ToStep(first, recipeId, i, rs[i]))
  }

  /** Each name once, where it first occurs. */
  function Distinct(names: seq<string>): seq<string> {
    if names == [] then []
    else
      var before, n := Distinct(names[..|names| - 1]), names[|names| - 1];
      if n in before then before else before + [n]
  }

  /** Link a recipe to the tag of that name, creating the tag if there is none. */
  function LinkTag(db: Db, recipeId: nat, name: string): Db {
    var i := IndexOfTag(db.tags, name);
    if i < |db.tags| then db.(links := db.links + [Link(recipeId, db.tags[i].id)])
    else db.(tags := db.tags + [Tag(db.nextTag, name)], nextTag := db.nextTag + 1,
             links := db.links + [Link(recipeId, db.nextTag)])
  }

  predicate FitsTagName(name: string) { |name| <= 100 }

  /** A tag of that name, created if there is none; a name too long for its column is refused. */
  function AddTag(db: Db, name: string): Db {
    if IndexOfTag(db.tags, name) < |db.tags| || !FitsTagName(name) then db
    else db.(tags := db.tags + [Tag(db.nextTag, name)], nextTag := db.nextTag + 1)
  }

  function LinkTags(db: Db, recipeId: nat, names: seq<string>): Db {
    if names == [] then db else LinkTag(LinkTags(db, recipeId, names[..|names| - 1]), recipeId, names[|names| - 1])
  }

  function TagNames(r: RecipeRequest): seq<string> {
    if r.tags.None? then [] else Distinct(r.tags.value)
  }

  function SavedRows(db: Db, id: nat, r: RecipeRequest): Db {
    db.(ingredients := db.ingredients + IngredientRows(db.nextIngredient, id, r.ingredients),
        nextIngredient := db.nextIngredient + |r.ingredients|,
        steps := db.steps + StepRows(db.nextStep, id, r.steps),
        nextStep := db.nextStep + |r.steps|)
  }

  function SaveChildren(db: Db, recipeId: nat, r: RecipeRequest): Db {
    LinkTags(SavedRows(db, recipeId, r), recipeId, TagNames(r))
  }

  function AddRecipe(db: Db, r: RecipeRequest): Db {
    db.(recipes := db.recipes + [ToRecipe(db.nextRecipe, r)], nextRecipe := db.nextRecipe + 1)
  }

  /** A refused row rolls everything back. */
  function Create(db: Db, r: RecipeRequest): Option<Db> {
    if !Fits(r) then None else Some(SaveChildren(AddRecipe(db, r), db.nextRecipe, r))
  }

  function WithoutChildren(db: Db, id: nat): Db {
    db.(ingredients := Filter(db.ingredients, OtherIngredient(id)), steps := Filter(db.steps, OtherStep(id)),
        links := Filter(db.links, OtherLink(id)))
  }

  function ReplaceRecipe(db: Db, id: nat, r: RecipeRequest): Db
    requires IndexOfRecipe(db.recipes, id) < |db.recipes|
  {
    db.(recipes := db.recipes[IndexOfRecipe(db.recipes, id) := ToRecipe(id, r)])
  }

  function Update(db: Db, id: nat, r: RecipeRequest): Option<Db> {
    if IndexOfRecipe(db.recipes, id) == |db.recipes| || !Fits(r) then None
    else Some(SaveChildren(WithoutChildren(ReplaceRecipe(db, id, r), id), id, r))
  }

  /** Deleting a recipe deletes its child rows and tag links with it. */
  function Delete(db: Db, id: nat): Db {
    var i := IndexOfRecipe(db.recipes, id);
    if i == |db.recipes| then db
    else WithoutChildren(db.(recipes := Drop(db.recipes, i)), id)
  }

  datatype SaveResult = NotFound | Rejected | Saved(id: nat)

  class RecipeService {
    var recipes: seq<Recipe>
    var ingredients: seq<Ingredient>
    var steps: seq<CookStep>
    var tags: seq<Tag>
    var links: seq<Link>
    var nextRecipe: nat
    var nextIngredient: nat
    var nextStep: nat
    var nextTag: nat

    function Tables(): Db
      reads this
    {
      Db(recipes, ingredients, steps, tags, links, nextRecipe, nextIngredient, nextStep, nextTag)
    }

    constructor ()
      ensures Tables() == EMPTY
    {
      recipes, ingredients, steps, tags, links := [], [], [], [], [];
      nextRecipe, nextIngredient, nextStep, nextTag := 1, 1, 1, 1;
    }

    method PersistIngredients(id: nat, rs: seq<IngredientRequest>)
      modifies this`ingredients, this`nextIngredient
      ensures ingredients == old(ingredients) + IngredientRows(old(nextIngredient), id, rs)
      ensures nextIngredient == old(nextIngredient) + |rs|
    {
      for i := 0 to |rs|
        invariant ingredients == old(ingredients) + IngredientRows(old(nextIngredient), id, rs)[..i]
        invariant nextIngredient == old(nextIngredient) + i
      {
        var row := Ingredient(nextIngredient, id, rs[i].name, RoundCents(rs[i].amount), rs[i].unit, i);
        ingredients := ingredients + [row];
        nextIngredient := nextIngredient + 1;
      }
    }

    method PersistSteps(id: nat, rs: seq<StepRequest>)
      modifies this`steps, this`nextStep
      ensures steps == old(steps) + StepRows(old(nextStep), id, rs)
      ensures nextStep == old(nextStep) + |rs|
    {
      for i := 0 to |rs|
        invariant steps == old(steps) + StepRows(old(nextStep), id, rs)[..i]
        invariant nextStep == old(nextStep) + i
      {
        steps := steps + [CookStep(nextStep, id, i + 1, rs[i].title, rs[i].content, rs[i].timer)];
        nextStep := nextStep + 1;
      }
    }

    method FindOrCreate(name: string) returns (id: nat)
      modifies this`tags, this`nextTag
      ensures var i := IndexOfTag(old(tags), name);
        if i < |old(tags)| then tags == old(tags) && nextTag == old(nextTag) && id == tags[i].id
        else tags == old(tags) + [Tag(old(nextTag), name)] && nextTag == old(nextTag) + 1 && id == old(nextTag)
    {
      var i := IndexOfTag(tags, name);
      if i < |tags| {
        return tags[i].id;
      }
      id := nextTag;
      tags := tags + [Tag(nextTag, name)];
      nextTag := nextTag + 1;
    }

    /** The id of the tag of that name, or None when the database refuses the name. */
    method CreateTag(name: string) returns (id: Option<nat>)
      modifies this`tags, this`nextTag
      ensures Tables() == AddTag(old(Tables()), name)
      ensures id == if IndexOfTag(tags, name) < |tags| then Some(tags[IndexOfTag(tags, name)].id) else None
    {
      var i := IndexOfTag(tags, name);
      if i < |tags| {
        return Some(tags[i].id);
      }
      if !FitsTagName(name) {
        return None;
      }
      IndexInConcat(tags, [Tag(nextTag, name)], HasTagName(name));
      var created := FindOrCreate(name);
      return Some(created);
    }

    method PersistTags(id: nat, names: seq<string>)
      modifies this`tags, this`nextTag, this`links
      ensures Tables() == LinkTags(old(Tables()), id, names)
    {
      for i := 0 to |names|
        invariant Tables() == LinkTags(old(Tables()), id, names[..i])
      {
        assert names[..i + 1][..i] == names[..i];
        var tag := FindOrCreate(names[i]);
        links := links + [Link(id, tag)];
      }
      assert names[..|names|] == names;
    }

    method PersistChildren(id: nat, r: RecipeRequest)
      modifies this
      ensures Tables() == SaveChildren(old(Tables()), id, r)
    {
      PersistIngredients(id, r.ingredients);
      PersistSteps(id, r.steps);
      if r.tags.Some? {
        PersistTags(id, Distinct(r.tags.value));
      }
    }

    method DeleteChildren(id: nat)
      modifies this`ingredients, this`steps, this`links
      ensures Tables() == WithoutChildren(old(Tables()), id)
    {
      ingredients := Filter(ingredients, OtherIngredient(id));
      steps := Filter(steps, OtherStep(id));
      links := Filter(links, OtherLink(id));
    }

    method CreateRecipe(r: RecipeRequest) returns (result: SaveResult)
      modifies this
      ensures result == if Fits(r) then Saved(old(nextRecipe)) else Rejected
      ensures if result.Saved? then Some(Tables()) == Create(old(Tables()), r) else Tables() == old(Tables())
    {
      if !Fits(r) {
        return Rejected;
      }
      var id := nextRecipe;
      recipes := recipes + [ToRecipe(id, r)];
      nextRecipe := nextRecipe + 1;
      PersistChildren(id, r);
      return Saved(id);
    }

    method UpdateRecipe(id: nat, r: RecipeRequest) returns (result: SaveResult)
      modifies this
      ensures result == if IndexOfRecipe(old(recipes), id) == |old(recipes)| then NotFound
                        else if Fits(r) then Saved(id) else Rejected
      ensures if result.Saved? then Some(Tables()) == Update(old(Tables()), id, r) else Tables() == old(Tables())
    {
      var i := IndexOfRecipe(recipes, id);
      if i == |recipes| {
        return NotFound;
      }
      if !Fits(r) {
        return Rejected;
      }
      recipes := recipes[i := ToRecipe(id, r)];
      DeleteChildren(id);
      PersistChildren(id, r);
      return Saved(id);
    }

    method DeleteRecipe(id: nat) returns (found: bool)
      modifies this
      ensures Tables() == Delete(old(Tables()), id)
      ensures found <==> IndexOfRecipe(old(recipes), id) < |old(recipes)|
    {
      var i := IndexOfRecipe(recipes, id);
      if i == |recipes| {
        return false;
      }
      recipes := recipes[..i] + recipes[i + 1..];
      DeleteChildren(id);
      return true;
    }
  }

  const EMPTY: Db := Db([], [], [], [], [], 1, 1, 1, 1)
}

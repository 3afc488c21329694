/** The recipe search of backend-python/app/recipe/repository.py and the HQL form of
    RecipeRepository.java. The database's `lower` and its collation are parameters. */
module RecipeSearch {
  import opened Prelude
  import opened Sequences
  import opened Sorting
  import opened Recipes
  import opened RecipeStore
  import opened Pagination

  // ----- LIKE -----

  /** SQL's LIKE: `%` stands for any text, `_` for any character, and a backslash makes the next
      character stand for itself. */
  predicate Like(p: string, t: string)
    decreases |p| + |t|
  {
    if p == "" then t == ""
    else if p[0] == '%' then Like(p[1..], t) || (t != "" && Like(p, t[1..]))
    else if t == "" then false
    else if p[0] == '\\' && |p| >= 2 then t[0] == p[1] && Like(p[2..], t[1..])
    else (p[0] == '_' || t[0] == p[0]) && Like(p[1..], t[1..])
  }

  function StripLeft(s: string): string {
    if s != "" && IsSpace(s[0]) then StripLeft(s[1..]) else s
  }

  function StripRight(s: string): string {
    if s != "" && IsSpace(s[|s| - 1]) then StripRight(s[..|s| - 1]) else s
  }

  function Strip(s: string): string { StripRight(StripLeft(s)) }

  /** The pattern of a search text, none for a missing or blank one. */
  function LikePattern(search: Option<string>, lower: string -> string): Option<string> {
    if search.None? || IsBlank(search.value) then None else Some("%" + lower(Strip(search.value)) + "%")
  }

  ghost predicate Contains(t: string, s: string) { exists k :: 0 <= k <= |t| && s <= t[k..] }

  /** No character that LIKE reads specially. */
  predicate Plain(s: string) { forall i :: 0 <= i < |s| ==> s[i] != '%' && s[i] != '_' && s[i] != '\\' }

  lemma {:induction false} LikeAny(t: string)
    ensures Like("%", t)
  {
    if t != "" { LikeAny(t[1..]); }
  }

  lemma {:induction false} LikePrefix(s: string, t: string)
    requires Plain(s)
    ensures Like(s + "%", t) <==> s <= t
  {
    if s == "" {
      LikeAny(t);
      assert s + "%" == "%";
    } else if t != "" {
      assert (s + "%")[1..] == s[1..] + "%";
      LikePrefix(s[1..], t[1..]);
      assert s <= t <==> s[0] == t[0] && s[1..] <= t[1..];
    }
  }

  lemma {:induction false} PlainSearch(s: string, t: string)
    requires Plain(s)
    ensures Like("%" + s + "%", t) <==> Contains(t, s)
  {
    var p := "%" + s + "%";
    assert p[1..] == s + "%";
    LikePrefix(s, t);
    assert t[0..] == t;
    if t == "" {
      assert Contains(t, s) <==> s <= t;
    } else {
      PlainSearch(s, t[1..]);
      ContainsLater(t, s);
    }
  }

  lemma ContainsLater(t: string, s: string)
    requires t != ""
    ensures Contains(t, s) <==> s <= t || Contains(t[1..], s)
  {
    assert t[0..] == t;
    if k :| 0 <= k <= |t| && s <= t[k..] {
      if k > 0 { assert t[1..][k - 1..] == t[k..]; }
    }
    if k :| 0 <= k <= |t[1..]| && s <= t[1..][k..] {
      assert t[1..][k..] == t[k + 1..];
    }
  }

  /** A text the pattern matches: `%` left empty, `_` an x, escaped characters themselves. A
      backslash at the end escapes the `%` that the search appends. */
  function Instance(s: string): string {
    if s == "" then ""
    else if s[0] == '%' then Instance(s[1..])
    else if s[0] == '\\' then if |s| == 1 then "%" else [s[1]] + Instance(s[2..])
    else [if s[0] == '_' then 'x' else s[0]] + Instance(s[1..])
  }

  lemma {:induction false} InstanceMatches(s: string)
    ensures Like(s + "%", Instance(s))
  {
    if s == "" {
      LikeAny("");
      assert s + "%" == "%";
    } else if s[0] == '\\' && |s| >= 2 {
      assert (s + "%")[2..] == s[2..] + "%";
      InstanceMatches(s[2..]);
      assert Instance(s)[1..] == Instance(s[2..]);
    } else if s[0] == '\\' {
      assert s + "%" == "\\%" && (s + "%")[2..] == "";
    } else {
      assert (s + "%")[1..] == s[1..] + "%";
      InstanceMatches(s[1..]);
      if s[0] != '%' { assert Instance(s)[1..] == Instance(s[1..]); }
    }
  }

  lemma {:induction false} InstanceDiffers(s: string)
    ensures |Instance(s)| <= |s|
    ensures Instance(s) == s ==> Plain(s)
  {
    if s != "" {
      if s[0] == '\\' {
        if |s| >= 2 { InstanceDiffers(s[2..]); }
      } else {
        InstanceDiffers(s[1..]);
        if Instance(s) == s {
          assert s[0] != '%' && s[0] != '_';
          assert Instance(s[1..]) == Instance(s)[1..] == s[1..];
          assert forall i :: 0 < i < |s| ==> s[i] == s[1..][i - 1];
        }
      }
    }
  }

  lemma NoRoomForMore(t: string, s: string)
    requires |t| <= |s|
    ensures Contains(t, s) ==> t == s
  {
    if k :| 0 <= k <= |t| && s <= t[k..] { assert k == 0 && t[0..] == t; }
  }

  /** The pattern finds exactly the texts that contain `s` precisely when `s` holds no percent sign,
      underscore or backslash. */
  lemma PatternIsContainment(s: string)
    ensures (forall t :: Like("%" + s + "%", t) <==> Contains(t, s)) <==> Plain(s)
  {
    if Plain(s) {
      forall t ensures Like("%" + s + "%", t) <==> Contains(t, s) { PlainSearch(s, t); }
    } else {
      var t, p := Instance(s), "%" + s + "%";
      InstanceMatches(s);
      InstanceDiffers(s);
      assert p[1..] == s + "%";
      assert Like(p, t);
      NoRoomForMore(t, s);
    }
  }

  /** Only white space at both ends is cut off, and all of it. */
  lemma StripSpec(s: string) returns (before: string, after: string)
    ensures s == before + Strip(s) + after && IsBlank(before) && IsBlank(after)
    ensures Strip(s) != "" ==> !IsSpace(Strip(s)[0]) && !IsSpace(Strip(s)[|Strip(s)| - 1])
  {
    before := StripLeftSpec(s);
    after := StripRightSpec(StripLeft(s));
  }

  lemma {:induction false} StripLeftSpec(s: string) returns (before: string)
    ensures s == before + StripLeft(s) && IsBlank(before)
    ensures StripLeft(s) != "" ==> !IsSpace(StripLeft(s)[0])
  {
    before := "";
    if s != "" && IsSpace(s[0]) {
      before := StripLeftSpec(s[1..]);
      before := [s[0]] + before;
      assert s == [s[0]] + s[1..];
    }
  }

  lemma {:induction false} StripRightSpec(s: string) returns (after: string)
    ensures s == StripRight(s) + after && IsBlank(after) && StripRight(s) <= s
    ensures StripRight(s) != "" ==> !IsSpace(StripRight(s)[|StripRight(s)| - 1])
  {
    after := "";
    if s != "" && IsSpace(s[|s| - 1]) {
      after := StripRightSpec(s[..|s| - 1]);
      after := after + [s[|s| - 1]];
      assert s == s[..|s| - 1] + [s[|s| - 1]];
    }
  }

  /** A missing or blank search asks for nothing. Any other finds exactly the texts that contain what was
      typed, without the white space around it and in lower case, precisely when that holds no percent
      sign, underscore or backslash. */
  lemma TypedTextIsContained(search: Option<string>, lower: string -> string)
    ensures var pattern := LikePattern(search, lower);
      (pattern.None? <==> search.None? || IsBlank(search.value))
      && (pattern.Some? ==>
            var typed := lower(Strip(search.value));
            (forall t :: Like(pattern.value, t) <==> Contains(t, typed)) <==> Plain(typed))
  {
    if search.Some? && !IsBlank(search.value) { PatternIsContainment(lower(Strip(search.value))); }
  }

  // ----- The two forms of the query -----

  function IdOf(t: Tag): int { t.id }

  function Ids(ts: seq<Tag>): seq<int> { seq(|ts|, i requires 0 <= i < |ts| => IdOf(ts[i])) }

  function NameIn(names: seq<string>): Tag -> bool { (t: Tag) => t.name in names }

  function FindIdsByNames(db: Db, names: seq<string>): seq<int> {
    if names == [] then [] else Ids(Filter(db.tags, NameIn(names)))
  }

  function LinkIn(id: nat, ids: seq<int>): Link -> bool { (l: Link) => l.recipeId == id && l.tagId in ids }

  function LinkCount(db: Db, id: nat, ids: seq<int>): nat { |Filter(db.links, LinkIn(id, ids))| }

  /** The title or the name of an ingredient matches. */
  predicate TitleOrIngredient(db: Db, r: Recipe, lower: string -> string, like: string -> bool) {
    like(lower(r.title)) || exists x :: x in db.ingredients && x.recipeId == r.id && like(lower(x.name))
  }

  function ByLike(p: string): string -> bool { (t: string) => Like(p, t) }

  /** Python: a condition for each filter that is given. */
  predicate Selects(db: Db, r: Recipe, pattern: Option<string>, lower: string -> string, ids: seq<int>, count: nat) {
    (pattern.Some? ==> TitleOrIngredient(db, r, lower, ByLike(pattern.value)))
    && (count != 0 ==> LinkCount(db, r.id, ids) == count)
  }

  function NonEmptyOrPlaceholder(ids: seq<int>): seq<int> { if ids == [] then [-1] else ids }

  /** HQL's LIKE, which has no escape character unless the query names one. */
  predicate LikeUnescaped(p: string, t: string)
    decreases |p| + |t|
  {
    if p == "" then t == ""
    else if p[0] == '%' then LikeUnescaped(p[1..], t) || (t != "" && LikeUnescaped(p, t[1..]))
    else if t == "" then false
    else (p[0] == '_' || t[0] == p[0]) && LikeUnescaped(p[1..], t[1..])
  }

  function ByLikeUnescaped(p: string): string -> bool { (t: string) => LikeUnescaped(p, t) }

  /** HQL: one text, whose clauses are switched off by the values bound to it. */
  predicate HqlSelects(db: Db, r: Recipe, pattern: Option<string>, lower: string -> string, ids: seq<int>, count: nat) {
    (pattern.None? || TitleOrIngredient(db, r, lower, ByLikeUnescaped(pattern.value)))
    && (count == 0 || LinkCount(db, r.id, NonEmptyOrPlaceholder(ids)) == count)
  }

  // ----- Where the two forms agree -----

  /** The placeholder counts no link, also when names are requested of which none exists. */
  lemma PlaceholderCountsNothing(db: Db, id: nat, ids: seq<int>)
    ensures LinkCount(db, id, NonEmptyOrPlaceholder(ids)) == LinkCount(db, id, ids)
  {
    if ids == [] { FilterAgrees(db.links, LinkIn(id, []), LinkIn(id, [-1])); }
  }

  predicate IsBackslash(c: char) { c == '\\' }

  function Backslashes(s: string): string { Filter(s, IsBackslash) }

  lemma {:induction false} LikesAgree(p: string, t: string)
    requires Backslashes(p) == []
    ensures Like(p, t) <==> LikeUnescaped(p, t)
    decreases |p| + |t|
  {
    if p != "" {
      assert !IsBackslash(p[0]) && Backslashes(p[1..]) == [];
      if p[0] == '%' {
        LikesAgree(p[1..], t);
        if t != "" { LikesAgree(p, t[1..]); }
      } else if t != "" {
        LikesAgree(p[1..], t[1..]);
      }
    }
  }

  /** Without an escape character each backslash of the pattern stands for one in the text. */
  lemma {:induction false} UnescapedNeedsBackslashes(p: string, t: string)
    requires LikeUnescaped(p, t)
    ensures |Backslashes(p)| <= |Backslashes(t)|
    decreases |p| + |t|
  {
    if p != "" {
      if p[0] == '%' {
        if LikeUnescaped(p[1..], t) {
          UnescapedNeedsBackslashes(p[1..], t);
        } else {
          UnescapedNeedsBackslashes(p, t[1..]);
        }
      } else {
        UnescapedNeedsBackslashes(p[1..], t[1..]);
      }
    }
  }

  lemma BackslashesCons(c: char, s: string)
    ensures Backslashes([c] + s) == (if IsBackslash(c) then [c] else "") + Backslashes(s)
  {
    assert ([c] + s)[1..] == s;
  }

  /** Escaping uses up backslashes. */
  lemma {:induction false} InstanceHasFewer(s: string)
    ensures |Backslashes(Instance(s))| <= |Backslashes(s)|
    ensures Backslashes(s) != [] ==> |Backslashes(Instance(s))| < |Backslashes(s)|
  {
    if s != "" {
      if s[0] == '\\' && |s| >= 2 {
        InstanceHasFewer(s[2..]);
        BackslashesCons(s[1], Instance(s[2..]));
        BackslashesCons(s[0], [s[1]] + s[2..]);
        BackslashesCons(s[1], s[2..]);
        assert s == [s[0]] + ([s[1]] + s[2..]);
      } else if s[0] == '\\' {
        BackslashesCons('%', "");
        assert "%" == ['%'] + "";
      } else {
        InstanceHasFewer(s[1..]);
        if s[0] != '%' { BackslashesCons(if s[0] == '_' then 'x' else s[0], Instance(s[1..])); }
      }
    }
  }

  lemma WrappedBackslashes(s: string)
    ensures Backslashes("%" + s + "%") == Backslashes(s)
  {
    FilterConcat("%" + s, "%", IsBackslash);
    FilterConcat("%", s, IsBackslash);
    assert Backslashes("%") == [];
  }

  /** A text that Python's form matches and the HQL form does not. */
  lemma BackslashSplits(s: string)
    requires Backslashes(s) != []
    ensures Like("%" + s + "%", Instance(s)) && !LikeUnescaped("%" + s + "%", Instance(s))
  {
    var p := "%" + s + "%";
    InstanceMatches(s);
    assert p[1..] == s + "%";
    WrappedBackslashes(s);
    InstanceHasFewer(s);
    if LikeUnescaped(p, Instance(s)) { UnescapedNeedsBackslashes(p, Instance(s)); }
  }

  /** The two forms of LIKE match the same texts exactly when what was typed holds no backslash. */
  lemma LikesAgreeExactly(s: string)
    ensures (forall t :: Like("%" + s + "%", t) <==> LikeUnescaped("%" + s + "%", t)) <==> Backslashes(s) == []
  {
    var p := "%" + s + "%";
    WrappedBackslashes(s);
    if Backslashes(s) == [] {
      forall t ensures Like(p, t) <==> LikeUnescaped(p, t) { LikesAgree(p, t); }
    } else {
      BackslashSplits(s);
      assert Like(p, Instance(s)) && !LikeUnescaped(p, Instance(s));
    }
  }

  /** Both forms select this recipe or neither does. */
  predicate Agree(db: Db, r: Recipe, pattern: Option<string>, lower: string -> string, ids: seq<int>, count: nat) {
    HqlSelects(db, r, pattern, lower, ids, count) <==> Selects(db, r, pattern, lower, ids, count)
  }

  lemma PatternsAgree(s: string)
    requires Backslashes(s) == []
    ensures forall t :: ByLike("%" + s + "%")(t) <==> ByLikeUnescaped("%" + s + "%")(t)
  {
    var p := "%" + s + "%";
    WrappedBackslashes(s);
    forall t ensures ByLike(p)(t) <==> ByLikeUnescaped(p)(t) { LikesAgree(p, t); }
  }

  lemma SameMatches(db: Db, r: Recipe, lower: string -> string, like: string -> bool, like': string -> bool)
    requires forall t :: like(t) <==> like'(t)
    ensures TitleOrIngredient(db, r, lower, like) <==> TitleOrIngredient(db, r, lower, like')
  {
  }

  /** In every database both forms select the same recipes when nothing is typed, and otherwise exactly
      when what was typed holds no backslash. */
  lemma FormsAgree(s: Option<string>)
    ensures var pattern := if s.None? then None else Some("%" + s.value + "%");
      (forall db, r, lower, ids, count :: Agree(db, r, pattern, lower, ids, count))
      <==> s.None? || Backslashes(s.value) == []
  {
    var pattern := if s.None? then None else Some("%" + s.value + "%");
    if s.None? || Backslashes(s.value) == [] {
      forall db, r, lower, ids, count ensures Agree(db, r, pattern, lower, ids, count) {
        if s.Some? {
          PatternsAgree(s.value);
          SameMatches(db, r, lower, ByLike(pattern.value), ByLikeUnescaped(pattern.value));
        }
        PlaceholderCountsNothing(db, r.id, ids);
      }
    } else {
      BackslashSplits(s.value);
      var r := Titled(1, Instance(s.value));
      assert !Agree(Holding([r]), r, pattern, Same, [], 0);
    }
  }

  function Titled(id: nat, title: string): Recipe { Recipe(id, title, None, 4, None, None, None) }

  /** A database of some recipes and nothing else. */
  function Holding(rs: seq<Recipe>): Db { Db(rs, [], [], [], [], |rs| + 1, 1, 1, 1) }

  function Same(n: string): string { n }

  /** Searching for a, backslash, b finds the recipe "ab" in Python's form only. */
  lemma BackslashFindsMore()
    ensures var r := Titled(1, "ab");
      Selects(Holding([r]), r, Some("%a\\b%"), Same, [], 0) && !HqlSelects(Holding([r]), r, Some("%a\\b%"), Same, [], 0)
  {
    SmallInstance();
    BackslashSplits("a\\b");
    assert "%" + "a\\b" + "%" == "%a\\b%";
  }

  lemma SmallInstance()
    ensures Instance("a\\b") == "ab" && Backslashes("a\\b") != []
  {
    assert "a\\b"[1..] == "\\b" && "\\b"[2..] == "" && "\\b"[1..] == "b";
    assert Instance("\\b") == ['b'] + Instance("") == "b";
    assert Instance("a\\b") == ['a'] + Instance("\\b");
    assert Backslashes("\\b") == "\\" + Backslashes("b");
  }

  // ----- Counting links -----

  ghost predicate HasAllTags(db: Db, id: nat, names: seq<string>) { forall n :: n in names ==> HasTag(db, id, n) }

  function NameOfTag(ts: seq<Tag>, id: nat): string {
    if ts == [] then "" else if ts[0].id == id then ts[0].name else NameOfTag(ts[1..], id)
  }

  function NameOfLink(db: Db): Link -> string { (l: Link) => NameOfTag(db.tags, l.tagId) }

  lemma {:induction false} NameOfTagAt(ts: seq<Tag>, i: nat)
    requires i < |ts| && forall j :: 0 <= j < i ==> ts[j].id != ts[i].id
    ensures NameOfTag(ts, ts[i].id) == ts[i].name
  {
    if i > 0 {
      assert ts[0].id != ts[i].id;
      NameOfTagAt(ts[1..], i - 1);
    }
  }

  lemma NameOfTagIn(db: Db, t: Tag)
    requires TagsOk(db) && t in db.tags
    ensures NameOfTag(db.tags, t.id) == t.name
  {
    var i :| 0 <= i < |db.tags| && db.tags[i] == t;
    NameOfTagAt(db.tags, i);
  }

  lemma FoundIds(db: Db, names: seq<string>, t: Tag)
    requires TagsOk(db) && t in db.tags
    ensures t.id in FindIdsByNames(db, names) <==> t.name in names
  {
    var found := Filter(db.tags, NameIn(names));
    FilterIn(db.tags, NameIn(names));
    if names != [] && t.name in names {
      var i :| 0 <= i < |found| && found[i] == t;
      assert Ids(found)[i] == t.id;
    }
    if t.id in FindIdsByNames(db, names) {
      var i :| 0 <= i < |found| && found[i].id == t.id;
      assert found[i] in db.tags;
      if found[i] != t { TagNamesDiffer(db, found[i], t); }
    }
  }

  /** An injective image of distinct elements has as many elements. */
  lemma {:induction false} ImageSize<T>(s: seq<T>, f: T -> string, image: set<string>)
    requires forall i, j :: 0 <= i < j < |s| ==> f(s[i]) != f(s[j])
    requires forall x :: x in s ==> f(x) in image
    requires forall n :: n in image ==> exists x :: x in s && f(x) == n
    ensures |s| == |image|
  {
    if s == [] {
      assert image == {};
    } else {
      var rest, n := s[1..], f(s[0]);
      forall x | x in rest ensures f(x) in image - {n} {
        var i :| 0 <= i < |rest| && rest[i] == x;
        assert x == s[i + 1];
      }
      forall m | m in image - {n} ensures exists x :: x in rest && f(x) == m {
        var x :| x in s && f(x) == m;
        assert s == [s[0]] + rest;
      }
      forall i, j | 0 <= i < j < |rest| ensures f(rest[i]) != f(rest[j]) { assert f(s[i + 1]) != f(s[j + 1]); }
      ImageSize(rest, f, image - {n});
    }
  }

  /** Which of the names the recipe has. */
  ghost function Held(db: Db, id: nat, names: seq<string>): set<string> { set n | n in names && HasTag(db, id, n) }

  lemma CountedLinks(db: Db, id: nat, names: seq<string>)
    requires WellFormed(db)
    ensures var counted := Filter(db.links, LinkIn(id, FindIdsByNames(db, names)));
      (forall l :: l in counted ==> NameOfLink(db)(l) in Held(db, id, names))
      && (forall n :: n in Held(db, id, names) ==> exists l :: l in counted && NameOfLink(db)(l) == n)
  {
    var ids := FindIdsByNames(db, names);
    var counted := Filter(db.links, LinkIn(id, ids));
    FilterIn(db.links, LinkIn(id, ids));
    forall l | l in counted ensures NameOfLink(db)(l) in Held(db, id, names) {
      var t :| t in db.tags && t.id == l.tagId;
      NameOfTagIn(db, t);
      FoundIds(db, names, t);
      assert l == Link(id, t.id);
    }
    forall n | n in Held(db, id, names) ensures exists l :: l in counted && NameOfLink(db)(l) == n {
      var t :| t in db.tags && t.name == n && Link(id, t.id) in db.links;
      NameOfTagIn(db, t);
      FoundIds(db, names, t);
      assert Link(id, t.id) in counted && NameOfLink(db)(Link(id, t.id)) == n;
    }
  }

  lemma LinkNamesDiffer(db: Db, id: nat, ids: seq<int>, i: nat, j: nat)
    requires WellFormed(db) && i < j < |Filter(db.links, LinkIn(id, ids))|
    ensures var counted := Filter(db.links, LinkIn(id, ids)); NameOfLink(db)(counted[i]) != NameOfLink(db)(counted[j])
  {
    var counted := Filter(db.links, LinkIn(id, ids));
    FilterIn(db.links, LinkIn(id, ids));
    var l, m := counted[i], counted[j];
    assert l in counted && m in counted && l != m;
    var t :| t in db.tags && t.id == l.tagId;
    var u :| u in db.tags && u.id == m.tagId;
    NameOfTagIn(db, t);
    NameOfTagIn(db, u);
    TagNamesDiffer(db, t, u);
  }

  /** The number of link rows is the number of requested names the recipe has. */
  lemma LinkCountIsHeld(db: Db, id: nat, names: seq<string>)
    requires WellFormed(db)
    ensures LinkCount(db, id, FindIdsByNames(db, names)) == |Held(db, id, names)|
  {
    var ids := FindIdsByNames(db, names);
    var counted := Filter(db.links, LinkIn(id, ids));
    forall i, j | 0 <= i < j < |counted| ensures NameOfLink(db)(counted[i]) != NameOfLink(db)(counted[j]) {
      LinkNamesDiffer(db, id, ids, i, j);
    }
    CountedLinks(db, id, names);
    ImageSize(counted, NameOfLink(db), Held(db, id, names));
  }

  /** For every database and every list of names, with repetitions and unknown names, comparing the
      number of link rows with the number of distinct names is asking for all of them. */
  lemma TagCountIsInclusion(db: Db, id: nat, names: seq<string>)
    requires WellFormed(db)
    ensures var distinct := Distinct(names);
      LinkCount(db, id, FindIdsByNames(db, distinct)) == |distinct| <==> HasAllTags(db, id, names)
  {
    var distinct := Distinct(names);
    DistinctSpec(names);
    LinkCountIsHeld(db, id, distinct);
    var all := set n | n in distinct;
    ImageSize(distinct, Same, all);
    var held := Held(db, id, distinct);
    assert held <= all;
    if |held| == |all| { SubsetOfSameSize(held, all); }
    if HasAllTags(db, id, names) { assert held == all; }
  }

  lemma SubsetOfSameSize<T>(a: set<T>, b: set<T>)
    requires a <= b && |a| == |b|
    ensures a == b
  {
    assert b == a + (b - a);
    assert |b - a| == 0;
  }

  // ----- The search -----

  datatype Query = Query(search: Option<string>, tagNames: seq<string>)

  function PatternOf(q: Query, lower: string -> string): Option<string> { LikePattern(q.search, lower) }

  function Matches(db: Db, q: Query, lower: string -> string, dbLower: string -> string): Recipe -> bool {
    var distinct := Distinct(q.tagNames);
    (r: Recipe) => Selects(db, r, PatternOf(q, lower), dbLower, FindIdsByNames(db, distinct), |distinct|)
  }

  function TitleRank(rank: string -> int): Recipe -> int { (r: Recipe) => rank(r.title) }

  function Matching(db: Db, q: Query, lower: string -> string, dbLower: string -> string): seq<Recipe> {
    Filter(db.recipes, Matches(db, q, lower, dbLower))
  }

  /** What was typed, if anything, is found in the title or in the name of an ingredient. */
  ghost predicate TextMatches(db: Db, r: Recipe, pattern: Option<string>, lower: string -> string) {
    pattern.None? || Like(pattern.value, lower(r.title))
    || exists x :: x in db.ingredients && x.recipeId == r.id && Like(pattern.value, lower(x.name))
  }

  datatype PageResponse = PageResponse(items: seq<Recipe>, page: nat, size: nat, totalElements: nat, totalPages: nat)

  const MIN_SIZE := 1
  const MAX_SIZE := 100

  function ClampPage(page: int): nat { if page < 0 then 0 else page }

  function ClampSize(size: int): nat {
    if size < MIN_SIZE then MIN_SIZE else if size > MAX_SIZE then MAX_SIZE else size
  }

  /** One response, given the order in which the database returns the matching rows. */
  function Respond(order: seq<Recipe>, total: nat, page: int, size: int): PageResponse {
    var p, s := ClampPage(page), ClampSize(size);
    PageResponse(PageOf(order, p, s), p, s, total, TotalPages(total, s))
  }

  /** A page number of at least zero and a size from 1 to 100 are served as asked for; a negative page is
      the first, a smaller size 1, a larger 100. The items are the rows of the order from the page's offset
      on, as many as the size or as there are. */
  lemma RespondsAsAsked(order: seq<Recipe>, total: nat, page: int, size: int)
    ensures var r := Respond(order, total, page, size);
      r.page == (if page >= 0 then page else 0)
      && (1 <= size <= 100 ==> r.size == size) && (size < 1 ==> r.size == 1) && (size > 100 ==> r.size == 100)
      && r.totalElements == total
      && (r.page * r.size >= |order| ==> r.items == [])
      && (r.page * r.size < |order| ==>
            r.items == order[r.page * r.size..Least(r.page * r.size + r.size, |order|)])
  {
    var p, s := ClampPage(page), ClampSize(size);
    OffsetIsProduct(p, s);
    OffsetIsProduct(p + 1, s);
    assert (p + 1) * s == p * s + s;
  }

  ghost predicate QueryAnswer(db: Db, q: Query, rank: string -> int, lower: string -> string, dbLower: string -> string,
                              order: seq<Recipe>)
  {
    OrderedAnswer(Matching(db, q, lower, dbLower), TitleRank(rank), order)
  }

  /** The result holds, once each, the recipes whose text matches and that have every requested tag. */
  lemma SearchFinds(db: Db, q: Query, rank: string -> int, lower: string -> string, dbLower: string -> string,
                    order: seq<Recipe>)
    requires WellFormed(db) && QueryAnswer(db, q, rank, lower, dbLower, order)
    ensures NoDuplicates(order) && |order| == |Matching(db, q, lower, dbLower)|
    ensures forall r :: r in order <==>
              r in db.recipes && TextMatches(db, r, PatternOf(q, lower), dbLower) && HasAllTags(db, r.id, q.tagNames)
  {
    var matching := Matching(db, q, lower, dbLower);
    FilterIn(db.recipes, Matches(db, q, lower, dbLower));
    assert NoDuplicates(db.recipes);
    NoDuplicatesPermutes(matching, order);
    SameElements(matching, order);
    forall r | r in db.recipes
      ensures Matches(db, q, lower, dbLower)(r)
        <==> TextMatches(db, r, PatternOf(q, lower), dbLower) && HasAllTags(db, r.id, q.tagNames)
    {
      TagCountIsInclusion(db, r.id, q.tagNames);
      DistinctSpec(q.tagNames);
      if Distinct(q.tagNames) == [] { assert forall n :: n in q.tagNames ==> n in Distinct(q.tagNames); }
    }
  }

  /** Whatever page and size are asked for, the pages 0..totalPages-1 of one order give every match
      once, sorted by title, none of them is empty, and every later page is. */
  lemma SearchPagesPartition(db: Db, q: Query, rank: string -> int, lower: string -> string, dbLower: string -> string,
                             order: seq<Recipe>, page: int, size: int)
    requires WellFormed(db) && QueryAnswer(db, q, rank, lower, dbLower, order)
    ensures var response := Respond(order, |Matching(db, q, lower, dbLower)|, page, size);
      Concatenated(order, response.totalPages, response.size) == order && SortedBy(order, TitleRank(rank))
      && response.totalElements == |order|
      && (response.items == [] <==> response.page >= response.totalPages)
  {
    SearchFinds(db, q, rank, lower, dbLower, order);
    PagesPartition(order, ClampSize(size));
  }

  /** Each page is its own query. Every match appears once over all pages, however the database
      orders equal titles in each query, exactly when no two matches with equal titles meet at a
      page boundary. */
  lemma SearchPagesExactly(db: Db, q: Query, rank: string -> int, lower: string -> string, dbLower: string -> string,
                           order: seq<Recipe>, size: int)
    requires WellFormed(db) && QueryAnswer(db, q, rank, lower, dbLower, order)
    ensures EveryRowOnce(Matching(db, q, lower, dbLower), TitleRank(rank), ClampSize(size))
       <==> NoTieAtBoundary(order, TitleRank(rank), ClampSize(size))
  {
    SearchFinds(db, q, rank, lower, dbLower, order);
    SeparateQueriesExactly(Matching(db, q, lower, dbLower), TitleRank(rank), order, ClampSize(size));
  }

  /** Two recipes with the same title, one to a page: the pages may show one of them twice and the other
      not at all. */
  lemma EqualTitlesMayRepeat(a: Recipe, b: Recipe, rank: string -> int, lower: string -> string,
                             dbLower: string -> string)
    requires a.id == 1 && b.id == 2 && a.title == b.title
    ensures var db, q := Holding([a, b]), Query(None, []);
      WellFormed(db) && !EveryRowOnce(Matching(db, q, lower, dbLower), TitleRank(rank), ClampSize(1))
  {
    var db, q := Holding([a, b]), Query(None, []);
    EmptySearchMatches([a, b], lower, dbLower);
    TwoAreWellFormed(a, b);
    SearchPagesExactly(db, q, rank, lower, dbLower, [a, b], 1);
    TieAtOne([a, b], TitleRank(rank));
  }

  /** Two soups. */
  lemma SoupsMayRepeat(rank: string -> int, lower: string -> string, dbLower: string -> string)
    ensures var db, q := Holding([Titled(1, "Soup"), Titled(2, "Soup")]), Query(None, []);
      WellFormed(db) && !EveryRowOnce(Matching(db, q, lower, dbLower), TitleRank(rank), ClampSize(1))
  {
    EqualTitlesMayRepeat(Titled(1, "Soup"), Titled(2, "Soup"), rank, lower, dbLower);
  }

  lemma EmptySearchMatches(rs: seq<Recipe>, lower: string -> string, dbLower: string -> string)
    ensures Matching(Holding(rs), Query(None, []), lower, dbLower) == rs
  {
    FilterAll(rs, Matches(Holding(rs), Query(None, []), lower, dbLower));
  }

  lemma TwoAreWellFormed(a: Recipe, b: Recipe)
    requires a.id == 1 && b.id == 2
    ensures WellFormed(Holding([a, b]))
  {
  }

  lemma TieAtOne<T>(order: seq<T>, key: T -> int)
    requires |order| == 2 && key(order[0]) == key(order[1])
    ensures !NoTieAtBoundary(order, key, 1)
  {
    assert Offset(1, 1) == Offset(0, 1) + 1 == 1 && TotalPages(2, 1) == 2;
  }

  /** Searching for a percent sign finds texts without one. */
  lemma PercentFindsAll(t: string)
    ensures Like("%" + "%" + "%", t) && !Contains("", "%")
  {
    LikeAny(t);
    assert "%" + "%" + "%" == "%%%" && "%%%"[1..] == "%%" && "%%"[1..] == "%";
    assert Like("%%", t) && Like("%%%", t);
    NoRoomForMore("", "%");
  }
}

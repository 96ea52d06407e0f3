// hooks/useRecipes.tsx: the recipe catalog held in memory by RecipeProvider.
//
// The built-in recipes (`sampleRecipes`) come from a data file outside this
// model; the provider receives them as a fixed sequence. The visible catalog
// `recipes` is always the built-in recipes followed by the custom ones.

module Catalog {
  import opened RecipeTypes
  import opened Seqs
  import opened Text
  import opened Storage

  // Queries (useRecipes.tsx:119-147): pure functions of the current state.

  /** At least one of the five searched fields, lower-cased, contains `lowerQuery`. */
  predicate MatchesQuery(recipe: Recipe, lowerQuery: string) {
    || Contains(Lower(recipe.title), lowerQuery)
    || Contains(Lower(recipe.titleAmharic), lowerQuery)
    || Contains(Lower(recipe.description), lowerQuery)
    || Contains(Lower(recipe.category.Name()), lowerQuery)
    || Contains(Lower(recipe.region), lowerQuery)
  }

  function Matching(lowerQuery: string): Recipe -> bool {
    (r: Recipe) => MatchesQuery(r, lowerQuery)
  }

  /** `searchRecipes`: a blank query returns the whole catalog; any other query
      keeps, in catalog order, the recipes one of whose searched fields contains
      it, ignoring case. */
  function SearchRecipes(recipes: seq<Recipe>, query: string): (r: seq<Recipe>)
    ensures IsBlank(query) ==> r == recipes
    ensures !IsBlank(query) ==> IsSubsequence(r, recipes)
    ensures !IsBlank(query) ==>
      forall x :: x in r <==> x in recipes && MatchesQuery(x, Lower(query))
    ensures !IsBlank(query) ==>
      forall x :: multiset(r)[x] == if MatchesQuery(x, Lower(query)) then multiset(recipes)[x] else 0
  {
    TrimEmptyIffBlank(query);
    FilterCount(recipes, Matching(Lower(query)));
    if Trim(query) == [] then recipes else Filter(recipes, Matching(Lower(query)))
  }

  /** A criterion of `filterRecipes`: absent or empty, it accepts everything;
      otherwise the value must equal it exactly. */
  predicate Accepts(criterion: Option<string>, value: string) {
    criterion.None? || criterion.value == "" || criterion.value == value
  }

  predicate MatchesCriteria(recipe: Recipe, category: Option<string>,
                            difficulty: Option<string>, region: Option<string>) {
    && Accepts(category, recipe.category.Name())
    && Accepts(difficulty, recipe.difficulty.Name())
    && Accepts(region, recipe.region)
  }

  function Criteria(category: Option<string>, difficulty: Option<string>,
                    region: Option<string>): Recipe -> bool {
    (r: Recipe) => MatchesCriteria(r, category, difficulty, region)
  }

  /** `filterRecipes`: the recipes that meet every supplied criterion, in catalog order. */
  function FilterRecipes(recipes: seq<Recipe>, category: Option<string>,
                         difficulty: Option<string>, region: Option<string>): (r: seq<Recipe>)
    ensures IsSubsequence(r, recipes)
    ensures forall x :: x in r <==> x in recipes && MatchesCriteria(x, category, difficulty, region)
    ensures forall x ::
              multiset(r)[x] == if MatchesCriteria(x, category, difficulty, region) then multiset(recipes)[x] else 0
  {
    FilterCount(recipes, Criteria(category, difficulty, region));
    Filter(recipes, Criteria(category, difficulty, region))
  }

  /** `i` is the position of the first recipe with this id. */
  predicate FirstWithId(recipes: seq<Recipe>, id: string, i: int) {
    0 <= i < |recipes| && recipes[i].id == id &&
    forall j :: 0 <= j < i ==> recipes[j].id != id
  }

  /** `getRecipeById`: the first recipe with this id, or nothing. */
  function GetRecipeById(recipes: seq<Recipe>, id: string): (r: Option<Recipe>)
    ensures r.None? <==> !HasId(recipes, id)
    ensures r.Some? ==> exists i :: FirstWithId(recipes, id, i) && recipes[i] == r.value
  {
    if recipes == [] then None
    else if recipes[0].id == id then
      assert FirstWithId(recipes, id, 0);
      Some(recipes[0])
    else
      var r := GetRecipeById(recipes[1..], id);
      assert r.Some? ==> exists i :: FirstWithId(recipes, id, i) && recipes[i] == r.value by {
        if r.Some? {
          var i :| FirstWithId(recipes[1..], id, i) && recipes[1..][i] == r.value;
          assert FirstWithId(recipes, id, i + 1);
        }
      }
      r
  }

  /** The favorites after `toggleFavorite` (useRecipes.tsx:49-57): a present id
      is removed, an absent one appended. */
  function Toggle(favorites: seq<string>, recipeId: string): (r: seq<string>)
    ensures recipeId in r <==> recipeId !in favorites
    ensures forall x :: x != recipeId ==> (x in r <==> x in favorites)
    ensures recipeId !in favorites ==> r == favorites + [recipeId]
    ensures recipeId in favorites ==> IsSubsequence(r, favorites)
    ensures recipeId in favorites ==>
              forall x :: multiset(r)[x] == if x == recipeId then 0 else multiset(favorites)[x]
  {
    if recipeId in favorites then WithoutId(favorites, recipeId) else favorites + [recipeId]
  }

  // Properties of the queries and list edits.

  /** A lookup in `a + b` for an id that `a` lacks is a lookup in `b`. */
  lemma {:induction false} GetRecipeByIdSkips(a: seq<Recipe>, b: seq<Recipe>, id: string)
    requires !HasId(a, id)
    ensures GetRecipeById(a + b, id) == GetRecipeById(b, id)
  {
    if a != [] {
      assert a[0] in a;
      assert (a + b)[1..] == a[1..] + b;
      assert !HasId(a[1..], id) by {
        forall x | x in a[1..] ensures x.id != id { assert x in a; }
      }
      GetRecipeByIdSkips(a[1..], b, id);
    } else {
      assert a + b == b;
    }
  }

  /** Searching finds a recipe by any piece of its title, in any letter case:
      a query that lower-cases to the lower-cased piece finds it. */
  lemma SearchFindsTitlePiece(recipes: seq<Recipe>, recipe: Recipe, query: string,
                              piece: string, i: int)
    requires recipe in recipes && !IsBlank(query)
    requires OccursAt(recipe.title, piece, i) && Lower(query) == Lower(piece)
    ensures recipe in SearchRecipes(recipes, query)
  {
    LowerKeepsOccurrence(recipe.title, piece, i);
  }

  /** "DORO" is found in a recipe titled "Doro Wat": the search ignores case. */
  lemma SearchIgnoresCase(recipes: seq<Recipe>, recipe: Recipe)
    requires recipe in recipes && recipe.title == "Doro Wat"
    ensures recipe in SearchRecipes(recipes, "DORO")
  {
    assert !IsWhitespace("DORO"[0]);
    assert Lower("DORO") == "doro" == Lower("Doro");
    assert OccursAt(recipe.title, "Doro", 0) by {
      assert recipe.title[0..4] == "Doro";
    }
    SearchFindsTitlePiece(recipes, recipe, "DORO", "Doro", 0);
  }

  /** With no criterion supplied (absent or empty), `filterRecipes` returns the whole catalog. */
  lemma FilterWithoutCriteria(recipes: seq<Recipe>, category: Option<string>,
                              difficulty: Option<string>, region: Option<string>)
    requires category.None? || category == Some("")
    requires difficulty.None? || difficulty == Some("")
    requires region.None? || region == Some("")
    ensures FilterRecipes(recipes, category, difficulty, region) == recipes
  {
    FilterKeepsAll(recipes, Criteria(category, difficulty, region));
  }

  /** Filtering by a category's name keeps exactly the recipes of that category. */
  lemma FilterByCategory(recipes: seq<Recipe>, c: Category)
    ensures forall x :: x in FilterRecipes(recipes, Some(c.Name()), None, None) <==>
      x in recipes && x.category == c
  {
    forall x ensures MatchesCriteria(x, Some(c.Name()), None, None) <==> x.category == c {
      CategoryNamesDiffer(x.category, c);
    }
  }

  /** Different categories have different names. */
  lemma CategoryNamesDiffer(c: Category, d: Category)
    ensures c.Name() == d.Name() ==> c == d
  {
    if c != d {
      assert c.Name() != d.Name() by {
        assert |c.Name()| != |d.Name()| || c.Name()[0] != d.Name()[0];
      }
    }
  }

  /** Toggling twice restores membership; toggling an absent id twice restores the list. */
  lemma ToggleTwice(favorites: seq<string>, recipeId: string)
    ensures recipeId in Toggle(Toggle(favorites, recipeId), recipeId) <==> recipeId in favorites
    ensures recipeId !in favorites ==> Toggle(Toggle(favorites, recipeId), recipeId) == favorites
  {
    if recipeId !in favorites {
      FilterAppend(favorites, [recipeId], NotId(recipeId));
      WithoutAbsentId(favorites, recipeId);
      assert Filter([recipeId], NotId(recipeId)) == [];
    }
  }

  /** Toggling never introduces a duplicate. */
  lemma ToggleKeepsNoDuplicates(favorites: seq<string>, recipeId: string)
    requires NoDuplicates(favorites)
    ensures NoDuplicates(Toggle(favorites, recipeId))
  {
    if recipeId in favorites {
      WithoutIdNoDuplicates(favorites, recipeId);
    } else {
      AddIfAbsentNoDuplicates(favorites, recipeId);
    }
  }

  /** After `addRecipe(r)` with a fresh id, `getRecipeById(r.id)` returns `r`
      and `isCustomRecipe(r.id)` holds. */
  lemma AddThenFind(sampleRecipes: seq<Recipe>, customRecipes: seq<Recipe>, recipe: Recipe)
    requires !HasId(sampleRecipes + customRecipes, recipe.id)
    ensures GetRecipeById(sampleRecipes + (customRecipes + [recipe]), recipe.id) == Some(recipe)
    ensures HasId(customRecipes + [recipe], recipe.id)
  {
    assert sampleRecipes + (customRecipes + [recipe]) == (sampleRecipes + customRecipes) + [recipe];
    GetRecipeByIdSkips(sampleRecipes + customRecipes, [recipe], recipe.id);
    assert recipe in customRecipes + [recipe];
  }

  /** After `updateRecipe(u)` on a custom id that no built-in recipe shares,
      `getRecipeById(u.id)` returns `u`, and which ids are custom is unchanged. */
  lemma UpdateThenFind(sampleRecipes: seq<Recipe>, customRecipes: seq<Recipe>, updated: Recipe)
    requires HasId(customRecipes, updated.id) && !HasId(sampleRecipes, updated.id)
    ensures GetRecipeById(sampleRecipes + ReplaceById(customRecipes, updated), updated.id) == Some(updated)
    ensures forall id :: HasId(ReplaceById(customRecipes, updated), id) <==> HasId(customRecipes, id)
  {
    var replaced := ReplaceById(customRecipes, updated);
    GetRecipeByIdSkips(sampleRecipes, replaced, updated.id);
    ReplaceByIdKeepsIds(customRecipes, updated, updated.id);
    var r := GetRecipeById(replaced, updated.id);
    var i :| FirstWithId(replaced, updated.id, i) && replaced[i] == r.value;
    forall id ensures HasId(replaced, id) <==> HasId(customRecipes, id) {
      ReplaceByIdKeepsIds(customRecipes, updated, id);
    }
  }

  /** After `deleteRecipe(id)` on a custom id that no built-in recipe shares,
      the recipe can no longer be found, is not custom and is not a favorite. */
  lemma DeleteThenGone(sampleRecipes: seq<Recipe>, customRecipes: seq<Recipe>,
                       favorites: seq<string>, id: string)
    requires !HasId(sampleRecipes, id)
    ensures GetRecipeById(sampleRecipes + WithoutRecipe(customRecipes, id), id) == None
    ensures !HasId(WithoutRecipe(customRecipes, id), id)
    ensures id !in WithoutId(favorites, id)
  {
    GetRecipeByIdSkips(sampleRecipes, WithoutRecipe(customRecipes, id), id);
  }

  datatype CatalogError = CannotUpdateBuiltIn | CannotDeleteBuiltIn

  /** How a mutation ends: done, or refused with the error it throws. */
  datatype Outcome = Done | Refused(error: CatalogError)

  /** The state of `RecipeProvider`. */
  class RecipeProvider {
    const sampleRecipes: seq<Recipe>
    const store: StorageService
    var recipes: seq<Recipe>
    var favorites: seq<string>
    var customRecipes: seq<Recipe>

    /** The visible catalog is the built-in recipes followed by the custom ones. */
    ghost predicate Valid()
      reads this`recipes, this`customRecipes
    {
      recipes == sampleRecipes + customRecipes
    }

    /** The lists in memory equal the lists a successful read of the store returns. */
    ghost predicate InSync()
      reads this`favorites, this`customRecipes, store`favorites, store`customRecipes
    {
      Loaded(store.favorites, true) == favorites && Loaded(store.customRecipes, true) == customRecipes
    }

    /** The state before `loadData` has run (useRecipes.tsx:26-28). */
    constructor (sampleRecipes: seq<Recipe>, store: StorageService)
      ensures this.sampleRecipes == sampleRecipes && this.store == store
      ensures recipes == sampleRecipes && favorites == [] && customRecipes == []
      ensures Valid()
    {
      this.sampleRecipes := sampleRecipes;
      this.store := store;
      recipes := sampleRecipes;
      favorites := [];
      customRecipes := [];
    }

    /** `loadData`: read both lists (failing open) and rebuild the catalog. */
    method LoadData(favoritesReadOk: bool, recipesReadOk: bool)
      modifies this`favorites, this`customRecipes, this`recipes
      ensures favorites == Loaded(store.favorites, favoritesReadOk)
      ensures customRecipes == Loaded(store.customRecipes, recipesReadOk)
      ensures Valid()
      ensures favoritesReadOk && recipesReadOk ==> InSync()
    {
      var savedFavorites := store.GetFavorites(favoritesReadOk);
      var savedCustomRecipes := store.GetCustomRecipes(recipesReadOk);
      favorites := savedFavorites;
      customRecipes := savedCustomRecipes;
      recipes := sampleRecipes + savedCustomRecipes;
    }

    /** `toggleFavorite`: update the stored list, then the list in memory. */
    method ToggleFavorite(recipeId: string, io: Io)
      modifies this`favorites, store`favorites
      ensures favorites == Toggle(old(favorites), recipeId)
      ensures store.favorites ==
        if !io.writeOk then old(store.favorites)
        else if recipeId in old(favorites)
        then Some(WithoutId(Loaded(old(store.favorites), io.readOk), recipeId))
        else Some(AddIfAbsent(Loaded(old(store.favorites), io.readOk), recipeId))
      ensures old(InSync()) && io == Healthy ==> InSync()
    {
      var isFavorite := recipeId in favorites;
      if isFavorite {
        store.RemoveFromFavorites(recipeId, io);
        favorites := WithoutId(favorites, recipeId);
      } else {
        store.AddToFavorites(recipeId, io);
        favorites := favorites + [recipeId];
      }
    }

    /** `addRecipe`: append to the stored list, then to the list in memory. */
    method AddRecipe(recipe: Recipe, io: Io)
      modifies this`customRecipes, this`recipes, store`customRecipes
      ensures customRecipes == old(customRecipes) + [recipe]
      ensures Valid()
      ensures store.customRecipes ==
        if io.writeOk then Some(Loaded(old(store.customRecipes), io.readOk) + [recipe])
        else old(store.customRecipes)
      ensures old(InSync()) && io == Healthy ==> InSync()
    {
      store.AddCustomRecipe(recipe, io);
      var updatedCustomRecipes := customRecipes + [recipe];
      customRecipes := updatedCustomRecipes;
      recipes := sampleRecipes + updatedCustomRecipes;
    }

    /** `updateRecipe`: refused for an id that is not custom; otherwise every
        custom record with that id is replaced, in the store and in memory. */
    method UpdateRecipe(updated: Recipe, io: Io) returns (outcome: Outcome)
      requires Valid()
      modifies this`customRecipes, this`recipes, store`customRecipes
      ensures Valid()
      ensures outcome ==
        if HasId(old(customRecipes), updated.id) then Done else Refused(CannotUpdateBuiltIn)
      ensures outcome.Refused? ==>
        customRecipes == old(customRecipes) && recipes == old(recipes) &&
        store.customRecipes == old(store.customRecipes)
      ensures outcome.Done? ==> customRecipes == ReplaceById(old(customRecipes), updated)
      ensures store.customRecipes ==
        if outcome.Refused? || !io.writeOk then old(store.customRecipes)
        else Some(ReplaceById(Loaded(old(store.customRecipes), io.readOk), updated))
      ensures old(InSync()) && io == Healthy ==> InSync()
    {
      if !HasId(customRecipes, updated.id) {
        return Refused(CannotUpdateBuiltIn);
      }
      var updatedCustomRecipes := ReplaceById(customRecipes, updated);
      store.UpdateCustomRecipe(updated, io);
      customRecipes := updatedCustomRecipes;
      recipes := sampleRecipes + updatedCustomRecipes;
      outcome := Done;
    }

    /** `deleteRecipe`: refused for an id that is not custom; otherwise the
        recipe leaves the stored list, the favorites (when it is one) and the
        lists in memory. */
    method DeleteRecipe(recipeId: string, recipesIo: Io, favoritesIo: Io) returns (outcome: Outcome)
      requires Valid()
      modifies this`customRecipes, this`recipes, this`favorites
      modifies store`customRecipes, store`favorites
      ensures Valid()
      ensures outcome ==
        if HasId(old(customRecipes), recipeId) then Done else Refused(CannotDeleteBuiltIn)
      ensures outcome.Refused? ==> unchanged(this) && unchanged(store)
      ensures outcome.Done? ==>
        customRecipes == WithoutRecipe(old(customRecipes), recipeId) &&
        favorites == WithoutId(old(favorites), recipeId)
      ensures store.customRecipes ==
        if outcome.Refused? || !recipesIo.writeOk then old(store.customRecipes)
        else Some(WithoutRecipe(Loaded(old(store.customRecipes), recipesIo.readOk), recipeId))
      ensures store.favorites ==
        if outcome.Refused? || recipeId !in old(favorites) || !favoritesIo.writeOk then old(store.favorites)
        else Some(WithoutId(Loaded(old(store.favorites), favoritesIo.readOk), recipeId))
      ensures old(InSync()) && recipesIo == Healthy && favoritesIo == Healthy ==> InSync()
    {
      if !HasId(customRecipes, recipeId) {
        return Refused(CannotDeleteBuiltIn);
      }
      store.DeleteCustomRecipe(recipeId, recipesIo);
      if recipeId in favorites {
        store.RemoveFromFavorites(recipeId, favoritesIo);
        favorites := WithoutId(favorites, recipeId);
      } else {
        WithoutAbsentId(favorites, recipeId);
      }
      var updatedCustomRecipes := WithoutRecipe(customRecipes, recipeId);
      customRecipes := updatedCustomRecipes;
      recipes := sampleRecipes + updatedCustomRecipes;
      outcome := Done;
    }
  }

  /** The storage layer swallows a failed write, so `addRecipe` neither throws
      nor rolls back: afterwards memory holds the recipe and the store does not. */
  method AddWithFailedWrite(provider: RecipeProvider, recipe: Recipe)
    requires provider.InSync()
    modifies provider`customRecipes, provider`recipes, provider.store`customRecipes
    ensures recipe in provider.customRecipes
    ensures Loaded(provider.store.customRecipes, true) == old(provider.customRecipes)
    ensures !provider.InSync()
  {
    provider.AddRecipe(recipe, Io(true, false));
    assert recipe == provider.customRecipes[|provider.customRecipes| - 1];
  }

  /** A recipe with the given id and category and blank remaining fields. */
  function Plain(id: string, category: Category): Recipe {
    Recipe(id, id, "", "", "", None, 1, 1, Easy, category, false, false, "", [], [], None, None)
  }

  /** Two built-in recipes "a" and "b": adding "c" (a drink) gives [a, b, c];
      filtering by "drink" gives [c]; deleting "c" gives [a, b], after which
      "c" can no longer be found. */
  method CatalogScenario() returns (afterAdd: seq<Recipe>, drinks: seq<Recipe>,
                                    afterDelete: seq<Recipe>, found: Option<Recipe>)
    ensures afterAdd == [Plain("a", Meat), Plain("b", Snack), Plain("c", Drink)]
    ensures drinks == [Plain("c", Drink)]
    ensures afterDelete == [Plain("a", Meat), Plain("b", Snack)]
    ensures found == None
  {
    var a, b, c := Plain("a", Meat), Plain("b", Snack), Plain("c", Drink);
    var provider := StartWithOne([a, b], c);
    afterAdd := provider.recipes;
    assert afterAdd == [a, b, c];
    drinks := FilterRecipes(afterAdd, Some("drink"), None, None);
    DrinksOnly(a, b, c);
    afterDelete := DeleteTheOne(provider, c);
    found := GetRecipeById(afterDelete, "c");
  }

  /** Deleting the only custom recipe leaves the built-in recipes. */
  method DeleteTheOne(provider: RecipeProvider, recipe: Recipe) returns (afterDelete: seq<Recipe>)
    requires provider.Valid() && provider.customRecipes == [recipe]
    modifies provider, provider.store
    ensures afterDelete == provider.sampleRecipes
  {
    var outcome := provider.DeleteRecipe(recipe.id, Healthy, Healthy);
    RemoveOnly(recipe);
    afterDelete := provider.recipes;
  }

  /** A provider over a fresh store, loaded, after adding one recipe. */
  method StartWithOne(sampleRecipes: seq<Recipe>, recipe: Recipe) returns (provider: RecipeProvider)
    ensures fresh(provider) && fresh(provider.store)
    ensures provider.sampleRecipes == sampleRecipes && provider.Valid()
    ensures provider.customRecipes == [recipe] && provider.favorites == []
    ensures provider.recipes == sampleRecipes + [recipe]
  {
    var store := new StorageService();
    provider := new RecipeProvider(sampleRecipes, store);
    provider.LoadData(true, true);
    provider.AddRecipe(recipe, Healthy);
  }

  lemma RemoveOnly(c: Recipe)
    ensures WithoutRecipe([c], c.id) == []
  {
    assert [c][1..] == [];
  }

  lemma DrinksOnly(a: Recipe, b: Recipe, c: Recipe)
    requires a.category != Drink && b.category != Drink && c.category == Drink
    ensures FilterRecipes([a, b, c], Some("drink"), None, None) == [c]
  {
    var drink := Criteria(Some("drink"), None, None);
    assert !drink(a) && !drink(b) && drink(c);
    calc {
      FilterRecipes([a, b, c], Some("drink"), None, None);
      Filter([a, b, c], drink);
      { assert [a, b, c][1..] == [b, c]; }
      Filter([b, c], drink);
      { assert [b, c][1..] == [c]; }
      Filter([c], drink);
      { assert [c][1..] == []; }
      [c];
    }
  }

  /** Favoriting "a" twice gives ["a"] and then []. */
  method FavoriteScenario(store: StorageService) returns (once: seq<string>, twice: seq<string>)
    modifies store
    ensures once == ["a"] && twice == []
  {
    var provider := new RecipeProvider([], store);
    provider.ToggleFavorite("a", Healthy);
    once := provider.favorites;
    provider.ToggleFavorite("a", Healthy);
    twice := provider.favorites;
  }
}

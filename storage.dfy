// utils/storage.ts: StorageService, the read-modify-write operations over the
// app's five persisted key/value slots.
//
// The key/value backend (AsyncStorage) is the five typed slot fields of
// `StorageService`; `None` is a key that holds nothing. JSON encoding is not
// modelled: a slot holds the list itself. Whether a backend read or write
// succeeds is outside the program, so every operation takes it as a parameter.

module Storage {
  import opened RecipeTypes
  import opened Seqs

  /** The outcomes of the backend read (`getItem`) and write (`setItem`) that
      one read-modify-write operation performs. */
  datatype Io = Io(readOk: bool, writeOk: bool)

  /** Both backend calls succeed. */
  const Healthy := Io(true, true)

  /** What a fail-open list getter returns: the stored list, or the empty list
      when the slot is absent or the read fails. */
  function Loaded<T>(slot: Option<seq<T>>, readOk: bool): (r: seq<T>)
    ensures readOk && slot.Some? ==> r == slot.value
    ensures !readOk || slot.None? ==> r == []
  {
    if readOk && slot.Some? then slot.value else []
  }

  // The list edits, shared with the in-memory catalog.

  function NotId(id: string): string -> bool {
    x => x != id
  }

  /** `ids.filter(x => x !== id)`. */
  function WithoutId(ids: seq<string>, id: string): (r: seq<string>)
    ensures id !in r
    ensures forall x :: x in r <==> x in ids && x != id
    ensures forall x :: multiset(r)[x] == if x == id then 0 else multiset(ids)[x]
    ensures IsSubsequence(r, ids)
  {
    FilterCount(ids, NotId(id));
    Filter(ids, NotId(id))
  }

  /** Removing an id that is not there changes nothing. */
  lemma WithoutAbsentId(ids: seq<string>, id: string)
    requires id !in ids
    ensures WithoutId(ids, id) == ids
  {
    FilterKeepsAll(ids, NotId(id));
  }

  /** Removing an id keeps a duplicate-free list duplicate-free. */
  lemma WithoutIdNoDuplicates(ids: seq<string>, id: string)
    requires NoDuplicates(ids)
    ensures NoDuplicates(WithoutId(ids, id))
  {
    FilterNoDuplicates(ids, NotId(id));
  }

  /** The list after `if (!ids.includes(id)) ids.push(id)`. */
  function AddIfAbsent(ids: seq<string>, id: string): (r: seq<string>)
    ensures forall x :: x in r <==> x in ids || x == id
    ensures |ids| <= |r| <= |ids| + 1
    ensures r[..|ids|] == ids
    ensures id in ids ==> r == ids
  {
    if id in ids then ids else ids + [id]
  }

  /** Adding an id never introduces a duplicate. */
  lemma AddIfAbsentNoDuplicates(ids: seq<string>, id: string)
    requires NoDuplicates(ids)
    ensures NoDuplicates(AddIfAbsent(ids, id))
  {
    if id !in ids {
      var r := ids + [id];
      forall i, j | 0 <= i < j < |r| ensures r[i] != r[j] {
        if j == |ids| { assert r[i] == ids[i]; }
      }
    }
  }

  /** Adding the same id a second time changes nothing. */
  lemma AddIfAbsentIdempotent(ids: seq<string>, id: string)
    ensures AddIfAbsent(AddIfAbsent(ids, id), id) == AddIfAbsent(ids, id)
  {
  }

  function RecipeNotId(id: string): Recipe -> bool {
    (r: Recipe) => r.id != id
  }

  /** `recipes.filter(recipe => recipe.id !== id)`. */
  function WithoutRecipe(recipes: seq<Recipe>, id: string): (r: seq<Recipe>)
    ensures !HasId(r, id)
    ensures forall x :: x in r <==> x in recipes && x.id != id
    ensures forall x :: multiset(r)[x] == if x.id == id then 0 else multiset(recipes)[x]
    ensures IsSubsequence(r, recipes)
  {
    FilterCount(recipes, RecipeNotId(id));
    Filter(recipes, RecipeNotId(id))
  }

  /** `recipes.map(recipe => recipe.id === updated.id ? updated : recipe)`. */
  function ReplaceById(recipes: seq<Recipe>, updated: Recipe): (r: seq<Recipe>)
    ensures |r| == |recipes|
    ensures forall i :: 0 <= i < |r| ==>
      r[i] == if recipes[i].id == updated.id then updated else recipes[i]
  {
    if recipes == [] then []
    else [if recipes[0].id == updated.id then updated else recipes[0]] + ReplaceById(recipes[1..], updated)
  }

  /** Replacing a record keeps the set of ids, so it keeps which ids are custom. */
  lemma ReplaceByIdKeepsIds(recipes: seq<Recipe>, updated: Recipe, id: string)
    ensures HasId(ReplaceById(recipes, updated), id) <==> HasId(recipes, id)
  {
    var r := ReplaceById(recipes, updated);
    if HasId(recipes, id) {
      var i :| 0 <= i < |recipes| && recipes[i].id == id;
      assert r[i].id == id;
    }
    if HasId(r, id) {
      var i :| 0 <= i < |r| && r[i].id == id;
      assert recipes[i].id == id;
    }
  }

  /** The persisted slots of the app. */
  class StorageService {
    var favorites: Option<seq<string>>      // '@favorites'
    var customRecipes: Option<seq<Recipe>>  // '@recipes'
    var theme: Option<Theme>                // '@theme'
    var language: Option<Language>          // '@language'
    var onboarding: Option<string>          // '@onboarding_completed'

    /** A store on first launch: every slot is absent. */
    constructor ()
      ensures favorites == None && customRecipes == None && theme == None
      ensures language == None && onboarding == None
    {
      favorites, customRecipes, theme, language, onboarding := None, None, None, None, None;
    }

    method GetFavorites(readOk: bool) returns (ids: seq<string>)
      ensures ids == Loaded(favorites, readOk)
    {
      if readOk && favorites.Some? {
        ids := favorites.value;
      } else {
        ids := [];
      }
    }

    /** A failed write is logged and swallowed: the slot keeps its old value. */
    method SetFavorites(ids: seq<string>, writeOk: bool)
      modifies this`favorites
      ensures favorites == if writeOk then Some(ids) else old(favorites)
    {
      if writeOk {
        favorites := Some(ids);
      }
    }

    method AddToFavorites(recipeId: string, io: Io)
      modifies this`favorites
      ensures favorites ==
        if io.writeOk then Some(AddIfAbsent(Loaded(old(favorites), io.readOk), recipeId))
        else old(favorites)
    {
      var ids := GetFavorites(io.readOk);
      if recipeId !in ids {
        ids := ids + [recipeId];
        SetFavorites(ids, io.writeOk);
      }
    }

    method RemoveFromFavorites(recipeId: string, io: Io)
      modifies this`favorites
      ensures favorites ==
        if io.writeOk then Some(WithoutId(Loaded(old(favorites), io.readOk), recipeId))
        else old(favorites)
    {
      var ids := GetFavorites(io.readOk);
      var updated := WithoutId(ids, recipeId);
      SetFavorites(updated, io.writeOk);
    }

    method GetCustomRecipes(readOk: bool) returns (recipes: seq<Recipe>)
      ensures recipes == Loaded(customRecipes, readOk)
    {
      if readOk && customRecipes.Some? {
        recipes := customRecipes.value;
      } else {
        recipes := [];
      }
    }

    /** A failed write is logged and swallowed: the slot keeps its old value. */
    method SetCustomRecipes(recipes: seq<Recipe>, writeOk: bool)
      modifies this`customRecipes
      ensures customRecipes == if writeOk then Some(recipes) else old(customRecipes)
    {
      if writeOk {
        customRecipes := Some(recipes);
      }
    }

    method AddCustomRecipe(recipe: Recipe, io: Io)
      modifies this`customRecipes
      ensures customRecipes ==
        if io.writeOk then Some(Loaded(old(customRecipes), io.readOk) + [recipe])
        else old(customRecipes)
    {
      var recipes := GetCustomRecipes(io.readOk);
      recipes := recipes + [recipe];
      SetCustomRecipes(recipes, io.writeOk);
    }

    method UpdateCustomRecipe(updated: Recipe, io: Io)
      modifies this`customRecipes
      ensures customRecipes ==
        if io.writeOk then Some(ReplaceById(Loaded(old(customRecipes), io.readOk), updated))
        else old(customRecipes)
    {
      var recipes := GetCustomRecipes(io.readOk);
      var updatedRecipes := ReplaceById(recipes, updated);
      SetCustomRecipes(updatedRecipes, io.writeOk);
    }

    method DeleteCustomRecipe(recipeId: string, io: Io)
      modifies this`customRecipes
      ensures customRecipes ==
        if io.writeOk then Some(WithoutRecipe(Loaded(old(customRecipes), io.readOk), recipeId))
        else old(customRecipes)
    {
      var recipes := GetCustomRecipes(io.readOk);
      var updatedRecipes := WithoutRecipe(recipes, recipeId);
      SetCustomRecipes(updatedRecipes, io.writeOk);
    }

    method GetThemePreference(readOk: bool) returns (t: Option<Theme>)
      ensures t == if readOk then theme else None
    {
      t := if readOk then theme else None;
    }

    method SetThemePreference(t: Theme, writeOk: bool)
      modifies this`theme
      ensures theme == if writeOk then Some(t) else old(theme)
    {
      if writeOk {
        theme := Some(t);
      }
    }

    method GetLanguagePreference(readOk: bool) returns (l: Option<Language>)
      ensures l == if readOk then language else None
    {
      l := if readOk then language else None;
    }

    method SetLanguagePreference(l: Language, writeOk: bool)
      modifies this`language
      ensures language == if writeOk then Some(l) else old(language)
    {
      if writeOk {
        language := Some(l);
      }
    }

    /** True only when the slot holds exactly the string 'true'. */
    method GetOnboardingStatus(readOk: bool) returns (completed: bool)
      ensures completed <==> readOk && onboarding == Some("true")
    {
      completed := readOk && onboarding == Some("true");
    }

    method SetOnboardingCompleted(writeOk: bool)
      modifies this`onboarding
      ensures onboarding == if writeOk then Some("true") else old(onboarding)
    {
      if writeOk {
        onboarding := Some("true");
      }
    }

    /** `multiRemove` of all five keys; a failed removal is swallowed. */
    method ClearAllData(writeOk: bool)
      modifies this
      ensures writeOk ==> favorites == None && customRecipes == None && theme == None
      ensures writeOk ==> language == None && onboarding == None
      ensures !writeOk ==> unchanged(this)
    {
      if writeOk {
        favorites, customRecipes, theme, language, onboarding := None, None, None, None, None;
      }
    }
  }

  /** After `setOnboardingCompleted` succeeds, `getOnboardingStatus` reports true. */
  method OnboardingRoundTrip(store: StorageService) returns (completed: bool)
    modifies store`onboarding
    ensures completed
  {
    store.SetOnboardingCompleted(true);
    completed := store.GetOnboardingStatus(true);
  }

  /** After `clearAllData` succeeds, the getters return [], [], null, null and false,
      whether or not the following reads succeed. */
  method ClearThenRead(store: StorageService, readOk: bool)
    returns (favorites: seq<string>, recipes: seq<Recipe>, theme: Option<Theme>,
             language: Option<Language>, onboarded: bool)
    modifies store
    ensures favorites == [] && recipes == [] && theme == None && language == None && !onboarded
  {
    store.ClearAllData(true);
    favorites := store.GetFavorites(readOk);
    recipes := store.GetCustomRecipes(readOk);
    theme := store.GetThemePreference(readOk);
    language := store.GetLanguagePreference(readOk);
    onboarded := store.GetOnboardingStatus(readOk);
  }

  /** A failed read is taken for an empty list, so the write that follows
      replaces every stored favorite by the one id. */
  method AddToFavoritesAfterFailedRead(store: StorageService, recipeId: string)
    modifies store`favorites
    ensures store.favorites == Some([recipeId])
  {
    store.AddToFavorites(recipeId, Io(false, true));
  }

  /** Adding a favorite twice in a row stores the same list as adding it once,
      and a duplicate-free stored list stays duplicate-free. */
  method AddToFavoritesTwice(store: StorageService, recipeId: string)
    modifies store`favorites
    requires store.favorites.Some? ==> NoDuplicates(store.favorites.value)
    ensures store.favorites == Some(AddIfAbsent(Loaded(old(store.favorites), true), recipeId))
    ensures NoDuplicates(store.favorites.value)
  {
    store.AddToFavorites(recipeId, Healthy);
    AddIfAbsentNoDuplicates(Loaded(old(store.favorites), true), recipeId);
    store.AddToFavorites(recipeId, Healthy);
    AddIfAbsentIdempotent(Loaded(old(store.favorites), true), recipeId);
  }
}

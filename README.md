# Ethiopian recipe app: catalog, storage, timer and language model

This project models the logic of a React Native recipe app in Dafny and proves
properties of that logic. It covers four parts:

- **Recipe catalog** (`RecipeProvider`, hooks/useRecipes.tsx): the in-memory
  lists `recipes`, `favorites` and `customRecipes`. The visible catalog is the
  built-in recipes followed by the user's own. The model covers favorite
  toggling, adding, updating and deleting custom recipes, search, filtering,
  lookup by id and the custom-recipe test.
- **Persistent storage** (`StorageService`, utils/storage.ts): five key/value
  slots (favorites, custom recipes, theme, language, onboarding flag) with
  fail-open getters and setters that swallow errors.
- **Step timer** (components/Timer.tsx): the one-second countdown, pause/resume,
  reset, and the `m:ss` display.
- **Language selector** (`LanguageProvider`, hooks/useLanguage.tsx): English or
  Amharic, the text picker `t`, and loading and saving the preference.

Files:

- `types.dfy`: the records.
- `seqs.dfy`: `filter` over sequences and its order facts.
- `text.dfy`: the string built-ins the app uses, namely `trim`, `toLowerCase`,
  `includes`, `toString` and `padStart`.
- `storage.dfy`: the `Storage` module.
- `catalog.dfy`: the `Catalog` module.
- `timer.dfy`: the `TimerWidget` module.
- `language.dfy`: the `Localization` module.

The storage backend's success or failure is not something the program decides.
Each storage operation therefore takes it as a parameter: `readOk` and
`writeOk`, or an `Io` pair of both.

The app's screens expect a failed save to throw: the add screen awaits
`addRecipe` inside `try`/`catch` and shows "Failed to save recipe" when it
throws (app/(tabs)/add.tsx:205-214). The storage code makes that impossible
for a failed write:

- `setCustomRecipes` and `setFavorites` catch and log every backend error
  (utils/storage.ts:27-29 and 68-70).
- So, as long as the '@recipes' slot holds a list, `addCustomRecipe`,
  `updateCustomRecipe` and `deleteCustomRecipe` never throw, and neither do
  `addRecipe`, `updateRecipe` and `deleteRecipe` on a custom id.
- So the provider updates its in-memory lists even when nothing was written.

The model follows the code. `Catalog.AddWithFailedWrite` states the
consequence: after a failed write, memory and store disagree. Likewise a
failed read inside `addToFavorites` is taken for an empty list, and the write
that follows replaces the whole stored list. `Storage.AddToFavoritesAfterFailedRead`
states this.

## Model

| member | source | states |
|---|---|---|
| Text.Trim | hooks/useRecipes.tsx:120 | `trim()` returns the piece of the text left once the whitespace around it is dropped: the piece occurs in the text, everything before and after it is JavaScript whitespace, and unless empty it neither starts nor ends with whitespace |
| Text.TrimEmptyIffBlank | hooks/useRecipes.tsx:120 | `query.trim()` is empty exactly when every character of the query is JavaScript whitespace, in both directions |
| Text.LowerFoldsCapitals | hooks/useRecipes.tsx:122-128 | `toLowerCase` (ASCII letters) keeps the length, turns each capital into its small letter, keeps every other character, leaves no capital behind, and is idempotent |
| Text.LowerKeepsOccurrence | hooks/useRecipes.tsx:122-128 | an occurrence of a needle in a text is, at the same index, an occurrence of the lower-cased needle in the lower-cased text, so `includes` after `toLowerCase` ignores case |
| Text.Contains | hooks/useRecipes.tsx:124-128 | `includes`: every text contains the empty string and itself, and a text never contains a longer one |
| Text.IntToDecimal | components/Timer.tsx:40 | `toString()` of an integer starts with a minus sign exactly when the integer is negative, and the rest is decimal digits with no leading zero |
| Text.IntToDecimalValue | components/Timer.tsx:40 | the digits after the sign read back as the magnitude of the integer |
| Text.NatToDecimal | components/Timer.tsx:40 | the decimal numeral of a count is non-empty, all digits, a single digit exactly below 10, and has no leading zero |
| Text.DecimalRoundTrip | components/Timer.tsx:40 | reading back the numeral `toString` writes gives the number |
| Text.PadStart | components/Timer.tsx:40 | `padStart(width, fill)` yields at least `width` characters, ends with the input, and everything before it is the fill character |
| Storage.Loaded | utils/storage.ts:14-22 | a fail-open list getter returns the stored list when the read succeeds and the slot is set, and the empty list otherwise |
| Storage.WithoutId | utils/storage.ts:47 | removing an id leaves it absent and keeps every other id, with all its copies, in the original order |
| Storage.WithoutAbsentId | utils/storage.ts:47 | removing an id that is not present returns the list unchanged |
| Storage.WithoutIdNoDuplicates | utils/storage.ts:47 | removing an id keeps a duplicate-free list duplicate-free |
| Storage.AddIfAbsent | utils/storage.ts:35-37 | a present id leaves the list unchanged; otherwise the old list is kept as a prefix and the id is the one new element |
| Storage.AddIfAbsentNoDuplicates | utils/storage.ts:35-37 | adding an id to a duplicate-free favorites list never creates a duplicate |
| Storage.AddIfAbsentIdempotent | utils/storage.ts:35-37 | adding the same id twice stores what adding it once stores |
| Storage.WithoutRecipe | utils/storage.ts:100 | the filtered custom list has no record with the id; every other record is kept, with all its copies, in the original order |
| Storage.ReplaceById | utils/storage.ts:87-89 | the mapped list has the same length; at each position, a record with the updated id is replaced and any other is kept |
| Storage.ReplaceByIdKeepsIds | utils/storage.ts:87-89 | replacing a record keeps the set of ids present, in both directions |
| Storage.StorageService.constructor | utils/storage.ts:4-10 | on first launch every one of the five slots is absent |
| Storage.StorageService.GetFavorites | utils/storage.ts:14-22 | returns the stored favorites, or [] when the slot is absent or the read fails |
| Storage.StorageService.SetFavorites | utils/storage.ts:24-30 | a successful write stores the list; a failed one is swallowed and the slot keeps its value |
| Storage.StorageService.AddToFavorites | utils/storage.ts:32-42 | on a successful write the slot holds the loaded list with the id appended if it was absent; otherwise the slot is unchanged |
| Storage.StorageService.RemoveFromFavorites | utils/storage.ts:44-52 | on a successful write the slot holds the loaded list without the id; otherwise the slot is unchanged |
| Storage.StorageService.GetCustomRecipes | utils/storage.ts:55-63 | returns the stored recipes, or [] when the slot is absent or the read fails |
| Storage.StorageService.SetCustomRecipes | utils/storage.ts:65-71 | a successful write stores the list; a failed one is swallowed |
| Storage.StorageService.AddCustomRecipe | utils/storage.ts:73-82 | on a successful write the slot holds the loaded list with the recipe appended; otherwise the slot is unchanged |
| Storage.StorageService.UpdateCustomRecipe | utils/storage.ts:84-95 | on a successful write the slot holds the loaded list with every record of that id replaced; otherwise the slot is unchanged |
| Storage.StorageService.DeleteCustomRecipe | utils/storage.ts:97-106 | on a successful write the slot holds the loaded list without records of that id; otherwise the slot is unchanged |
| Storage.StorageService.GetThemePreference | utils/storage.ts:109-116 | returns the stored theme, or null when the read fails |
| Storage.StorageService.SetThemePreference | utils/storage.ts:118-124 | a successful write stores the theme; a failed one leaves the slot |
| Storage.StorageService.GetLanguagePreference | utils/storage.ts:127-134 | returns the stored language, or null when the read fails |
| Storage.StorageService.SetLanguagePreference | utils/storage.ts:136-142 | a successful write stores the language; a failed one leaves the slot |
| Storage.StorageService.GetOnboardingStatus | utils/storage.ts:145-153 | true exactly when the read succeeds and the slot holds the string 'true' |
| Storage.StorageService.SetOnboardingCompleted | utils/storage.ts:155-161 | a successful write stores 'true'; a failed one leaves the slot |
| Storage.StorageService.ClearAllData | utils/storage.ts:164-176 | a successful removal empties all five slots; a failed one changes nothing |
| Storage.OnboardingRoundTrip | utils/storage.ts:145-161 | after onboarding is marked completed, the status reads back as true |
| Storage.ClearThenRead | utils/storage.ts:164-176 | after clearing, every getter returns its default ([], [], null, null, false) whether or not its read succeeds |
| Storage.AddToFavoritesAfterFailedRead | utils/storage.ts:14-22 | when the read inside addToFavorites fails and the write succeeds, the stored favorites become just the one id, whatever they were |
| Storage.AddToFavoritesTwice | utils/storage.ts:32-42 | adding a favorite twice stores what adding it once stores, and keeps the stored list duplicate-free |
| Catalog.SearchRecipes | hooks/useRecipes.tsx:119-130 | a blank query returns the whole catalog; otherwise the result keeps catalog order and every copy of exactly those recipes whose title, Amharic title, description, category or region contains the query, ignoring case |
| Catalog.SearchFindsTitlePiece | hooks/useRecipes.tsx:119-130 | a non-blank query that equals a piece of a catalog recipe's title up to letter case finds that recipe |
| Catalog.FilterRecipes | hooks/useRecipes.tsx:132-139 | the result keeps catalog order and every copy of exactly those recipes that meet every supplied (non-empty) criterion |
| Catalog.SearchIgnoresCase | hooks/useRecipes.tsx:122-128 | the query "DORO" finds a recipe titled "Doro Wat" |
| Seqs.Filter | hooks/useRecipes.tsx:133 | `filter` returns exactly the accepted elements, in their original order, and never a longer list |
| Seqs.FilterCount | hooks/useRecipes.tsx:133 | `filter` keeps every copy of an accepted element and drops every copy of a rejected one |
| Catalog.FilterWithoutCriteria | hooks/useRecipes.tsx:132-139 | with every criterion absent or empty, the whole catalog is returned |
| Catalog.FilterByCategory | hooks/useRecipes.tsx:134 | filtering by a category's name keeps exactly the recipes of that category |
| Catalog.GetRecipeById | hooks/useRecipes.tsx:141-143 | nothing exactly when no recipe carries the id; otherwise the recipe at the first position with that id |
| Catalog.GetRecipeByIdSkips | hooks/useRecipes.tsx:141-143 | a lookup in a catalog whose first part lacks the id is a lookup in the second part |
| RecipeTypes.HasId | hooks/useRecipes.tsx:145-147 | `isCustomRecipe` (and the same test on any list): true exactly when some position of the list carries the id |
| Catalog.Toggle | hooks/useRecipes.tsx:49-57 | an absent id is appended at the end; a present id is removed with every other id kept, in order and with all its copies |
| Catalog.ToggleTwice | hooks/useRecipes.tsx:47-61 | toggling twice restores membership, and for an id that was absent restores the list itself |
| Catalog.ToggleKeepsNoDuplicates | hooks/useRecipes.tsx:47-61 | toggling keeps the favorites duplicate-free |
| Catalog.AddThenFind | hooks/useRecipes.tsx:63-73 | after adding a recipe with a fresh id, lookup by that id returns it and it is custom |
| Catalog.UpdateThenFind | hooks/useRecipes.tsx:75-93 | after updating a custom recipe that no built-in recipe shadows, lookup returns the new record, and the set of custom ids is unchanged |
| Catalog.DeleteThenGone | hooks/useRecipes.tsx:95-117 | after deleting a custom recipe that no built-in recipe shadows, it cannot be found, is not custom and is not a favorite |
| Catalog.RecipeProvider.constructor | hooks/useRecipes.tsx:26-28 | before loading, the catalog is the built-in recipes and there are no favorites or custom recipes |
| Catalog.RecipeProvider.LoadData | hooks/useRecipes.tsx:34-45 | memory takes the loaded lists, the catalog is built-in followed by custom, and with both reads successful memory agrees with the store |
| Catalog.RecipeProvider.ToggleFavorite | hooks/useRecipes.tsx:47-61 | memory holds the toggled list; the store receives the matching remove or add; with healthy storage memory and store stay in agreement |
| Catalog.RecipeProvider.AddRecipe | hooks/useRecipes.tsx:63-73 | the recipe is appended in memory and in the store, and the catalog invariant holds; with healthy storage memory and store stay in agreement |
| Catalog.RecipeProvider.UpdateRecipe | hooks/useRecipes.tsx:75-93 | refused with 'Cannot update built-in recipes' exactly when the id is not custom, changing nothing; otherwise the record is replaced in memory and in the store |
| Catalog.RecipeProvider.DeleteRecipe | hooks/useRecipes.tsx:95-117 | refused with 'Cannot delete built-in recipes' exactly when the id is not custom, changing nothing; otherwise the recipe leaves the custom list and the favorites, in memory and in the store |
| Catalog.AddWithFailedWrite | hooks/useRecipes.tsx:63-73 | after adding with a failed store write, memory holds the recipe, the store does not, and the two disagree |
| Catalog.CatalogScenario | hooks/useRecipes.tsx:63-143 | with built-ins a and b, adding drink c, then filtering by drink, then deleting c gives [a, b, c], then [c], then [a, b], and c is not found |
| Catalog.FavoriteScenario | hooks/useRecipes.tsx:47-61 | favoriting one id twice gives [id] and then [] |
| TimerWidget.Elapse | components/Timer.tsx:21-31 | with no interval installed nothing changes; otherwise the count drops and stays non-negative, and onComplete fires exactly when the count reaches 0, which is exactly when the timer stops |
| TimerWidget.IdleStaysStill | components/Timer.tsx:21 | a paused or finished timer stays as it is for any number of seconds |
| TimerWidget.Countdown | components/Timer.tsx:21-31 | started at t > 0 seconds, it shows t - n after n < t seconds; from second t on it rests at 0, stopped, having called onComplete exactly once |
| TimerWidget.JsRemainder | components/Timer.tsx:39 | `%` takes the dividend's sign: in [0, 60) for a non-negative count, in (-60, 0] for a negative one |
| TimerWidget.JsRemainderIsRemainder | components/Timer.tsx:39 | the result differs from the dividend by a multiple of the divisor, which with the sign bounds makes it JavaScript's truncating remainder |
| TimerWidget.FormatTime | components/Timer.tsx:37-41 | for a non-negative count the text is one or more digits, a colon, and exactly two digits |
| TimerWidget.FormatTimeShape | components/Timer.tsx:37-41 | for a non-negative count, the text is the minutes without leading zeros, a colon, and exactly two second digits |
| TimerWidget.FormatTimeRoundTrip | components/Timer.tsx:37-41 | reading the m:ss text back gives the count: 60 * m + ss equals the seconds |
| TimerWidget.Timer.constructor | components/Timer.tsx:13-14 | a new timer holds the full duration and is paused |
| TimerWidget.Timer.Tick | components/Timer.tsx:21-31 | one firing of the interval moves the state as the one-second step does and reports whether onComplete fired; the count stays the full duration or within [0, duration) |
| TimerWidget.Timer.ToggleTimer | components/Timer.tsx:43-45 | flips running and paused and keeps the count |
| TimerWidget.Timer.ResetTimer | components/Timer.tsx:47-50 | from any state: paused at the full duration |
| Localization.Toggled | hooks/useLanguage.tsx:38 | the new language is the other one |
| Localization.ToggledTwice | hooks/useLanguage.tsx:38 | toggling twice gives back the language |
| Localization.Translate | hooks/useLanguage.tsx:46-51 | the result is one of the two texts; the Amharic text when Amharic is selected and that text is non-empty; the English text otherwise |
| Localization.LanguageProvider.constructor | hooks/useLanguage.tsx:19 | the initial language is English |
| Localization.LanguageProvider.LoadLanguage | hooks/useLanguage.tsx:25-34 | a saved preference replaces the language; a missing one or a failed read leaves it |
| Localization.LanguageProvider.ToggleLanguage | hooks/useLanguage.tsx:36-44 | memory switches to the other language, and a successful write persists that language |
| Localization.ToggleSurvivesRestart | hooks/useLanguage.tsx:25-44 | a language chosen by toggling is the one the next start loads |

## Left out

- AsyncStorage itself, JSON encoding and `JSON.parse`: a slot holds the typed value. A slot holding text that is not valid JSON, or a theme or language slot holding some other string, cannot arise in the model.
- A '@recipes' slot that holds valid JSON which is not a list, such as `null`, is not modelled. `getCustomRecipes` would return that value (utils/storage.ts:58). The following `push`, `map` or `filter` would then throw a TypeError. `addCustomRecipe`, `updateCustomRecipe` and `deleteCustomRecipe` rethrow it (utils/storage.ts:78-81, 91-94, 102-105). The provider rethrows it too, before memory changes (hooks/useRecipes.tsx:69-72, 89-92, 113-116). In the model a slot always holds a list, so this error path does not exist.
- The same kind of value in the '@favorites' slot is not modelled either. There, `includes` or `filter` would throw, and `addToFavorites` and `removeFromFavorites` would log the error and write nothing (utils/storage.ts:39-41, 49-51).
- Asynchrony: every `await` runs to completion in program order. The model has no interleaving of concurrent provider calls and no React batching of `setState`. The functional updates (`prev => ...`) are applied to the current list.
- `clearAllData` uses `multiRemove`, modelled as all-or-nothing. A partial removal by the backend is not modelled.
- `console.error` logging and the UI's `Alert` dialogs are side effects with no state and are left out.
- Text.Lower: lowercases ASCII letters only, not the full Unicode case mapping of `toLowerCase`. Ethiopic script has no case.
- The built-in `sampleRecipes` contents come from a data file that is not part of this model. The provider takes them as a parameter.
- `useTheme`, the colour palettes and every screen and component other than `Timer` are UI and not part of this model. The theme slot of `StorageService` is modelled.
- The timer's `setInterval` scheduling is modelled as one `Tick` per elapsed second while the interval is installed. The `progress` percentage is floating-point display and is left out. Durations are integers.
- `isAmharic` and the `useRecipes`/`useLanguage` context-guard errors are React plumbing and are left out.

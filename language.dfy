// hooks/useLanguage.tsx: the English/Amharic selector and its persisted preference.

module Localization {
  import opened RecipeTypes
  import opened Storage

  /** The other language (useLanguage.tsx:38). */
  function Toggled(language: Language): (r: Language)
    ensures r != language
  {
    if language == En then Am else En
  }

  /** Toggling twice gives back the language. */
  lemma ToggledTwice(language: Language)
    ensures Toggled(Toggled(language)) == language
  {
  }

  /** `t(en, am)`: the Amharic text when Amharic is selected and that text is
      given and non-empty (a truthy string), the English text otherwise. */
  function Translate(language: Language, en: string, am: Option<string>): (r: string)
    ensures r == en || (am.Some? && r == am.value)
    ensures language == Am && am.Some? && am.value != "" ==> r == am.value
    ensures language == En || am.None? || am == Some("") ==> r == en
  {
    if language == Am && am.Some? && am.value != "" then am.value else en
  }

  /** The state of `LanguageProvider`. */
  class LanguageProvider {
    const store: StorageService
    var language: Language

    /** English until a saved preference is loaded (useLanguage.tsx:19). */
    constructor (store: StorageService)
      ensures this.store == store && language == En
    {
      this.store := store;
      language := En;
    }

    /** `loadLanguage`: a saved preference replaces the language; a missing one
        or a failed read leaves it. */
    method LoadLanguage(readOk: bool)
      modifies this`language
      ensures language ==
        if readOk && store.language.Some? then store.language.value else old(language)
    {
      var savedLanguage := store.GetLanguagePreference(readOk);
      if savedLanguage.Some? {
        language := savedLanguage.value;
      }
    }

    /** `toggleLanguage`: switch in memory first, then persist the new language. */
    method ToggleLanguage(writeOk: bool)
      modifies this`language, store`language
      ensures language == Toggled(old(language))
      ensures store.language == if writeOk then Some(language) else old(store.language)
    {
      var newLanguage := Toggled(language);
      language := newLanguage;
      store.SetLanguagePreference(newLanguage, writeOk);
    }
  }

  /** A language chosen by toggling is the language the next start loads,
      when the write and the later read succeed. */
  method ToggleSurvivesRestart(store: StorageService) returns (chosen: Language, restored: Language)
    modifies store
    ensures restored == chosen
  {
    var before := new LanguageProvider(store);
    before.LoadLanguage(true);
    before.ToggleLanguage(true);
    chosen := before.language;
    var after := new LanguageProvider(store);
    after.LoadLanguage(true);
    restored := after.language;
  }
}

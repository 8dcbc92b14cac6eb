/**
 * The language service: the active language code, restricted to the supported
 * codes, a constant two-level translation table and a lookup with fallback.
 */
module Language {
  import opened Wrappers

  /** The key under which the chosen code is kept in the key-value storage. */
  const StorageKey: string := "language"
  const DefaultLang: string := "en"
  const SupportedLanguages: seq<string> := ["en", "es"]

  /** A table maps a language code to a map from a flat key (the dots belong to the key) to a string. */
  type Table = map<string, map<string, string>>

  const Translations: Table := map[
    "en" := map[
      "app.title" := "MyTodoList",
      "home.settings" := "Settings",
      "home.noItems" := "No Items Yet",
      "home.addFirst" := "Tap the + button to add your first item",
      "home.itemAdded" := "Item added",
      "home.itemUpdated" := "Item status updated",
      "home.itemDeleted" := "Item deleted",
      "add.title" := "Add Item",
      "add.label" := "Task Title",
      "add.button" := "Add Item",
      "add.error" := "Please enter a task title",
      "settings.title" := "Settings",
      "settings.language" := "Language Preferences",
      "settings.selectLanguage" := "Select Language",
      "settings.currentLanguage" := "Current language",
      "settings.about" := "About",
      "settings.version" := "MyFinalApp v1.0",
      "settings.description" := "A simple and elegant task management application built with Ionic and Angular."
    ],
    "es" := map[
      "app.title" := "MiListaTareas",
      "home.settings" := "Configuración",
      "home.noItems" := "Sin elementos aún",
      "home.addFirst" := "Toca el botón + para agregar tu primer elemento",
      "home.itemAdded" := "Elemento añadido",
      "home.itemUpdated" := "Estado del elemento actualizado",
      "home.itemDeleted" := "Elemento eliminado",
      "add.title" := "Agregar elemento",
      "add.label" := "Título de la tarea",
      "add.button" := "Agregar elemento",
      "add.error" := "Por favor, ingresa un título de tarea",
      "settings.title" := "Configuración",
      "settings.language" := "Preferencias de idioma",
      "settings.selectLanguage" := "Selecciona idioma",
      "settings.currentLanguage" := "Idioma actual",
      "settings.about" := "Acerca de",
      "settings.version" := "MiListaTareas v1.0",
      "settings.description" := "Una aplicación simple y elegante de gestión de tareas construida con Ionic y Angular."
    ]
  ]

  predicate IsSupported(code: string)
  {
    code in SupportedLanguages
  }

  /** The code the service adopts when asked for `code`: the code itself if supported, else the default. */
  function Normalize(code: string): (r: string)
    ensures IsSupported(r)
    ensures IsSupported(code) ==> r == code
    ensures !IsSupported(code) ==> r == DefaultLang
  {
    if IsSupported(code) then code else DefaultLang
  }

  /** Normalizing twice is normalizing once. */
  lemma NormalizeIdempotent(code: string)
    ensures Normalize(Normalize(code)) == Normalize(code)
  {
  }

  /** What reading the stored code gives: an exception, no value, or a string. */
  datatype StorageRead = ReadFailed | Missing | Stored(code: string)

  /** The decision of `loadLanguageFromStorage`: a supported saved code, else the default. */
  function LanguageFromRead(read: StorageRead): (lang: string)
    ensures IsSupported(lang)
    ensures read.Stored? && IsSupported(read.code) ==> lang == read.code
    ensures !(read.Stored? && IsSupported(read.code)) ==> lang == DefaultLang
  {
    match read
    case Stored(code) => if code != "" && IsSupported(code) then code else DefaultLang
    case _ => DefaultLang
  }

  /** Restoring a saved code normalizes it exactly as `setLanguage` does. */
  lemma RestoreIsNormalize(code: string)
    ensures LanguageFromRead(Stored(code)) == Normalize(code)
  {
  }

  /** The part of the service's state that `setLanguage` decides. */
  datatype Settings = Settings(current: string, storage: map<string, string>)

  /** The settings after `setLanguage(code)` when the storage write succeeds or fails (`written`). */
  function AfterSetLanguage(s: Settings, code: string, written: bool): (t: Settings)
    ensures IsSupported(t.current)
    ensures IsSupported(code) ==> t.current == code
    ensures !IsSupported(code) ==> t.current == DefaultLang
    ensures written ==> StorageKey in t.storage && t.storage[StorageKey] == t.current
    ensures written ==> forall k :: k in s.storage && k != StorageKey ==> k in t.storage && t.storage[k] == s.storage[k]
    ensures written ==> t.storage.Keys == s.storage.Keys + {StorageKey}
    ensures !written ==> t.storage == s.storage
  {
    var lang := Normalize(code);
    Settings(lang, if written then s.storage[StorageKey := lang] else s.storage)
  }

  /** Setting the same code twice, with the same storage outcome, is setting it once. */
  lemma SetLanguageIdempotent(s: Settings, code: string, written: bool)
    ensures AfterSetLanguage(AfterSetLanguage(s, code, written), code, written) == AfterSetLanguage(s, code, written)
  {
  }

  /** The in-memory language does not depend on whether the storage write succeeded. */
  lemma SetLanguageWriteIndependent(s: Settings, code: string)
    ensures AfterSetLanguage(s, code, true).current == AfterSetLanguage(s, code, false).current
  {
  }

  /** True when `table[lang][key]` exists and is not empty, the case in which `||` keeps it. */
  predicate HasEntry(table: Table, lang: string, key: string)
  {
    lang in table && key in table[lang] && table[lang][key] != ""
  }

  /** `table[lang]?.[key]` read as a truthy value. */
  function Lookup(table: Table, lang: string, key: string): Option<string>
  {
    if HasEntry(table, lang, key) then Some(table[lang][key]) else None
  }

  /** `translate`: the current language's entry, else the default language's, else the key. */
  function TranslateIn(table: Table, lang: string, key: string): (r: string)
    ensures HasEntry(table, lang, key) ==> r == table[lang][key]
    ensures !HasEntry(table, lang, key) && HasEntry(table, DefaultLang, key) ==> r == table[DefaultLang][key]
    ensures !HasEntry(table, lang, key) && !HasEntry(table, DefaultLang, key) ==> r == key
  {
    match Lookup(table, lang, key)
    case Some(v) => v
    case None =>
      match Lookup(table, DefaultLang, key)
      case Some(v) => v
      case None => key
  }

  /** A translation is empty only for the empty key. */
  lemma TranslateNonEmpty(table: Table, lang: string, key: string)
    ensures TranslateIn(table, lang, key) == "" ==> key == ""
  {
  }

  /** A key that neither the current nor the default table holds translates to itself. */
  lemma UnknownKeyIsItself(table: Table, lang: string, key: string)
    requires lang !in table || key !in table[lang]
    requires DefaultLang !in table || key !in table[DefaultLang]
    ensures TranslateIn(table, lang, key) == key
  {
  }

  /** The English and Spanish tables define the same keys, and no entry is empty. */
  lemma CatalogueComplete()
    ensures forall lang :: IsSupported(lang) ==> lang in Translations
    ensures Translations["en"].Keys == Translations["es"].Keys
    ensures forall lang, key :: lang in Translations && key in Translations[lang] ==> Translations[lang][key] != ""
  {
  }

  /** With the shipped table, a supported language finds every known key, and other keys stay as they are. */
  lemma TranslateCatalogue(lang: string, key: string)
    requires IsSupported(lang)
    ensures key in Translations[DefaultLang] ==> TranslateIn(Translations, lang, key) == Translations[lang][key]
    ensures key !in Translations[DefaultLang] ==> TranslateIn(Translations, lang, key) == key
  {
    CatalogueComplete();
  }

  /** The translation of `key` in each language of `langs`, in order. */
  function TranslateEach(table: Table, key: string, langs: seq<string>): (r: seq<string>)
    ensures |r| == |langs|
    ensures forall i :: 0 <= i < |r| ==> r[i] == TranslateIn(table, langs[i], key)
  {
    if langs == [] then [] else [TranslateIn(table, langs[0], key)] + TranslateEach(table, key, langs[1..])
  }

  /**
   * What a subscriber to `getTranslation(key)` receives: the translation once when it
   * subscribes, then once for every language value the language subject delivers, which
   * starts with the current one (replayed on subscription) and goes on with each later one.
   */
  function TranslationEmissions(table: Table, key: string, current: string, later: seq<string>): (r: seq<string>)
    ensures |r| == |later| + 2
    ensures r[0] == r[1] == TranslateIn(table, current, key)
    ensures forall i :: 0 <= i < |later| ==> r[i + 2] == TranslateIn(table, later[i], key)
  {
    [TranslateIn(table, current, key)] + TranslateEach(table, key, [current] + later)
  }

  /**
   * The service. `current` is the subject's value, `emitted` every value it has
   * published, oldest first, and `storage` the key-value storage, whose entry under
   * StorageKey holds the chosen code.
   */
  class LanguageService {
    var current: string
    var storage: map<string, string>
    var emitted: seq<string>

    ghost predicate Valid()
      reads this
    {
      && IsSupported(current)
      && |emitted| > 0
      && emitted[|emitted| - 1] == current
      && forall i :: 0 <= i < |emitted| ==> IsSupported(emitted[i])
    }

    function State(): Settings
      reads this
    {
      Settings(current, storage)
    }

    /**
     * Construction with `stored` the storage content and `readable` false when reading
     * it throws: the subject starts at the default and then takes the restored code.
     */
    constructor (stored: map<string, string>, readable: bool)
      ensures Valid()
      ensures storage == stored
      ensures readable && StorageKey in stored && IsSupported(stored[StorageKey]) ==> current == stored[StorageKey]
      ensures !(readable && StorageKey in stored && IsSupported(stored[StorageKey])) ==> current == DefaultLang
      ensures emitted == [DefaultLang, current]
    {
      var read := if !readable then ReadFailed else if StorageKey in stored then Stored(stored[StorageKey]) else Missing;
      var lang := LanguageFromRead(read);
      current := lang;
      storage := stored;
      emitted := [DefaultLang, lang];
    }

    /** `setLanguage(code)`; `written` is false when the storage write throws. */
    method SetLanguage(code: string, written: bool)
      requires Valid()
      modifies this
      ensures Valid()
      ensures State() == AfterSetLanguage(old(State()), code, written)
      ensures emitted == old(emitted) + [current]
    {
      var lang := code;
      if !IsSupported(lang) {
        lang := DefaultLang;
      }
      current := lang;
      emitted := emitted + [lang];
      if written {
        storage := storage[StorageKey := lang];
      }
    }

    method GetCurrentLanguage() returns (lang: string)
      requires Valid()
      ensures lang == current
      ensures IsSupported(lang)
    {
      lang := current;
    }

    method Translate(key: string) returns (r: string)
      requires Valid()
      ensures r == TranslateIn(Translations, current, key)
      ensures key !in Translations[DefaultLang] ==> r == key
    {
      r := TranslateIn(Translations, current, key);
      TranslateCatalogue(current, key);
    }
  }

  /** A caller's view: a fresh service without a stored code, an unsupported code, a supported one. */
  method SwitchLanguages()
  {
    var service := new LanguageService(map[], true);
    var lang := service.GetCurrentLanguage();
    assert lang == "en";
    service.SetLanguage("fr", true);
    assert service.current == "en" && service.storage == map["language" := "en"];
    service.SetLanguage("es", false);
    assert service.current == "es" && service.storage == map["language" := "en"];
    var missing := service.Translate("nonexistent.key");
    assert missing == "nonexistent.key";
  }
}

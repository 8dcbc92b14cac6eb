# Item store and language service, modelled in Dafny

This project models the two state containers behind the task-list app's UI.

- **Item store** (`ItemService`). It holds an ordered list of items (`id`, `title`, `status` of Pending or Completed). `addItem` appends. `toggleItem` flips the status of every item with a matching id. `deleteItem` drops every item with a matching id. `getCompletedCount` counts the Completed items. Each mutator publishes exactly one new snapshot.
- **Language service** (`LanguageService`). It holds the active language code, which is always `en` or `es`, and restores that code from storage at construction. `setLanguage` normalises an unsupported code to `en`, publishes it and tries to store it. `translate` looks a flat key up in a constant two-level table, falling back from the current language to `en` and then to the key itself.

Files:

- `wrappers.dfy`: the `Option` type.
- `items.dfy`: module `Items`. It has the item datatypes, the functions that build each published list (`ToggleAll`, `RemoveAll`, `CompletedCount`), lemmas about them, and the class `ItemService`.
- `language.dfy`: module `Language`. It has the constants, the translation table, the normalisation and restore decisions, the pure `setLanguage` transition (`AfterSetLanguage`), the fallback lookup `TranslateIn`, the emission rule of `getTranslation`, and the class `LanguageService`.

Publication through a `BehaviorSubject` is modelled as a history field that each mutator extends by one value:

- `ItemService.snapshots` starts as `[[]]`, because the subject is created holding the empty list.
- `LanguageService.emitted` starts as `["en", restored]`, because the subject is created with the default and the constructor then publishes the restored code.

In both classes, `Valid()` says that the last published value is the current one. For the language service it also says that every published code is supported.

Storage is a key-value map. The service reads and writes only the entry under `StorageKey` (`"language"`). Failures are passed in as parameters:

- the constructor's `readable` is false when reading storage throws;
- `SetLanguage`'s `written` is false when the write throws.

Some facts about the code that the model keeps:

- the service supports only `en` and `es`;
- the translation table is a constant, so there is nothing to load;
- keys are flat strings whose dots are ordinary characters;
- the item store does not check ids for uniqueness, and `AddItem` accepts duplicates.

Because `translate` combines its lookups with `||`, an empty stored string counts as absent (`HasEntry`). The inner subscription in `getTranslation` is to a `BehaviorSubject`, which replays its current value. So a subscriber gets the current translation twice before any later language change (`TranslationEmissions`).

## Model

| member | source | states |
|---|---|---|
| `Items.Flip` | src/app/services/item.service.ts:57 | the toggled status always differs from the original |
| `Items.ToggleAll` | src/app/services/item.service.ts:55-58 | same length and order; every id and title kept; items with the id have their status flipped; all other items are identical |
| `Items.ToggleTwice` | src/app/services/item.service.ts:53-61 | toggling the same id twice restores the original list |
| `Items.ToggleAbsent` | src/app/services/item.service.ts:55-58 | toggling an id that no item carries leaves the list unchanged |
| `Items.RemoveAll` | src/app/services/item.service.ts:68 | deletion never lengthens the list |
| `Items.RemoveAllMembers` | src/app/services/item.service.ts:68 | an item survives deletion if and only if it was in the list and its id differs |
| `Items.RemoveAllConcat` | src/app/services/item.service.ts:68 | deletion distributes over concatenation, so the survivors keep their original order |
| `Items.RemoveAbsent` | src/app/services/item.service.ts:68 | deleting an id that no item carries leaves the list unchanged |
| `Items.RemoveAllIdempotent` | src/app/services/item.service.ts:67-69 | after deletion no item has the id, and a second deletion changes nothing |
| `Items.CompletedCount` | src/app/services/item.service.ts:76 | the completed count is at most the list length |
| `Items.CompletedCountIsPositions` | src/app/services/item.service.ts:75-77 | the count equals the number of positions holding a Completed item |
| `Items.CompletedCountAppend` | src/app/services/item.service.ts:45-47 | appending raises the count by one exactly when the appended item is Completed, otherwise it leaves it unchanged |
| `Items.ItemService.constructor` | src/app/services/item.service.ts:27 | a fresh store holds, and has published, only the empty list |
| `Items.ItemService.GetItems` | src/app/services/item.service.ts:37-39 | returns the current list, which is the last published snapshot |
| `Items.ItemService.AddItem` | src/app/services/item.service.ts:45-47 | the new list is the old list with the item appended, duplicate ids included; exactly this list is published once |
| `Items.ItemService.ToggleItem` | src/app/services/item.service.ts:53-61 | the new list is the toggled list; exactly this list is published once, even when nothing matched |
| `Items.ItemService.DeleteItem` | src/app/services/item.service.ts:67-69 | the new list is the filtered list; exactly this list is published once, even when nothing matched |
| `Items.ItemService.GetCompletedCount` | src/app/services/item.service.ts:75-77 | returns the number of Completed positions, which is at most the length |
| `Language.Normalize` | src/app/services/language.service.ts:91-94 | the result is supported; a supported code is kept; any other code becomes `en` |
| `Language.NormalizeIdempotent` | src/app/services/language.service.ts:91-94 | normalising twice is the same as normalising once |
| `Language.LanguageFromRead` | src/app/services/language.service.ts:76-84 | a stored, supported code is restored; a missing or unsupported value, or a failed read, yields `en` |
| `Language.RestoreIsNormalize` | src/app/services/language.service.ts:79 | restoring a stored code normalises it exactly as `setLanguage` does |
| `Language.AfterSetLanguage` | src/app/services/language.service.ts:90-102 | the new language is the requested code if supported, otherwise `en`; a successful write stores it under the storage key and keeps every other entry; a failed write leaves storage as it was |
| `Language.SetLanguageIdempotent` | src/app/services/language.service.ts:90-102 | setting the same code twice with the same write outcome gives the same settings as setting it once |
| `Language.SetLanguageWriteIndependent` | src/app/services/language.service.ts:96-101 | the in-memory language is the same whether or not the storage write succeeds |
| `Language.TranslateIn` | src/app/services/language.service.ts:118-121 | returns the current table's non-empty entry; failing that, the `en` table's non-empty entry; failing that, the key |
| `Language.TranslateNonEmpty` | src/app/services/language.service.ts:120 | a translation is empty only when the key is empty |
| `Language.UnknownKeyIsItself` | src/app/services/language.service.ts:120 | a key absent from both the current and the `en` table translates to itself |
| `Language.CatalogueComplete` | src/app/services/language.service.ts:10-51 | both supported languages have tables; the `en` and `es` tables have the same keys; no entry is empty |
| `Language.TranslateCatalogue` | src/app/services/language.service.ts:118-121 | with the shipped table: in a supported language, every known key gets that language's entry, and every other key stays as it is |
| `Language.TranslateEach` | src/app/services/language.service.ts:128-135 | one translation per language value, each being that language's translation of the key |
| `Language.TranslationEmissions` | src/app/services/language.service.ts:128-135 | a subscriber gets the current translation twice (direct emission, then the subject's replay), then the translation for each later language value, in order |
| `Language.LanguageService.constructor` | src/app/services/language.service.ts:65-71 | storage is untouched; a readable, supported code stored under the storage key becomes current, otherwise `en`; `en` and then the current code are published |
| `Language.LanguageService.SetLanguage` | src/app/services/language.service.ts:90-102 | the settings move as `AfterSetLanguage` says; the new code is published once; the current code stays supported |
| `Language.LanguageService.GetCurrentLanguage` | src/app/services/language.service.ts:108-110 | returns the current code, which is supported |
| `Language.LanguageService.Translate` | src/app/services/language.service.ts:118-121 | returns the fallback lookup in the shipped table for the current language; a key outside the `en` table comes back as itself |

## Left out

- The RxJS machinery (`BehaviorSubject`, `Observable`, subscriber scheduling, unsubscription). Publication is a history of values that each mutator extends by one.
- `getTranslation` is a pure function of the language values the subscriber receives. It is not an object with a live subscription.
- `localStorage` is modelled as a `map<string, string>`, and its exceptions as a boolean per access. The logging through `console.warn` and `console.error` is left out, because it is output only.
- `getItems` returns the subject's own array, which a caller could mutate. The model returns a value, so that aliasing is not captured.
- JavaScript property lookup on the translation objects also finds inherited members: `translate('toString')` would return a function. Keys are modelled as plain map membership.
- The UI components, routing, bootstrap, test configuration and end-to-end tests are outside the two services.
- `crypto.randomUUID` is called by the add-item form, so id generation is not part of this model. The store takes ids as given.

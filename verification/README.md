# Pragmatic Meet (Mobilizon front end): verified model of its small rules

This project is a Dafny model of the logic in the Pragmatic Meet front end, a Vue/Apollo
client for Mobilizon. That logic is a handful of sequential, side-effect-free rules plus
one small piece of state:

- **Cache keys** (`CacheKeys`). The normalised Apollo cache derives a key for every fetched
  object:
  - an `Address` is keyed by its `origin_id`;
  - a `Media` by its uuid, else by its url, else by the library default;
  - every other object by the library default.
- **Current actor** (`Identity`). The store holds two cells: the cache's "current actor"
  slot and the saved actor data. `changeIdentity` and `initializeCurrentActor` update them,
  with early returns and one exception.
- **Usernames** (`Username`).
  - `convertToUsername` turns a display name into a username slug, as a chain of string
    rewrites.
  - `validateUsername` is a fixed-point test.
  - `autoUpdateUsername` moves the username along with the display name while the user has
    not edited it.
- **Actor display** (`Actors`):
  - the free functions `usernameWithDomain`, `displayName` and `displayNameAndUsername`;
  - the `Actor` class, with its defaults and its own `usernameWithDomain` method.
- **Mentions** (`Mention`):
  - the safe-label fallback of the editor's mention nodes;
  - the mention character;
  - the label, text and HTML renderings;
  - the empty-query guard of the person search.
- **Locale flags** (`Locale`). `countryFlagEmoji` computes a flag from code points.
  `flagForLocale` does a table lookup with one normalisation fallback.
- **Search filters** (`SearchFilters`, `CloseEvents`):
  - the online-filter modes;
  - their event type;
  - their URL parsing;
  - the query parameters of the nearby-events search.
- **Translation merge** (`Translations`). The maintenance script finds the English keys
  missing from the Polish file, adds them with the English text as a placeholder, and
  sorts the keys.

`Text` holds the JavaScript string primitives that these rules use:

- truthiness;
- `trim`;
- lower and upper case over a declared character domain;
- UTF-16 code units.

Each source file is one module. The pure rules are functions with lemmas. Code that changes
state is imperative Dafny:

- the current-actor store and the `Actor` record are classes;
- `buildQueryParams` is a method that assigns into a map;
- the translation script's loops are methods with loop invariants.

Each of those methods is proved against a specification function or predicate.

Two facts of the code that the model keeps as they are:

- `changeIdentity` and `initializeCurrentActor` have no cache eviction, refetch or
  stored-id matching;
- an `Address` key is `origin_id` verbatim, even when it is empty or missing.

## Model

| member | source | states |
|---|---|---|
| CacheKeys.DataIdFromObject | src/apollo/memory.ts:8-27 | An Address key is exactly its origin_id with no prefix. A Media key is "Media:" + uuid when the uuid is truthy, even when a url is present. Otherwise it is "Media:url:" + url when the url is truthy, and otherwise the default rule. Every other type, or no type at all, takes the default rule. |
| CacheKeys.KeyDependsOnlyOnReadFields | src/apollo/memory.ts:8-27 | Objects that agree on type, origin_id, uuid, url and the default rule's result get the same key, so the rule is deterministic. |
| CacheKeys.MediaKeysCollideOnlyOnSameIdentifier | src/apollo/memory.ts:14-21 | Two Media objects with a uuid or url get the same key only when they have the same uuid, or the same url. The one exception is a uuid spelled "url:" + the other object's url. |
| CacheKeys.MediaUuidAndUrlKeysCanCoincide | src/apollo/memory.ts:14-21 | That exception happens: a Media with uuid "url:x" and one with url "x" share the key "Media:url:x". |
| Identity.CurrentActorStore.ChangeIdentity | src/utils/identity.ts:21-40 | A missing identity, or one without an id, changes nothing. A rejected slot write raises and saves nothing. Otherwise the slot and the saved data both become the identity. |
| Identity.CurrentActorStore.InitializeCurrentActor | src/utils/identity.ts:45-77 | An undefined list changes nothing. An empty list raises NoIdentitiesException and changes nothing. Otherwise identities[0] is adopted into the slot and the saved data, when it has an id and the slot write succeeds. |
| Identity.InvalidIdentityChangesNothing | src/utils/identity.ts:24-27 | changeIdentity with an undefined identity or an empty id leaves both cells as they were and completes normally. |
| Identity.SaveFollowsSlotWrite | src/utils/identity.ts:32-35 | The saved data changes only when the slot write succeeded. After a failed write the failure propagates and both cells are unchanged. |
| Identity.InitializeGuards | src/utils/identity.ts:50-58 | initializeCurrentActor(undefined) changes nothing and does not raise. initializeCurrentActor([]) raises NoIdentitiesException and changes nothing. |
| Identity.InitializeAdoptsFirst | src/utils/identity.ts:61-72 | A non-empty list behaves as changeIdentity(identities[0]). Later elements are ignored: any list with the same first element gives the same result. |
| Identity.OperationsAreIdempotent | src/utils/identity.ts:32-72 | Repeating either operation with the same argument ends in the state of a single call. |
| Username.ConvertToUsername | src/utils/username.ts:3-46 | null and "" give "". Every character of the result is in [a-z0-9_]. |
| Username.Filter | src/utils/username.ts:44 | The character filter keeps only accepted characters, never invents one, and leaves an all-accepted string unchanged. |
| Username.ReplaceFirstRunChanges | src/utils/username.ts:40-45 | The non-global run replacement changes nothing when there is no run of two. Otherwise it shortens by at least the run minus the replacement, and it introduces no new characters. |
| Username.Transliterate | src/utils/username.ts:7-36 | Each character's replacement has at least one character. |
| Username.TransliterateUsernameChar | src/utils/username.ts:36 | Characters outside the transliteration class, such as [a-z0-9_], spaces and - & +, are left as they are. |
| Username.TransliterateAllAppend | src/utils/username.ts:36 | The global replacement works character by character, so it distributes over concatenation. |
| Username.Joined | src/utils/username.ts:41-43 | A space, -, & or + becomes "_" and every other character stays. |
| Username.LowerKeepsPlain | src/utils/username.ts:34 | Lower-casing leaves [a-z0-9_] and the separators unchanged. |
| Username.PreparedAfterTransliteration | src/utils/username.ts:33-44 | Once the first two stages give username characters and separators with no whitespace run, the remaining stages only turn separators into "_". |
| Username.UsernameIsFixedPoint | src/utils/username.ts:3-46 | A string of [a-z0-9_] without "__" converts to itself. |
| Username.FixedPointIsUsername | src/utils/username.ts:3-46 | A string that converts to itself is made of [a-z0-9_] and has no "__". |
| Username.ValidateUsername | src/utils/username.ts:62-64 | A null username is never valid, and a valid one uses only [a-z0-9_]. |
| Username.ValidateIffUsername | src/utils/username.ts:62-64 | validateUsername is true exactly when preferredUsername is present, uses only [a-z0-9_] and has no "__". |
| Username.ConvertIgnoresCase | src/utils/username.ts:34 | Lower-casing the input first does not change the username. |
| Username.SeparatorBecomesUnderscore | src/utils/username.ts:41-44 | Two words joined by a space, -, & or + convert to the words joined by one "_". |
| Username.PreparedTwoWords | src/utils/username.ts:33-44 | The stages before the final deletion turn word, separator, word into word "_" word. |
| Username.PreparedThreeWords | src/utils/username.ts:43-44 | Three words with two separators between each pair reach the final stage as w1 "__" w2 "__" w3. |
| Username.DeleteFirstOfTwoRuns | src/utils/username.ts:45 | The non-global deletion removes the first "__" and keeps the second. |
| Username.OnlyFirstRunDeleted | src/utils/username.ts:43-45 | "a--b--c"-shaped input converts to w1 w2 "__" w3: the first run is deleted outright and the second is kept. |
| Username.RunBetweenWordsDeleted | src/utils/username.ts:45 | Two words separated by "__" convert to the words run together. |
| Username.ConvertIsNotIdempotent | src/utils/username.ts:40-45 | For the three-word inputs above, converting the result again changes it, so the conversion is not idempotent. |
| Username.PolishLettersTransliterated | src/utils/username.ts:9-36 | "Łódź" converts to "lodz". |
| Username.SharpSTransliterated | src/utils/username.ts:13-36 | "ß" converts to "ss". |
| Username.TransliteratedToUsername | src/utils/username.ts:33-46 | A name whose lower-cased transliteration already is a valid username converts to exactly that. |
| Username.AutoUpdateUsername | src/utils/username.ts:48-60 | Only preferredUsername may differ from the input actor. When the old username is convertToUsername(name), it becomes convertToUsername(newDisplayName). Otherwise the actor comes back unchanged. |
| Username.AutoUpdateKeepsTracking | src/utils/username.ts:53-57 | A username that tracks the display name keeps tracking the new name. One the user edited is never touched. |
| Actors.UsernameWithDomain | src/types/actor/actor.model.ts:69-104 | The result is "" exactly for an undefined actor or an empty username. Otherwise it is user@domain with a domain, whatever force is. Without a domain it is user@hostname when forced, and user alone when not. |
| Actors.HostnameReadOnlyWhenForcedWithoutDomain | src/types/actor/actor.model.ts:87-97 | The page hostname can affect the result only when force is set and the actor has no domain. |
| Actors.DisplayName | src/types/actor/actor.model.ts:106-128 | The result is name exactly when name is present, non-empty and not "undefined". Otherwise it is usernameWithDomain(actor). It is empty exactly when neither a valid name nor a username exists. |
| Actors.DisplayNameAndUsername | src/types/actor/actor.model.ts:130-135 | The result is name " (@" usernameWithDomain ")" when name is truthy, not "undefined" and not blank after trimming. Otherwise it is usernameWithDomain. |
| Actors.BlankNameShownOnlyByDisplayName | src/types/actor/actor.model.ts:109-135 | A whitespace-only name is shown by displayName but skipped by displayNameAndUsername. |
| Actors.NameWithoutUsernameGivesEmptyParentheses | src/types/actor/actor.model.ts:131-132 | A name with no username renders as "Ann (@)". |
| Actors.Actor.constructor | src/types/actor/actor.model.ts:28-52 | Every field is the hash's value when the hash gives one. Otherwise it is the class default: "" for name, preferredUsername, summary and url; null domain, avatar and banner; mediaSize 0; suspended false; type PERSON; approval APPROVED. |
| Actors.Actor.UsernameWithDomain | src/types/actor/actor.model.ts:58-62 | The result is "" without a username. Otherwise it is "@user@domain" or "@user", which is the free function's result with a leading "@". |
| Actors.Actor.DisplayName | src/types/actor/actor.model.ts:64-66 | The method gives the actor's name when it is valid, and otherwise the free usernameWithDomain of its fields, as the free displayName does. |
| Actors.DefaultActor | src/types/actor/actor.model.ts:28-52 | new Actor() has the documented defaults, and its username and display name are "". |
| Mention.PassesLabelTest | src/components/Editor/Mention.ts:66-70 | The label test holds exactly for a truthy label that is not "undefined" and not blank after trimming. |
| Mention.GetSafeLabel | src/components/Editor/Mention.ts:60-78 | A usable label is returned as is. Otherwise the result is the id, or "" when the id is missing. |
| Mention.SafeLabelSources | src/components/Editor/Mention.ts:66-77 | The safe label is "undefined" only when the id is "undefined". A blank safe label is always the id fallback. The safe label is empty exactly when the label is unusable and the id is missing or empty. |
| Mention.MentionChar | src/components/Editor/Mention.ts:95-96 | The node's mentionSuggestionChar wins, then the options' suggestion char, then "@". The result is never empty. |
| Mention.RenderLabel | src/components/Editor/Mention.ts:85-110 | renderLabel ends in the safe label, preceded by at least one mention character. |
| Mention.RenderText | src/components/Editor/Mention.ts:111-128 | renderText ends in the safe label, preceded by at least one mention character. |
| Mention.RenderHtml | src/components/Editor/Mention.ts:143-147 | The result is a span with class "mention" and data-id equal to the node id. |
| Mention.RenderingsAgree | src/components/Editor/Mention.ts:107-146 | renderLabel, renderText and the HTML text are the same string: the mention character followed by the safe label. |
| Mention.RenderedLabelSource | src/components/Editor/Mention.ts:66-125 | The rendered text ends in the label when it is usable, and in the id-or-empty fallback otherwise. |
| Mention.FetchItems | src/components/Editor/Mention.ts:13-55 | An empty query gives [] and issues no search. Any other query searches for itself and returns the found persons, or [] when the search fails. |
| Mention.SuggestionItems | src/components/Editor/Mention.ts:152-175 | A call of suggestion.items that no other call follows within the debounce delay searches exactly for a non-empty query, and for that query. The empty query gives []. |
| Mention.SuggestionsAreFetchedItems | src/components/Editor/Mention.ts:152-175 | Such an isolated call gives the same result as fetchItems, and it searches exactly for non-empty queries. |
| Mention.LastSearchIndex | src/components/Editor/Mention.ts:57-169 | The call of a burst that reaches the debounced fetchItems last is the last non-empty query. There is none exactly when every query is empty. |
| Mention.SuggestionBurst | src/components/Editor/Mention.ts:57-175 | A burst of calls issues at most one search, for its last non-empty query, and none when every query is empty. Every non-empty call settles with that search's suggestions, and every empty one with []. |
| Mention.LoneCallIsSuggestionItems | src/components/Editor/Mention.ts:57-175 | A burst of one call is the isolated call. |
| Mention.SupersededQueryNotSearched | src/components/Editor/Mention.ts:57-175 | For the burst [a, b] of non-empty queries, only b is searched and both calls settle with b's suggestions. |
| Locale.IndicatorFor | src/utils/locale.ts:4-5 | Each code point is the code unit - 65 + 0x1F1E6. |
| Locale.CountryFlagEmoji | src/utils/locale.ts:1-7 | An upper-cased input whose length in UTF-16 units is not 2 gives "". Otherwise the result is two code points. An input longer than two characters never gets a flag. |
| Locale.FlagOfLetters | src/utils/locale.ts:2-6 | Two ASCII letters, in either case, give the two regional indicators of their upper-case letters. |
| Locale.FlagIdentifiesRegion | src/utils/locale.ts:2-6 | Two-letter codes give the same flag exactly when they are the same code up to case. |
| Locale.SharpSGetsFlagOfSS | src/utils/locale.ts:2-3 | "ß" upper-cases to "SS", so it is given the flag of "SS". |
| Locale.FlagForLocale | src/utils/locale.ts:9-50 | The own-key lookup returns "" or one stored eight-character text. |
| Locale.FlagLookupOrder | src/utils/locale.ts:10-49 | The raw key is looked up first, then the normalised key (first "_" replaced by "-", then lower-cased), then "" is returned. |
| Locale.ReplaceFirstUnderscore | src/utils/locale.ts:11 | The result has the same length, only an "_" may become "-", and a string without "_" is unchanged. |
| Locale.NoFlagForMissingLanguage | src/utils/locale.ts:10-49 | An undefined or empty language gives "". |
| Locale.FlagIsTableValue | src/utils/locale.ts:14-49 | The result is "" or one of the table's values. |
| Locale.ChineseKeysFoundAsGiven | src/utils/locale.ts:41-42 | zh_Hans and zh_Hant are found under their own keys. |
| Locale.UnderscoreKeyFoundAsGiven | src/utils/locale.ts:37 | pt_BR is found under its own key. |
| Locale.UpperCaseBrazilianFound | src/utils/locale.ts:11-46 | PT-BR and PT_BR are found through the normalised "pt-br" entry. |
| Locale.CapitalisedCodeIsNotAKey | src/utils/locale.ts:14-47 | No key starts with a capital, so such inputs are found only through normalisation. |
| Locale.LocaleRegionsAreRegions | src/utils/locale.ts:14-47 | Every table row stands for a two-letter region. |
| Locale.StoredFlagIsMisreadFlag | src/utils/locale.ts:14-47 | The text stored for a region is the UTF-8 bytes of that region's flag, read as Windows-1254. |
| Locale.FlagForLocaleAsWritten | src/utils/locale.ts:49 | The lookup as written returns a string, "" or a stored text, or else a member inherited from Object.prototype, and nothing else. |
| Locale.PropertyRead | src/utils/locale.ts:49 | Reading a property of the object literal gives a table value for a key, and the inherited member for an Object.prototype name. Any other name gives undefined. |
| Locale.AsWrittenReturnsInheritedMember | src/utils/locale.ts:49 | As written, flagForLocale("constructor") returns the inherited Object constructor, not a string. The corrected lookup gives "". |
| Locale.AsWrittenNormalisesToInheritedMember | src/utils/locale.ts:11-49 | "Constructor" reaches the inherited member through the normalised key. |
| Locale.AsWrittenAgreesOffPrototypeNames | src/utils/locale.ts:49 | For every language whose raw and normalised keys are not Object.prototype names, the as-written lookup returns the corrected lookup's string. |
| Locale.StoredFlagsAreMisreadIntended | src/utils/locale.ts:14-49 | For every language, the returned text is the intended flag's UTF-8 bytes read as Windows-1254. |
| Locale.IntendedFlagIsRegionFlag | src/utils/locale.ts:1-49 | The lookup with the intended flags as values returns "" or exactly two regional-indicator code points. It returns "" exactly when the own-key lookup of the stored texts, FlagForLocale, does. |
| SearchFilters.GetEventTypeForFilter | tests/unit/specs/views/SearchView.spec.ts:18-30 | The result is no type exactly for include_online, ONLINE exactly for online_only, and IN_PERSON exactly for none. |
| SearchFilters.ParseOnlineFilterFromUrl | tests/unit/specs/views/SearchView.spec.ts:78-84 | A mode other than none is read only from its own name. |
| SearchFilters.ParseRoundTrip | tests/unit/specs/views/SearchView.spec.ts:78-94 | Parsing a mode's own URL value gives that mode. |
| SearchFilters.FilterNamesDistinct | tests/unit/specs/views/SearchView.spec.ts:78-84 | Distinct modes are written as distinct URL values. |
| SearchFilters.UnrecognisedValueMeansNoFilter | tests/unit/specs/views/SearchView.spec.ts:83-109 | null, "" and every unrecognised value parse to none. |
| SearchFilters.EventTypeFromUrl | tests/unit/specs/views/SearchView.spec.ts:21-83 | From the URL, the search is unrestricted exactly for include_online and ONLINE exactly for online_only. Every other value, the missing one included, gives IN_PERSON. |
| CloseEvents.BuildQueryParams | tests/unit/specs/components/Local/CloseEvents.spec.ts:16-47 | longEvents false and limit 93 are always set. location and radius are set together, exactly for profile, last_searched or gps with a truthy geohash, and then type is IN_PERSON. Those modes without a geohash set nothing else. online_only sets type ONLINE. Every other mode sets type IN_PERSON. ONLINE is asked for exactly in online_only. |
| Translations.MissingKeysExact | compare_translations.cjs:15-24 | The missing entries are exactly the English entries whose key is absent from the Polish map, each with its English value, and without repetitions. |
| Translations.FindMissingKeys | compare_translations.cjs:15-24 | The loop collects exactly those entries, in English order. |
| Translations.NothingMissingIffCovered | compare_translations.cjs:29 | Nothing is missing exactly when every English key is a Polish key. |
| Translations.ToDictContents | compare_translations.cjs:31-35 | The placeholder object has exactly the missing keys, each with its English value. |
| Translations.MissingTranslations | compare_translations.cjs:31-35 | The forEach loop builds that placeholder object. |
| Translations.MergedContents | compare_translations.cjs:38 | The merged keys are the union of the Polish and English keys. Every Polish value is kept, and every added key carries its English value. |
| Translations.KeyLessStrictTotal | compare_translations.cjs:42 | The default sort order, over UTF-16 code units, is a strict total order on keys. |
| Translations.LexTransitive | compare_translations.cjs:42 | Code-unit order is transitive. |
| Translations.Insert | compare_translations.cjs:42 | Inserting a new key into a sorted list keeps it sorted and adds exactly that key. |
| Translations.SortKeys | compare_translations.cjs:42 | The sorted keys are in ascending order and are exactly the given keys, each once. |
| Translations.SortedIsUnique | compare_translations.cjs:42 | Two ascending lists with the same keys are equal, so the key order does not depend on how the sort works. |
| Translations.SortedEntries | compare_translations.cjs:41-44 | The output object lists each sorted key with its merged value, in sorted order. |
| Translations.WrittenEntries | compare_translations.cjs:38-44 | Sorted merged entries have ascending keys and the union of keys. Polish values are kept and added values are English. |
| Translations.MergeAndSort | compare_translations.cjs:31-44 | Merging and sorting produces that file content. |
| Translations.UpdatePolish | compare_translations.cjs:15-54 | The reported count is the number of missing keys. Nothing is written exactly when nothing is missing. Otherwise the written content has ascending keys, the union of keys, the Polish values kept and English placeholders. |
| Text.TrimEmptyIffBlank | src/components/Editor/Mention.ts:69 | `trim()` gives "" exactly when every character is JavaScript whitespace. |
| Text.ToLower | src/utils/username.ts:34 | Lower-casing keeps the length and maps each character on its own. ASCII letters become lower-case ASCII letters and no other character does. Digits stay digits and "_" stays "_". |
| Text.ToUpper | src/utils/locale.ts:2-3 | Upper-casing never shortens a string. |
| Text.Utf16Injective | compare_translations.cjs:42 | Different strings have different UTF-16 code-unit sequences. |

## Left out

- All `console.*` logging, and the file and network I/O: reading and writing the translation files, `JSON.parse`, `JSON.stringify` and `process.exit`. The translation model takes the two parsed objects and returns the content that would be written.
- Foreign primitives are parameters:
  - the library's `defaultDataIdFromObject` is a function argument;
  - `window.location.hostname` is a string argument;
  - the outcome of the `updateCurrentActorClient` mutation is a boolean argument;
  - the Apollo person search is a function argument, whose failure is a `Failed` result.
- `saveActorData` lives in `@/utils/auth`, which is not part of this model. It is a write to the saved-actor field. `onUpdateCurrentActorClientDone` only registers a logging callback, so it is not modelled.
- `pDebounce` in Mention.ts is modelled by its outcome, not its timing: a burst is given as the sequence of its calls (Mention.SuggestionBurst), and which calls fall within 200 ms of each other is not modelled. The tippy/VueRenderer popup lifecycle (`render`, lines 176-233) is not modelled, because it is UI and DOM code.
- Mention.SuggestionsAreFetchedItems: holds for a call that no other call follows within the debounce delay. A call superseded within the delay returns the result of the last call of its burst and issues no search of its own (Mention.SupersededQueryNotSearched).
- Identity.CurrentActorStore.ChangeIdentity and Identity.CurrentActorStore.InitializeCurrentActor: each call is modelled as atomic. The source suspends at `await updateCurrentActorClient` before `saveActorData`, so two overlapping calls can end with the slot written by one and the saved data by the other. That interleaving is not modelled, and Identity.SaveFollowsSlotWrite holds for one call at a time.
- `Actor.displayNameAndUsername` getter (actor.model.ts:54-56): not modelled. It interpolates the unapplied method and would print a function's text.
- Character handling:
  - `toLocaleLowerCase` is modelled over ASCII, Latin-1, the Polish capitals and Ÿ. `toUpperCase` is modelled over ASCII and Latin-1 only. Every other character is its own case in the model.
  - `toLocaleLowerCase` is modelled for a locale without special casing. Under a Turkish or Azeri locale "I" lower-cases to "ı", which the final filter drops; the model gives "i".
  - NFD is not a separate stage. Every accented character of the domain that survives the `[a-z0-9_]` filter is transliterated first.
  - Full Unicode case mapping and decomposition are not modelled.
- Username.ConvertToUsername: outside that domain the model and the source differ. The source decomposes letters such as ř, č, ě, ő or ș into a base letter and a combining mark, then removes the mark. The model leaves them whole and the final filter drops them. So "Dvořák" gives "dvorak" in the source and "dvoak" in the model. Every lemma about ConvertToUsername, ConvertIgnoresCase and TransliteratedToUsername describes the source only for input inside the domain.
- Locale.CountryFlagEmoji: a lower-case letter outside Latin-1 is not upper-cased. For "ąb" the model uses code unit 0x105 where the source uses 0x104.
- JavaScript whitespace is the set that `trim` and `\s` remove, over the same domain.
- Translations.MergedContents and Translations.UpdatePolish require the English entries to have distinct keys. A parsed JSON object never repeats a key, so this holds for every input the script can read.
- Keys made only of digits are not modelled. A JavaScript object enumerates them first, in numeric order, both in `for...in` and in the written file. The model writes all keys in sort order.
- `key in pl` and `map[original]` also see inherited `Object.prototype` names. In the translation script, English keys such as "constructor" or "toString" would be counted as present in the Polish file; the model compares keys only. The same behaviour in `flagForLocale` is modelled (see Findings).
- Translations.SortKeys: the library sort is modelled as an insertion sort over the same code-unit order. Translations.SortedIsUnique shows that every correct sort gives this order.
- CloseEvents.BuildQueryParams: `radius` is an unbounded integer. The model does not distinguish JavaScript numbers such as NaN or fractions, which the builder copies unchanged.

## Findings

The two findings are independent. The lookup has an as-written form that sees inherited names (Locale.FlagForLocaleAsWritten), and a corrected form that sees only the table's own keys (Locale.FlagForLocale). Both return the table's stored texts. The second finding is about those texts: Locale.FlagForLocale returns them as stored, and Locale.IntendedFlagForLocale is the same own-key lookup with the intended flags as values.

| source | as written | input that shows it | evidently intended | confidence | as-written member | corrected member |
|---|---|---|---|---|---|---|
| src/utils/locale.ts:49 | `map[original] ?? map[normalized]` reads a plain object literal, so inherited `Object.prototype` members are found too | `flagForLocale("constructor")` returns the `Object` constructor function instead of a string; `"Constructor"` does the same after normalisation | Only the table's own keys are found, and any other language gives "" | high, not executed | Locale.AsWrittenReturnsInheritedMember | Locale.FlagIsTableValue |
| src/utils/locale.ts:15-46 | Every table value is the UTF-8 encoding of a flag emoji read back as Windows-1254 text (mojibake) | `flagForLocale("pl")` returns the 8-character text "ğŸ‡µğŸ‡±" instead of the Polish flag | The value is the flag itself: two regional-indicator code points, as `countryFlagEmoji` would compute | medium (the file's encoding as served is assumed), not executed | Locale.StoredFlagsAreMisreadIntended | Locale.IntendedFlagIsRegionFlag |

# Info Poland: translation scripts and sitemap, modelled in Dafny

This project models three parts of the Info Poland website's repository:

- **scripts/translate-with-deepl.js** reads the English message bundle `messages/en.json`. It walks the bundle depth first, sends every string leaf to DeepL, and writes the rebuilt bundle to `messages/<locale>.json` for each requested locale. A locale missing from the script's `languageMap` is skipped. At the end the script lists the site's locales that DeepL cannot handle.
- **scripts/translate-with-google.js** does the same through Google Cloud Translation. It has a larger `languageMap` and no skip: an unmapped code is sent with an undefined target.
- **app/sitemap.ts** builds one homepage entry per locale, then one entry for every (page, locale) pair. Each entry lists the same page under every locale as its language alternates.

Layout:

- `wrappers.dfy` (module `Wrappers`): `Option`.
- `json_tree.dfy` (module `JsonTree`): the parsed bundle as a `Value` tree, and the provider as an oracle `Provider`. The oracle is asked `p(n, text, target)`, where `n` is the number of earlier calls. It answers `Some(translation)`, or `None` for a call that throws. The module also holds:
  - the reference meaning of `countStrings` (`LeafCount`) and of `translateObject` (`Walk`);
  - reference views of a document: its leaves, its key/value pair count and its shape;
  - the lemmas relating them.
- `messages.dfy` (module `Messages`): the `messages/` directory as a map from locale code to file contents, and `Source`, which is what reading and parsing `messages/en.json` yields.
- `deepl_script.dfy` (module `DeeplScript`): the script's tables and the `CountStrings` method. Its `Script` class has the script's globals and the `messages/` directory as fields. Its methods are `translateObject` (with its two loops), `translateLanguage` and `main`. `translateObject` is proved equal to the reference walk. The loop of `main` is proved equal to `RunAll`, a value-level replay of the `translateLanguage` runs. Lemmas about `RunAll` then give the counters and say which files are written and what each one holds.
- `google_script.dfy` (module `GoogleScript`): the same for the Google script.
- `sitemap.dfy` (module `Sitemap`): `sitemap()` as pure functions over the locale list and the page list, with count, order, URL and alternates lemmas.

The models follow the code's own behaviour:

- A failed provider call keeps the original text.
- The success counter grows only on success.
- There is one rate-limit pause after each object entry and none after array elements; the pause is counted in `pauses`.
- The counters are reset only after `en.json` has been read and parsed.
- A read or parse failure returns `false` before anything is reset or written.
- `main` in the DeepL script counts a skipped locale as a failure.
- In the Google script, requesting `en` overwrites `messages/en.json`, and later locales in the same run are translated from that overwritten file. The model proves that every file written still has the original document's shape.

## Model

| member | source | states |
|---|---|---|
| JsonTree.LeafCount | scripts/translate-with-deepl.js:55-65 | definition, no ensures: one for a string, the sum over array elements and object values, zero for anything else. `JsonTree.LeafCountIsLeaves` ties it to the leaves, and `DeeplScript.CountStrings` is proved equal to it |
| JsonTree.Walk | scripts/translate-with-deepl.js:68-102 | definition, no ensures: the reference `translateObject`. Each string leaf is sent as the next provider call and replaced by the answer, or kept when the call fails; arrays and objects are rebuilt in order. `JsonTree.WalkKeepsShape`, `JsonTree.WalkLeaves`, `JsonTree.WalkUnchanged` and `JsonTree.TranslatedCount` characterise it, and both `Script.TranslateObject` methods are proved equal to it |
| Messages.Source | scripts/translate-with-deepl.js:117-119 | definition, no ensures: reading and parsing `messages/en.json` gives the document, or nothing when the file is missing or does not parse. Both `Script.TranslateLanguage` methods take their failure path exactly when it gives nothing |
| JsonTree.LeafCountIsLeaves | scripts/translate-with-deepl.js:55-65 | the number `countStrings` returns equals the number of string leaves the translation walk visits |
| JsonTree.WalkItems | scripts/translate-with-deepl.js:83-89 | translating an array yields an array of the same length |
| JsonTree.WalkMembers | scripts/translate-with-deepl.js:91-99 | translating an object yields an object with as many entries |
| JsonTree.WalkKeepsShape | scripts/translate-with-deepl.js:68-102 | whatever the provider answers, the output has the input's structure: same array lengths, same keys in the same order, equal numbers, booleans and nulls, strings where strings were |
| JsonTree.WalkLeaves | scripts/translate-with-deepl.js:69-81 | the i-th leaf of the output is the provider's answer for the i-th source leaf (sent as call start+i), or that leaf itself when the call failed; the success counter grows by exactly the number of calls that succeeded |
| JsonTree.AnsweredAt | scripts/translate-with-deepl.js:71-79 | leaf i is sent as call start+i, and the answer is the translation on success and the original text on failure |
| JsonTree.SucceededPlusFailed | scripts/translate-with-deepl.js:70-80 | every provider call either succeeds or falls back, so successes plus failures equal the number of leaves |
| JsonTree.ShapeAndLeavesDetermine | scripts/translate-with-deepl.js:68-102 | two documents of the same shape have equally many leaves, and if their leaves also agree they are the same document |
| JsonTree.SameShapePairs | scripts/translate-with-google.js:78-85 | two documents of the same shape have the same number of object key/value pairs, so a walk over either pauses equally often |
| JsonTree.SameShapeCosts | scripts/translate-with-google.js:98-104 | a rewritten source that keeps the original's shape costs every later run the same number of requests and pauses |
| JsonTree.SameShapeReflexive | scripts/translate-with-google.js:98-104 | every document has its own shape |
| JsonTree.SameShapeTransitive | scripts/translate-with-google.js:98-104 | a translation of a translation keeps the original's shape |
| JsonTree.WalkUnchanged | scripts/translate-with-deepl.js:76-80 | a provider that only fails or echoes its input gives back exactly the input document |
| JsonTree.FailingProviderKeepsDocument | scripts/translate-with-deepl.js:77-80 | with every call failing, the output equals the input and nothing is counted as translated |
| JsonTree.IdentityProviderKeepsDocument | scripts/translate-with-deepl.js:71-76 | with an identity provider, the output equals the input and every leaf is counted |
| JsonTree.TranslatedCount | scripts/translate-with-deepl.js:72 | translatedStrings equals countStrings minus the failed calls, and equals countStrings when no call fails |
| JsonTree.AllSucceeded | scripts/translate-with-deepl.js:71-76 | when the provider never throws, every leaf is counted as a success |
| DeeplScript.LanguageKeysAreTheTable | scripts/translate-with-deepl.js:35-48 | `Object.keys(languageMap)` lists exactly the codes of the table, and `en` is not one of them |
| DeeplScript.Unsupported | scripts/translate-with-deepl.js:187-188 | definition, no ensures: `allLangs.filter(lang => !languageMap[lang])`, in order. `DeeplScript.PartitionByTable` characterises its members and size |
| DeeplScript.PartitionByTable | scripts/translate-with-deepl.js:187-188 | the unsupported list holds exactly the requested codes missing from languageMap, the supported list the others, and together they account for every code |
| DeeplScript.CountStrings | scripts/translate-with-deepl.js:55-65 | the loop-based count equals the number of string leaves: one per string, summed over array elements and object values, none for other values |
| DeeplScript.Script.constructor | scripts/translate-with-deepl.js:51-52 | the counters start at zero |
| DeeplScript.Script.TranslateObject | scripts/translate-with-deepl.js:68-102 | the returned document is the reference walk's output; translatedStrings grows by its success count, one provider call is made per leaf and one pause per object entry |
| DeeplScript.Script.TranslateItems | scripts/translate-with-deepl.js:83-89 | the array loop translates the elements in order, with no pause |
| DeeplScript.Script.TranslateEntries | scripts/translate-with-deepl.js:91-99 | the object loop translates the values in key order, keeps the keys, and pauses once per entry |
| DeeplScript.Script.TranslateLanguage | scripts/translate-with-deepl.js:105-143 | the result, the files and all four counters are those of `LanguageStep`. So an unmapped code returns false and changes nothing; an unreadable `en.json` returns false and changes nothing; otherwise it returns true, writes the translation (to the DeepL code) under our code only, sets totalStrings to the leaf count and translatedStrings to the successes, advances the call count by the leaf count and the pause count by the number of object key/value pairs, and never changes `en.json` |
| DeeplScript.LanguageStep | scripts/translate-with-deepl.js:105-143 | definition, no ensures: one `translateLanguage` run on values. An unmapped code or an unreadable source gives false and changes nothing, counters included. Otherwise it gives true, writes the walk of the source to the DeepL code under our code, sets totalStrings to the leaf count and translatedStrings to the walk's successes, and advances the call count by the leaf count and the pause count by the object key/value pairs. `DeeplScript.Script.TranslateLanguage` is proved equal to it |
| DeeplScript.RunAll | scripts/translate-with-deepl.js:164-171 | definition, no ensures: the loop of `main` on values, one `LanguageStep` per code in order, counting successes and failures and carrying the counters. `DeeplScript.RunAllFrame`, `DeeplScript.RunAllTally` and `DeeplScript.RunAllCounters` characterise it, and `DeeplScript.Script.TranslateAll` is proved equal to it |
| DeeplScript.Targets | scripts/translate-with-deepl.js:106-112 | the DeepL codes of the mapped requested codes, in order, one per code `translateLanguage` does not skip |
| DeeplScript.TotalsAfterWalk | scripts/translate-with-deepl.js:68-102 | one more translated language adds the leaf count to the call count (one request per string) and the number of object key/value pairs to the pause count (one 50 ms pause per entry) |
| DeeplScript.LastRunAfterWalk | scripts/translate-with-deepl.js:117-123 | after a run for one more DeepL code, totalStrings is the source's leaf count and translatedStrings the successes of that code's walk, which started after all earlier runs' requests |
| DeeplScript.CountsAfterWalk | scripts/translate-with-deepl.js:117-123 | the running totals and the last run's counters are kept by one more translated language |
| DeeplScript.RunAllCounters | scripts/translate-with-deepl.js:164-171 | without a readable `en.json` the loop leaves every counter as it was; with one, after the loop the call and pause counts have grown by the leaf count and the object key/value pairs once per mapped code, and totalStrings and translatedStrings are those of the last mapped code's run (unchanged when no code is mapped) |
| DeeplScript.OnlyWrittenStep | scripts/translate-with-deepl.js:164-171 | one more `translateLanguage` run writes at most the file of its own code, and only when that code is mapped |
| DeeplScript.WrittenTranslationsStep | scripts/translate-with-deepl.js:106-135 | a run for a mapped code stores the walk of the source to that code's DeepL code and keeps every translation written before it |
| DeeplScript.TranslationsAreLike | scripts/translate-with-deepl.js:117-135 | every file holding such a walk has the source's shape |
| DeeplScript.RunAllFrame | scripts/translate-with-deepl.js:164-171 | the loop never changes `en.json`; a file changes or appears only for a requested code that is in languageMap |
| DeeplScript.RunAllTally | scripts/translate-with-deepl.js:164-171 | successes plus failures equal the number of requested codes; when `en.json` reads, successes are the mapped codes, failures the unmapped ones, and each mapped code's file is the walk of the source to its DeepL code, from some call index; otherwise nothing succeeds and nothing is written |
| DeeplScript.Script.TranslateAll | scripts/translate-with-deepl.js:164-171 | the counters, files, call and pause counts are those of the value-level replay `RunAll`. Hence successes plus failures equal the number of requested codes. `en.json` is never changed, and no file other than a requested mapped code's is changed or created. When `en.json` reads, successes are the mapped codes and failures the unmapped ones, and each mapped code's file is the walk of the source to its DeepL code (so it has the source's shape). The call and pause counts grow by the leaf count and the object key/value pairs once per mapped code, and when some code is mapped totalStrings is the source's leaf count and translatedStrings the successes of the last mapped code's walk. Otherwise nothing succeeds, nothing is written and no counter changes |
| DeeplScript.Script.Run | scripts/translate-with-deepl.js:146-194 | the codes are the arguments or, when there are none, the table's keys; the tally, the frame, the file contents and the four counters are as in the loop; the unsupported list is `allLangs` filtered by the table, in order |
| GoogleScript.LanguageKeysAreTheTable | scripts/translate-with-google.js:31-51 | `Object.keys(languageMap)` lists exactly the codes of the table, and `en` is not one of them |
| GoogleScript.Target | scripts/translate-with-google.js:92 | a code has a target exactly when `Object.keys(languageMap)` lists it, so every code of the default run has one; `en` is sent with an undefined target |
| GoogleScript.Script.constructor | scripts/translate-with-google.js:53 | the counter starts at zero |
| GoogleScript.Script.TranslateObject | scripts/translate-with-google.js:55-89 | the returned document is the reference walk's output; translatedCount grows by its success count, one provider call is made per leaf and one pause per object entry |
| GoogleScript.Script.TranslateItems | scripts/translate-with-google.js:70-76 | the array loop translates the elements in order, with no pause |
| GoogleScript.Script.TranslateEntries | scripts/translate-with-google.js:78-86 | the object loop translates the values in key order, keeps the keys, and pauses once per entry |
| GoogleScript.Script.TranslateLanguage | scripts/translate-with-google.js:91-112 | the result, the files and the three counters are those of `LanguageStep`. So there is no skip; an unreadable `en.json` returns false and changes nothing; otherwise it returns true, writes the translation to the raw table lookup (possibly undefined) under our code, sets translatedCount to the successes, advances the call count by the leaf count and the pause count by the object key/value pairs; for any code other than `en` the source is left alone |
| GoogleScript.LanguageStep | scripts/translate-with-google.js:91-112 | definition, no ensures: one `translateLanguage` run on values, with no skip. An unreadable source gives false and changes nothing, counters included. Otherwise it gives true, writes the walk of the source to the raw table lookup under our code, sets translatedCount to the walk's successes, and advances the call count by the leaf count and the pause count by the object key/value pairs. `GoogleScript.Script.TranslateLanguage` is proved equal to it |
| GoogleScript.RunAll | scripts/translate-with-google.js:122-127 | definition, no ensures: the loop of `main` on values, one `LanguageStep` per code in order, counting successes and carrying the counters. Each run reads the directory as the previous runs left it. `GoogleScript.RunAllFrame`, `GoogleScript.RunAllTally`, `GoogleScript.RunAllTranslations` and `GoogleScript.RunAllCounters` characterise it, and `GoogleScript.Script.TranslateAll` is proved equal to it |
| GoogleScript.TotalsAfterWalk | scripts/translate-with-google.js:55-89 | one more translated language adds the leaf count to the call count (one request per string) and the number of object key/value pairs to the pause count (one 30 ms pause per entry) |
| GoogleScript.LastRunAfterWalk | scripts/translate-with-google.js:98-104 | after one more run, translatedCount is the successes of the last code's walk over a document shaped like the source (the source itself when `en` came in no earlier run), which started after all earlier runs' requests |
| GoogleScript.RunAllCounters | scripts/translate-with-google.js:122-127 | without a readable `en.json` the loop leaves every counter as it was; with one, the call and pause counts have grown by the leaf count and the object key/value pairs once per requested code, and translatedCount is the last run's successes, at most the leaf count |
| GoogleScript.OnlyWrittenStep | scripts/translate-with-google.js:122-127 | one more `translateLanguage` run writes at most the file of its own code |
| GoogleScript.AllTranslatedStep | scripts/translate-with-google.js:91-112 | translating the current source, which has the original's shape and is the original while `en` has not been requested, for one more code keeps every earlier translation |
| GoogleScript.TranslationsAreLike | scripts/translate-with-google.js:91-112 | every file holding a walk of a document shaped like the source has the source's shape |
| GoogleScript.RunAllFrame | scripts/translate-with-google.js:122-127 | at most one success per code; a file changes or appears only for a requested code; without `en` among the codes the source is unchanged; with an unreadable source nothing succeeds and nothing is written |
| GoogleScript.RunAllTally | scripts/translate-with-google.js:122-127 | with a readable source every run succeeds, and the source stays readable with the original's shape, even when `en` is requested and rewritten |
| GoogleScript.RunAllTranslations | scripts/translate-with-google.js:91-127 | with a readable source each requested code's file is the walk, to that code's raw table lookup, of a document shaped like the source; of the source itself when `en` is not requested |
| GoogleScript.Script.TranslateAll | scripts/translate-with-google.js:122-127 | the counter, files, call and pause counts are those of the value-level replay `RunAll`. Hence at most one success per code, and no file other than a requested code's is changed or created. When `en.json` reads, every code succeeds, and each code's file is the walk, to its raw table lookup, of a document shaped like the source (the source itself when `en` is not requested). So every written file, including a rewritten source, has the original's shape. The call and pause counts then grow by the source's leaf count and object key/value pairs once per code, and translatedCount is the last code's walk successes, at most the leaf count. Otherwise nothing succeeds, nothing is written and no counter changes. Without `en` among the codes the source is unchanged |
| GoogleScript.Script.Run | scripts/translate-with-google.js:114-130 | the codes are the arguments or, when there are none, the table's keys; the tally, the frame, the file contents and the three counters are as in the loop; the default run never touches `en.json` |
| Sitemap.Localized | app/sitemap.ts:16 | the alternates list has one pair per locale |
| Sitemap.FromEntries | app/sitemap.ts:15-17 | definition, no ensures: `Object.fromEntries`, where a later pair overwrites an earlier one with the same key. `Sitemap.FromLocalized` characterises it on the locale pairs built here and at lines 29-31 |
| Sitemap.HomeEntry | app/sitemap.ts:9-19 | definition, no ensures: the homepage entry of one locale. `Sitemap.HomeEntryIsWellFormed` characterises it |
| Sitemap.PageEntry | app/sitemap.ts:23-33 | definition, no ensures: the entry of one page under one locale. `Sitemap.PageEntryIsWellFormed` characterises it |
| Sitemap.Homepages | app/sitemap.ts:9-19 | one homepage entry per locale |
| Sitemap.PageEntries | app/sitemap.ts:23-33 | one entry per locale for a page |
| Sitemap.Pages | app/sitemap.ts:22-34 | definition, no ensures: `pagesConfig.flatMap(...)`, page-major and locale-minor. `Sitemap.PagesLength` and `Sitemap.PagesAt` characterise it |
| Sitemap.Sitemap | app/sitemap.ts:36 | definition, no ensures: the homepages followed by the pages. `Sitemap.SitemapLength`, `Sitemap.SitemapHomepage` and `Sitemap.SitemapPage` characterise every entry |
| Sitemap.FromLocalized | app/sitemap.ts:14-18 | `Object.fromEntries` over the locale pairs has exactly the locales as keys, each mapped to that locale's URL |
| Sitemap.HomeEntryIsWellFormed | app/sitemap.ts:9-19 | a homepage entry has url `baseUrl/locale`, is daily with priority 1.0, has every locale's homepage as alternates, and its own alternate is its url |
| Sitemap.PageEntryIsWellFormed | app/sitemap.ts:22-33 | a page entry has url `baseUrl/locale/slug`, is weekly with priority 0.8, has the same page under every locale as alternates, and its own alternate is its url |
| Sitemap.PagesLength | app/sitemap.ts:22-34 | the flattened page list has \|pages\|·\|locales\| entries |
| Sitemap.PagesAt | app/sitemap.ts:22-34 | entry j·\|locales\|+k of the page list is page j under locale k (page-major, locale-minor) |
| Sitemap.SitemapLength | app/sitemap.ts:36 | the sitemap has \|locales\| + \|pages\|·\|locales\| entries |
| Sitemap.SitemapHomepage | app/sitemap.ts:8-19 | the first \|locales\| entries are the homepages in locale order, each with its url, daily frequency, priority 1.0 and full alternates |
| Sitemap.SitemapPage | app/sitemap.ts:21-36 | entry \|locales\| + j·\|locales\| + k is page j under locale k, with its url, weekly frequency, priority 0.8 and full alternates |

## Left out

- Network calls to DeepL and Google are not modelled. Each provider is an arbitrary oracle of the call index, the text and the target, so any sequence of successes, failures and translations is covered. What the real services return is not modelled.
- Reading and writing files, `JSON.parse` and `JSON.stringify` are not modelled. The `messages/` directory is a map of parsed documents, where an unparseable file is `Unparseable`. A missing or unparseable `en.json` is the read failure. A write is assumed to succeed, so the `catch` path for a failed `writeFileSync` is not covered.
- The rate-limit sleeps (50 ms for DeepL, 30 ms for Google) are counted in `pauses`; time itself is not modelled.
- Console output, the progress lines, the timing summary and the printed lists are not modelled.
- The module-load checks are not modelled: a missing npm package, a missing `DEEPL_API_KEY` and the `process.exit` calls. `process.on('unhandledRejection')` and `main().catch` are not modelled either.
- DeeplScript.Script.TranslateObject: the optional `path` argument of DeepL's `translateObject` is left out. It is only passed down and never read.
- Objects are sequences of key/value members in `Object.entries` order, and `translated[key] = …` on a fresh object is modelled as appending. That matches JavaScript because the keys of a parsed object are distinct; `Value` itself does not require distinct keys. This ignores how JavaScript orders integer-like keys (they come first) and the special `__proto__` key.
- Table lookups are modelled on the listed keys only. Inherited property names such as `constructor` would look up a non-string value in JavaScript.
- JSON numbers are Dafny reals, and only their equality matters here.
- The DeepL `languageMap` values are all non-empty strings, so the truthiness test `!deeplLangCode` is modelled as "not in the table".
- GoogleScript.RunAllFrame, GoogleScript.Script.TranslateAll and GoogleScript.Script.Run: the `messages/` map is keyed by each code exactly as given, so every code names its own file `messages/<code>.json`. The Google script writes to ``path.join(..., `${langCode}.json`)`` for any argument. `path.join` normalisation is not modelled: `./en` or `x/../en` would overwrite the source, and `x/../de` would overwrite `de.json`. Case-insensitive file systems are not modelled either: `DE` and `de` would name one file. The promises that a file changes only for a requested code, and that the source is unchanged when `en` is not requested, hold for codes that are plain file names, distinct from each other regardless of case. The DeepL script only ever writes the plain keys of its table.
- DeeplScript.RunAllTally and GoogleScript.RunAllTally: the all-or-nothing outcome rests on two assumptions. Nothing but the script itself changes `messages/` during a run, and reading the same file always gives the same result. So either every run reads the source or none does. A read that fails for only some of the languages, or another process editing `messages/` in the middle of a run, is not modelled.
- DeeplScript.Script.Run: the unsupported list is stated as `allLangs` filtered by the table, with membership characterised in `DeeplScript.PartitionByTable`. The concrete seven-code list is not computed in a lemma.
- Sitemap: `lastModified: new Date()` is left out. The locale list (i18n.ts) and the page list (lib/pages-config.ts) are parameters, not their constant contents. The alternates map records keys and values; the insertion order of its keys is not modelled.
- translate-all.js, the middleware, the UI components and the page routes are not part of this model.

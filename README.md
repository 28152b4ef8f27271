# TabScribe, modelled in Dafny

TabScribe is a browser extension that captures snippets of web pages as
"cards". It keeps them in an IndexedDB store and shows them in a sidebar
with Summarize, Rewrite, Proofread and Translate buttons. It exports them as
Markdown with numbered citations or as a placeholder `.docx`, and looks up
scholarly metadata for a DOI or title on OpenAlex and Crossref.

This project models the core of the extension and proves properties of it:
- the card store of `lib/db.js`: a class with the memoised open, the object store, the subscriber Set and its notifications;
- the DOI scanner and the record normalisers of `lib/academic.js`;
- the fallback order of `fetchMetadata` and `findSimilar` in `lib/academic.js`;
- the local AI helpers of `ai/*.js` and the native → hybrid → local order;
- the session memo and the stream accumulator of `ai/prompt.js`;
- the text builders of `lib/exports.js`, `lib/citations.js` and `ai/writer.js`;
- the pure logic of `sidebar.js`: escaping, render order, badge merge and copy-all, plus its click handler.

Anything the code awaits from outside becomes a parameter of the model:
- the browser's on-device APIs;
- `fetch` and JSON;
- `chrome.storage`;
- the hosted Gemini call.

A JavaScript value that may be `undefined` or `null` is an `Option`, and a call that may throw is a `Reply` (`Threw | Returned(v)`). `Truthy` is JavaScript truthiness on an optional string.

Strings are sequences of Unicode scalar values, not UTF-16 code units.

The files:
- `js.dfy`: `Option`, `Reply` and truthiness.
- `strings.dfy`: `join`, `split`, `trim`, ASCII case mapping, number formatting and the `Array.from(new Set(..))` dedup.
- `db.dfy`: the card records as maps, with the class `CardDb` holding the module state of `lib/db.js`.
- `academic.dfy`: the DOI regex, the OpenAlex and Crossref normalisers, `fetchMetadata` and `findSimilar`.
- `fallback.dfy`: the provider order shared by the proofreader and the translator.
- `summarize.dfy`, `rewriter.dfy`, `proofreader.dfy`, `translator.dfy`, `writer.dfy`: one module per `ai/*.js` helper.
- `prompt.dfy`: `ai/prompt.js`, with the class `PromptModule` holding its memoised session.
- `citations.dfy`, `exports.dfy`: `lib/citations.js` and `lib/exports.js`.
- `sidebar.dfy`: the logic of `sidebar.js`.

## Model

| member | source | states |
|---|---|---|
| Js.Or | tabscribe/extension/lib/academic.js:46 | `a \|\| b` on optional strings: `a` when it is truthy, otherwise `b` |
| Strings.SplitJoin | tabscribe/extension/ai/summarize.js:5 | splitting a join at its one-character separator gives the pieces back when none contains it |
| Strings.JoinSplit | tabscribe/extension/lib/academic.js:88 | joining the pieces of `split(c)` with `c` gives the string back |
| Strings.LastSegment | tabscribe/extension/lib/academic.js:88 | `split('/').pop()` holds no `/` |
| Strings.Trim | tabscribe/extension/ai/summarize.js:7 | `trim()` removes exactly the leading and the trailing JavaScript white space |
| Strings.TrimNoSurroundingSpace | tabscribe/extension/lib/academic.js:70 | a trimmed string neither starts nor ends with white space |
| Strings.ParseNatToString | tabscribe/extension/lib/citations.js:4 | the decimal text of a number reads back as that number |
| Strings.NatToStringInjective | tabscribe/extension/lib/citations.js:4 | different numbers have different decimal texts |
| Strings.ToUpperSpec | tabscribe/extension/ai/rewriter.js:6 | upper-casing maps each character, leaves no ASCII lower-case letter and changes nothing else |
| Strings.ToUpperIdempotent | tabscribe/extension/ai/rewriter.js:6 | upper-casing twice is upper-casing once |
| Strings.ToLowerPrefix | tabscribe/extension/ai/prompt.js:5-7 | lower-casing commutes with taking a prefix |
| Strings.ToLowerSpec | tabscribe/extension/ai/rewriter.js:4 | lower-casing maps each character to its ASCII lower case on its own |
| Strings.Dedup | tabscribe/extension/sidebar.js:84 | `Array.from(new Set(xs))` has no repeats and the same elements as `xs` |
| Strings.DedupSnoc | tabscribe/extension/sidebar.js:84 | adding an element to the Set appends it only when it is new |
| Strings.DedupOfDistinct | tabscribe/extension/sidebar.js:84 | a list without repeats is its own Set image |
| Strings.DedupFirstOccurrenceOrder | tabscribe/extension/ai/summarize.js:6 | the Set keeps elements in the order of their first occurrences |
| CardStore.MergeUnitAndIdempotent | tabscribe/extension/lib/db.js:43 | `{...card, ...{}}` is `card`; applying the same updates twice is applying them once |
| CardStore.MergeThen | tabscribe/extension/lib/db.js:43 | two updates in a row are one update with the later keys winning |
| CardStore.Put | tabscribe/extension/lib/db.js:28-31 | `put(card)` maps `card.id` to exactly `card`, whether or not a record existed, and leaves every other id as it was |
| CardStore.Update | tabscribe/extension/lib/db.js:39-44 | an update of an absent id changes nothing; the store stays keyed by `id` |
| CardStore.UpdateInPlace | tabscribe/extension/lib/db.js:43-44 | an update that keeps the id changes that record to `{...card, ...updates}` and no other |
| CardStore.UpdateRekeys | tabscribe/extension/lib/db.js:39-44 | an update whose `id` differs writes under the new id and leaves the old record in place |
| CardStore.Remove | tabscribe/extension/lib/db.js:48-51 | `delete(id)` removes only that key and keeps every other record |
| CardStore.RemoveThenPut | tabscribe/extension/lib/db.js:28-51 | putting back a deleted record restores the store |
| CardStore.KeyLessTransitive | tabscribe/extension/lib/db.js:36 | the key order of `getAll()` is transitive |
| CardStore.KeyLessTotal | tabscribe/extension/lib/db.js:36 | any two different keys are ordered |
| CardStore.LeastKeyExists | tabscribe/extension/lib/db.js:36 | every non-empty key set has a least key |
| CardStore.Find | tabscribe/extension/sidebar.js:77 | `cards.find(c => c.id === id)` returns a listed card with that id, or nothing when none has it |
| CardStore.FindInListing | tabscribe/extension/sidebar.js:76-77 | looking an id up in the `getAll()` listing finds exactly the stored record, or nothing when the id is not stored |
| CardStore.ListAll | tabscribe/extension/lib/db.js:36 | `getAll()` returns as many records as the store holds, each once, each as stored, in key order |
| CardStore.ListStep | tabscribe/extension/lib/db.js:36 | listing the least remaining key keeps the listing sorted and complete so far |
| CardStore.AddListener | tabscribe/extension/lib/db.js:65 | `subscribers.add(cb)` registers `cb` once, keeps the set free of repeats and adds nothing else |
| CardStore.RemoveListener | tabscribe/extension/lib/db.js:66 | `subscribers.delete(cb)` removes `cb` and nothing else |
| CardStore.SubscribeThenUnsubscribe | tabscribe/extension/lib/db.js:64-67 | subscribing twice registers once, and the returned handle restores the earlier set |
| CardStore.RemoveAbsent | tabscribe/extension/lib/db.js:66 | deleting an absent callback changes nothing |
| CardStore.Round | tabscribe/extension/lib/db.js:69-73 | one notification calls every subscriber once, in Set order, and a throwing one does not stop the rest |
| CardStore.RoundSnoc | tabscribe/extension/lib/db.js:70-72 | a later subscriber is called after all earlier ones |
| CardStore.CardDb.constructor | tabscribe/extension/lib/db.js:7-8 | a fresh start has no open request and no subscriber, and keeps any persisted store |
| CardStore.CardDb.Open | tabscribe/extension/lib/db.js:10-26 | one open request at most; the upgrade creates the store only when it is missing, and no record is touched |
| CardStore.CardDb.Notify | tabscribe/extension/lib/db.js:69-73 | appends one call per current subscriber, throwing or not; changes no record and no subscriber |
| CardStore.CardDb.AddCard | tabscribe/extension/lib/db.js:28-32 | the store becomes `Put(old, card)`, followed by exactly one notification |
| CardStore.CardDb.GetAllCards | tabscribe/extension/lib/db.js:34-37 | lists every record once in key order, and changes nothing and notifies no one |
| CardStore.CardDb.UpdateCard | tabscribe/extension/lib/db.js:39-46 | the store becomes `Update(old, id, updates)`; it notifies once when the id was present and never when it was absent |
| CardStore.CardDb.DeleteCard | tabscribe/extension/lib/db.js:48-52 | the store becomes `Remove(old, id)`, followed by exactly one notification |
| CardStore.CardDb.Subscribe | tabscribe/extension/lib/db.js:64-65 | the subscriber set becomes `AddListener(old, cb)`; nothing else changes |
| CardStore.CardDb.Unsubscribe | tabscribe/extension/lib/db.js:66 | the subscriber set becomes `RemoveListener(old, cb)`; nothing else changes |
| CardStore.OpenOnceScenario | tabscribe/extension/lib/db.js:10-19 | a restart over a persisted store issues one open request however many calls follow, and keeps the persisted records |
| Academic.DigitRun | tabscribe/extension/lib/academic.js:7 | the longest run of digits at a position |
| Academic.SuffixRun | tabscribe/extension/lib/academic.js:7 | the longest run of characters other than white space, `"`, `<` and `>` |
| Academic.MatchAt | tabscribe/extension/lib/academic.js:7 | a match of `10\.\d{4,9}\/[^\s"<>]+` at a position is at least nine characters long |
| Academic.SearchFrom | tabscribe/extension/lib/academic.js:7 | `match` finds the leftmost position with a match, and there is none when it fails |
| Academic.ExtractDoiFromText | tabscribe/extension/lib/academic.js:6-9 | `extractDoiFromText`: the leftmost match of the DOI pattern in `String(text \|\| '')`, minus one trailing `.` or `,`; its properties are the lemmas `ExtractDoiEmptyIffNoMatch`, `ExtractDoiShape` and `StrippedIsPrefix` |
| Academic.ExtractDoiEmptyIffNoMatch | tabscribe/extension/lib/academic.js:6-9 | the result is `''` exactly when the pattern matches nowhere; a missing text gives `''` |
| Academic.ExtractDoiShape | tabscribe/extension/lib/academic.js:6-9 | a non-empty result is the leftmost match with at most one final `.` or `,` removed; it reads `10.`, 4 to 9 digits, `/`, and holds no white space, `"`, `<` or `>` |
| Academic.StrippedIsPrefix | tabscribe/extension/lib/academic.js:8 | `replace(/[\.,]$/, '')` removes exactly one trailing `.` or `,`, or nothing |
| Academic.ExtractDoiStripsOnce | tabscribe/extension/lib/academic.js:8 | only one trailing punctuation character is removed (`10.1234/a.,` gives `10.1234/a.`) |
| Academic.ExtractDoiShortRegistrant | tabscribe/extension/lib/academic.js:7 | fewer than four registrant digits is no DOI |
| Academic.ExtractDoiAngleBrackets | tabscribe/extension/lib/academic.js:7 | a DOI in angle brackets is found without the brackets |
| Academic.StripDoiResolver | tabscribe/extension/lib/academic.js:47 | removes a leading `https://doi.org/` or `http://doi.org/`, and otherwise leaves the text alone |
| Academic.NormalizeOpenAlexWork | tabscribe/extension/lib/academic.js:38-53 | `normalizeOpenAlexWork`: one author per authorship and the title, url, doi, year, venue and id fallbacks; its properties are in `OpenAlexNormalisation` |
| Academic.OpenAlexNormalisation | tabscribe/extension/lib/academic.js:38-53 | the DOI is stripped of its resolver prefix (or is `''`), there is one author per authorship in order, and id and title are copied |
| Academic.FirstText | tabscribe/extension/lib/academic.js:72-77 | `Array.isArray(x) ? x[0] : x` |
| Academic.CrossrefFullNameShape | tabscribe/extension/lib/academic.js:70 | the full name is `given family` trimmed: no surrounding white space; it is empty when both parts are missing |
| Academic.NormalizeCrossrefWork | tabscribe/extension/lib/academic.js:69-79 | `normalizeCrossrefWork`: the first title and container title, the trimmed full names and the `issued` year; its properties are in `CrossrefNormalisation` and `CrossrefFullNameShape` |
| Academic.CrossrefNormalisation | tabscribe/extension/lib/academic.js:69-79 | the first title and the first container title are taken; there is one author per entry in order with the given and family names copied; the DOI is copied and there is no OpenAlex id |
| Academic.FirstFound | tabscribe/extension/lib/academic.js:14-20 | the chain finds nothing exactly when every lookup came up empty |
| Academic.FirstFoundIsFirst | tabscribe/extension/lib/academic.js:15-19 | the result is that of the first lookup that found a work, and no lookup after it is issued |
| Academic.FirstFoundAppend | tabscribe/extension/lib/academic.js:15-19 | a later stage runs only when the earlier ones found nothing |
| Academic.FetchMetadata | tabscribe/extension/lib/academic.js:11-21 | null off hybrid mode without any request; in hybrid mode the first work found by OpenAlex-by-DOI, OpenAlex-by-title, Crossref-by-DOI and then Crossref-by-title, each guarded by its key, with failures counted as null |
| Academic.TryLookup | tabscribe/extension/lib/academic.js:15-19 | one guarded stage of the chain: it issues its request only when nothing was found yet, and the result and requests are those of the chain extended by that stage |
| Academic.NoKeysNoLookups | tabscribe/extension/lib/academic.js:15-19 | without a DOI and a title no request is made and the result is null |
| Academic.OpenAlexDoiHitStopsChain | tabscribe/extension/lib/academic.js:15-16 | a successful OpenAlex DOI lookup is the result, and no second request is made |
| Academic.FindSimilar | tabscribe/extension/lib/academic.js:81-125 | `findSimilar`: `[]` off hybrid, otherwise the try block of four guarded stages; its order and its throws are stated by `FindSimilarFirstDecisive` and `FindSimilarAllFallThrough` |
| Academic.FindSimilarOffline | tabscribe/extension/lib/academic.js:82 | off hybrid mode the result is `[]` without any request |
| Academic.FindSimilarOpenAlexDoiFailure | tabscribe/extension/lib/academic.js:83-124 | a failing OpenAlex DOI lookup throws out of every fallback: `[]` after that one request |
| Academic.FindSimilarRelatedKey | tabscribe/extension/lib/academic.js:86-92 | the related-works request uses the last path segment of the OpenAlex id and the default limit 5, and returns the normalised results in order |
| Academic.FindSimilarResultsAreProviderLists | tabscribe/extension/lib/academic.js:81-125 | in every case the result is empty or one provider list mapped through the matching normaliser, in order; which stage's list it is is stated by `FindSimilarFirstDecisive` |
| Academic.ListFlowPreservesOrder | tabscribe/extension/lib/academic.js:90-93 | a successful list keeps count and order through the normaliser |
| Academic.DecideFirstDecisive | tabscribe/extension/lib/academic.js:83-123 | in a run of stages, the first one that does not fall through decides the flow, and only the stages up to it issue requests |
| Academic.DecideAllFallThrough | tabscribe/extension/lib/academic.js:83-123 | when every stage falls through, the run falls through after every stage's requests |
| Academic.AndThenAssociative | tabscribe/extension/lib/academic.js:83-123 | grouping the guarded stages differently does not change the run |
| Academic.FindSimilarDecides | tabscribe/extension/lib/academic.js:83-124 | the nested guards of `findSimilar` are the four stages OpenAlex-DOI, OpenAlex-title, Crossref-DOI, Crossref-title run in that order, with `[]` unless the deciding stage returns a list |
| Academic.FindSimilarFirstDecisive | tabscribe/extension/lib/academic.js:83-124 | in hybrid mode the first stage that does not fall through (a reached request that answers 2xx, or one that throws) fixes the result: its list when it returns, `[]` on a throw; the requests are those of the stages up to it and no later one |
| Academic.FindSimilarAllFallThrough | tabscribe/extension/lib/academic.js:83-124 | when every stage falls through (a bad status, a missing `openalex_id` or title, a missing key) the result is `[]` after all the requests of the four stages |
| Academic.FindSimilarOtherProviderSkipsOpenAlex | tabscribe/extension/lib/academic.js:84 | a provider other than `'openalex'` issues no OpenAlex request |
| Academic.FindSimilarCrossrefDoiThrow | tabscribe/extension/lib/academic.js:106-108 | with the Crossref provider a failing Crossref DOI lookup gives `[]` after that one request, without the title search |
| Academic.FindSimilarOpenAlexSearchThrow | tabscribe/extension/lib/academic.js:97-98 | a network error in the OpenAlex title search gives `[]`, and no Crossref request follows |
| AiFallback.Chain | tabscribe/extension/ai/proofreader.js:4-20 | the on-device answer is used only when it is truthy; the hosted model is called only in hybrid mode after that; its answer is used even when empty, and a throw falls through to the local transform |
| AiFallback.FalsyNativeFallsThrough | tabscribe/extension/ai/translator.js:8-11 | an empty or missing on-device result, or a throw, behaves as if the API were absent |
| AiFallback.EmptyHybridAnswerIsReturned | tabscribe/extension/lib/hybrid.js:17-18 | the hosted model's `''` is returned as it is, not replaced by the local transform |
| AiFallback.OfflineIgnoresHybrid | tabscribe/extension/ai/translator.js:13 | off hybrid mode the hosted model is never called and its reply does not matter |
| Proofreader.CollapseSpaces | tabscribe/extension/ai/proofreader.js:19 | `replace(/\s+/g, ' ')` leaves no two adjacent spaces and no white space other than `' '`, is never longer than its input, and keeps whether the text starts with white space |
| Proofreader.CollapseSpacesIdentity | tabscribe/extension/ai/proofreader.js:19 | text already in that form is unchanged |
| Proofreader.CollapseSpacesIdempotent | tabscribe/extension/ai/proofreader.js:19 | collapsing twice is collapsing once |
| Proofreader.CollapseSpacesKeepsText | tabscribe/extension/ai/proofreader.js:19 | the characters other than white space are kept, all of them and in order |
| Proofreader.CollapseSpacesRun | tabscribe/extension/ai/proofreader.js:19 | a maximal white-space run, of any length, becomes exactly one `' '` |
| Proofreader.CollapseSpacesKeepsChar | tabscribe/extension/ai/proofreader.js:19 | a character other than white space is copied unchanged |
| Proofreader.FirstSpaceComma | tabscribe/extension/ai/proofreader.js:19 | finds the first white space followed by a comma, or reports that there is none |
| Proofreader.FixOnlyFirst | tabscribe/extension/ai/proofreader.js:19 | `replace(/\s,/, ',')` without `g` drops only the first such space |
| Proofreader.LocalProofreadSpacing | tabscribe/extension/ai/proofreader.js:19 | the local proofread keeps the spacing normal |
| Proofreader.LocalProofread | tabscribe/extension/ai/proofreader.js:19 | the local fallback, `CollapseSpaces` then `FixFirstSpaceComma`; its properties are in `LocalProofreadSpacing`, `FixOnlyFirst` and the `CollapseSpaces` lemmas |
| Proofreader.ProofreadText | tabscribe/extension/ai/proofreader.js:4-20 | on-device result if truthy, else the hosted answer in hybrid mode unless it throws, else the local proofread |
| Translator.LocalTranslate | tabscribe/extension/ai/translator.js:19 | the local fallback is `[target] ` followed by the text unchanged |
| Translator.TranslateText | tabscribe/extension/ai/translator.js:4-20 | the same provider order as the proofreader, with the target defaulting to `fr` |
| Translator.DefaultTargetOffline | tabscribe/extension/ai/translator.js:4-19 | offline without the on-device API the result is `[fr] ` + text |
| Rewriter.RewriteText | tabscribe/extension/ai/rewriter.js:2-8 | each tone and its transform; any other tone, and the default `Concise`, return the text |
| Rewriter.Academic | tabscribe/extension/ai/rewriter.js:4 | `replace(/\b(you\|we)\b/gi, 'one')`, a left-to-right scan with the boundaries read off the original text; its properties are in `AcademicWord`, `AcademicSplitsAtSeparators` and `AcademicWithoutPronouns` |
| Rewriter.DefaultToneIsIdentity | tabscribe/extension/ai/rewriter.js:2-7 | no tone and `Concise` leave the text as it is |
| Rewriter.ExecutiveTone | tabscribe/extension/ai/rewriter.js:6 | no ASCII lower-case letter is left, the length is kept, and it is idempotent |
| Rewriter.FriendlyTone | tabscribe/extension/ai/rewriter.js:5 | the smiley and a space, followed by the text unchanged |
| Rewriter.AcademicWithoutPronouns | tabscribe/extension/ai/rewriter.js:4 | text without a whole-word `you` or `we` is unchanged |
| Rewriter.AcademicExamples | tabscribe/extension/ai/rewriter.js:4 | the instances `We` and `you` become `one` and `your` is kept |
| Rewriter.AcademicWord | tabscribe/extension/ai/rewriter.js:4 | a word of word characters becomes `one` exactly when it lower-cases to `you` or `we`, in any ASCII case, and is kept otherwise |
| Rewriter.YouAtWord | tabscribe/extension/ai/rewriter.js:4 | a word matches `\byou\b` with `i` at its start exactly when it lower-cases to `you` |
| Rewriter.WeAtWord | tabscribe/extension/ai/rewriter.js:4 | a word matches `\bwe\b` with `i` at its start exactly when it lower-cases to `we` |
| Rewriter.AcademicSplitsAtSeparators | tabscribe/extension/ai/rewriter.js:4 | the replacement works word by word: a non-word character splits the text into parts replaced independently |
| Summarize.SplitFrom | tabscribe/extension/ai/summarize.js:5-6 | `split` by a regex: a text with no separator is one piece, and pieces split at line breaks hold no newline |
| Summarize.FirstLineShape | tabscribe/extension/ai/summarize.js:5 | the first line joins the first one to three pieces with `. `, ends with `.`, and holds no newline |
| Summarize.BulletCount | tabscribe/extension/ai/summarize.js:6-8 | one to five bullet items |
| Summarize.BulletItemShape | tabscribe/extension/ai/summarize.js:7 | each item is `- ` followed by its sentence trimmed |
| Summarize.BulletSentencesDistinct | tabscribe/extension/ai/summarize.js:6 | the bulleted sentences are distinct, they are exactly the sentences among the first five, and they are in order of first occurrence |
| Summarize.DedupBeforeTrim | tabscribe/extension/ai/summarize.js:6-7 | repeats are dropped before trimming: sentences that differ only in surrounding white space each get their own bullet |
| Summarize.SummarizeEmpty | tabscribe/extension/ai/summarize.js:2-10 | the empty text gives `.` and a single empty bullet |
| Summarize.SummarizeText | tabscribe/extension/ai/summarize.js:2-10 | `summarizeText`: the first line, a blank line, then the bullets; its properties are in `FirstLineShape`, `BulletCount`, `BulletItemShape` and `BulletSentencesDistinct` |
| Citations.InlineCite | tabscribe/extension/lib/citations.js:7-9 | the marker starts with `[` and ends with `]` |
| Citations.InlineCiteReadsBack | tabscribe/extension/lib/citations.js:7-9 | between the brackets stand decimal digits that read back as the index |
| Citations.InlineCiteInjective | tabscribe/extension/lib/citations.js:7-9 | different indices give different markers |
| Citations.MakeCitations | tabscribe/extension/lib/citations.js:3-5 | one citation per URL in order: index `i+1`, label `inlineCite(i+1)`, the URL, and the style (default `APA`) |
| Citations.InlineCiteNamesOneCitation | tabscribe/extension/lib/citations.js:3-9 | the marker `inlineCite(n)` labels exactly one citation, the `n`-th |
| Citations.MakeCitationsSnoc | tabscribe/extension/lib/citations.js:4 | citing one more URL appends its citation and changes no earlier one |
| Exports.ExportMarkdown | tabscribe/extension/lib/exports.js:6 | the export always begins with `# TabScribe Export` and a blank line |
| Exports.CitedExportMatchesCitations | tabscribe/extension/lib/exports.js:4-5 | with citations card `i`'s quote and its Sources entry both carry the label of the `i`-th citation, in the same order |
| Exports.UncitedExport | tabscribe/extension/lib/exports.js:4-6 | without citations there is no Sources section and no block depends on its position |
| Exports.EmptyExport | tabscribe/extension/lib/exports.js:4-6 | no cards give the header alone, plus the Sources heading when citations are on |
| Exports.ExportMarkdownSnoc | tabscribe/extension/lib/exports.js:4-5 | one more card appends one quote block and one Sources entry |
| Exports.DocxContentAppend | tabscribe/extension/lib/exports.js:11 | the docx content of two lists is the two contents one after the other |
| Exports.DocxContentLength | tabscribe/extension/lib/exports.js:11 | every card contributes exactly its title, URL and snippet plus four newlines |
| Exports.DocxContent | tabscribe/extension/lib/exports.js:11 | the `.docx` placeholder text, one title, URL and snippet block per card; its properties are in `DocxContentAppend` and `DocxContentLength` |
| Writer.NonEmptyOr | tabscribe/extension/ai/writer.js:4-5 | `xs && xs.length ? xs : fallback` |
| Writer.DraftDefaults | tabscribe/extension/ai/writer.js:3-6 | a falsy intro becomes the fixed sentence, missing or empty points and questions become the fixed lists, and missing sources leave the section empty |
| Writer.ListSectionLines | tabscribe/extension/ai/writer.js:4-5 | each point and question is its own `- ` line, in order |
| Writer.SourceNumbering | tabscribe/extension/ai/writer.js:6 | source `i` is numbered `[i+1]`, as `inlineCite` would write it |
| Writer.DraftSectionOrder | tabscribe/extension/ai/writer.js:7 | the draft is the intro, then `## Key Points`, `## Open Questions` and `## Sources`, each after a blank line and followed by its own section, in that order |
| Writer.WriteDraft | tabscribe/extension/ai/writer.js:2-8 | `writeDraft`: the four sections with their defaults; its properties are in `DraftDefaults`, `DraftSectionOrder`, `ListSectionLines` and `SourceNumbering` |
| Prompt.DefaultOutputLanguage | tabscribe/extension/ai/prompt.js:3-12 | `es` for a lower-cased tag starting with `es`, `ja` for one starting with `ja`, otherwise and on error `en` |
| Prompt.FalsyTagIsEnglish | tabscribe/extension/ai/prompt.js:5 | a missing or empty tag counts as `en` |
| Prompt.LanguageIgnoresCase | tabscribe/extension/ai/prompt.js:5 | a tag and its lower-cased form choose the same language |
| Prompt.LanguageByPrefix | tabscribe/extension/ai/prompt.js:6-7 | only the first two characters matter (`es` and `es-MX` agree) |
| Prompt.LanguageExamples | tabscribe/extension/ai/prompt.js:5-8 | `ES` gives `es`, `ja` gives `ja`, and `fr` gives `en` |
| Prompt.ConfigureSpread | tabscribe/extension/ai/prompt.js:19-21 | `{ outputLanguage, ...opts }`: a key in `opts` overrides the default language, and the other keys are kept |
| Prompt.Accumulate | tabscribe/extension/ai/prompt.js:55-60 | `out` is the chunks concatenated in order, and each `onChunk` call gets its chunk and the text so far |
| Prompt.StreamPrefixes | tabscribe/extension/ai/prompt.js:57-58 | each text passed to `onChunk` is a prefix of the result and extends the previous one by exactly its chunk |
| Prompt.Concat | tabscribe/extension/ai/prompt.js:55-60 | the stream's result, the chunks joined in order; `Accumulate` is proved to compute it and `StreamPrefixes` states the callbacks |
| Prompt.PromptModule.GetSession | tabscribe/extension/ai/prompt.js:14-30 | null without the API or when it is `unavailable`; otherwise the memoised session, created only on the first such call and with that call's options |
| Prompt.PromptModule.PromptText | tabscribe/extension/ai/prompt.js:32-36 | `''` without a session, otherwise the session's answer |
| Prompt.PromptModule.PromptStructured | tabscribe/extension/ai/prompt.js:38-43 | `''` without a session; otherwise the parsed JSON, or the raw answer when it does not parse |
| Prompt.PromptModule.PromptMultimodal | tabscribe/extension/ai/prompt.js:45-49 | `''` without a session; its `expectedInputs` (by default image and audio) reach the session only if this call creates it |
| Prompt.PromptModule.PromptStream | tabscribe/extension/ai/prompt.js:51-61 | `''` and no callback without a session, otherwise the accumulated stream |
| Prompt.TextThenMultimodal | tabscribe/extension/ai/prompt.js:14-49 | after a text prompt has created the session, a multimodal prompt creates no other, and its options have no effect |
| Sidebar.EscapeIsEncoding | tabscribe/extension/sidebar.js:53-58 | the three passes write each `&`, `<` and `>` as its entity and keep every other character |
| Sidebar.EscapedHasNoAngleBrackets | tabscribe/extension/sidebar.js:53-58 | the escaped text holds no `<` and no `>` |
| Sidebar.UnescapeEscape | tabscribe/extension/sidebar.js:54-57 | since `&` is escaped first, un-escaping `&lt;`, `&gt;` and then `&amp;` gives back the input |
| Sidebar.EscapePlainText | tabscribe/extension/sidebar.js:53-58 | text without `&`, `<` and `>` is unchanged |
| Sidebar.EscapeTwice | tabscribe/extension/sidebar.js:55 | escaping is not idempotent: the `&` of an entity is escaped again |
| Sidebar.ReplaceSkips | tabscribe/extension/sidebar.js:55-57 | a global replace keeps the text before its first match |
| Sidebar.EscapeHtml | tabscribe/extension/sidebar.js:53-58 | `escapeHtml`, the three global replaces in source order; its properties are in `EscapeIsEncoding`, `UnescapeEscape` and `EscapedHasNoAngleBrackets` |
| Sidebar.MergeBadgesShape | tabscribe/extension/sidebar.js:84 | the new badges are the old ones deduplicated in order, with `act` appended when it is new |
| Sidebar.MergeBadgesIdempotent | tabscribe/extension/sidebar.js:84 | the same action a second time leaves the badges unchanged |
| Sidebar.MergeBadges | tabscribe/extension/sidebar.js:84 | `Array.from(new Set([...badges, act]))`; its properties are in `MergeBadgesShape` and `MergeBadgesIdempotent` |
| Sidebar.NextSnippet | tabscribe/extension/sidebar.js:79-83 | each action runs its helper on the snippet; Rewrite (tone `Concise`) and an unknown action keep it |
| Sidebar.ClickChangesSnippetAndBadges | tabscribe/extension/sidebar.js:85 | a click changes the snippet and badges of the card and nothing else of it |
| Sidebar.UnknownActionOnlyBadges | tabscribe/extension/sidebar.js:79-85 | an unrecognised action keeps the snippet but still records its badge |
| Sidebar.OnActionClick | tabscribe/extension/sidebar.js:69-86 | no id means nothing is read or written; a missing card means nothing is written; otherwise exactly that card is updated, with one notification |
| Sidebar.Insert | tabscribe/extension/sidebar.js:63 | an insertion makes the list one card longer |
| Sidebar.InsertPermutes | tabscribe/extension/sidebar.js:63 | an insertion adds exactly the new card and loses none |
| Sidebar.InsertDescending | tabscribe/extension/sidebar.js:63 | inserting into a list in descending `createdAt` order keeps it descending |
| Sidebar.InsertStable | tabscribe/extension/sidebar.js:63 | inserting keeps cards with the same `createdAt` in order |
| Sidebar.NewestFirstSpec | tabscribe/extension/sidebar.js:63 | the render order is descending by `createdAt`, holds the same cards, and keeps cards with equal `createdAt` in store order |
| Sidebar.NewestFirst | tabscribe/extension/sidebar.js:63 | the stable sort by descending `createdAt`, as insertion; its properties are in `NewestFirstSpec` |
| Sidebar.Render | tabscribe/extension/sidebar.js:60-65 | renders the store's listing newest first, without changing records, deliveries or subscribers |
| Sidebar.CopyAllMisencodesDash | tabscribe/extension/sidebar.js:131 | as written, the attribution line starts with `â` instead of an em dash |
| Sidebar.CopyAllBlocks | tabscribe/extension/sidebar.js:131 | one block per card in store order, joined by a blank line, each attributed with the em dash |
| Sidebar.CopyAllCards | tabscribe/extension/sidebar.js:129-131 | the copied text is `CopyAll` of the store's listing, the intended em-dash text, not the as-written `CopyAllAsWritten` (see Findings); records, deliveries and subscribers are unchanged |
| Sidebar.CopyAllAsWritten | tabscribe/extension/sidebar.js:131 | the copy-all text as spelled, with `â€”` as the dash; `CopyAllMisencodesDash` states the difference |
| Sidebar.CopyAll | tabscribe/extension/sidebar.js:131 | the copy-all text with the em dash; `CopyAllBlocks` states its blocks |

## Left out

- IndexedDB transactions and promises are atomic map updates in the model. A failing request (`req.onerror`, a rejected transaction) is not modelled, and neither are concurrent interleavings of awaits.
- The order of `getAll()` is ascending key order, with keys compared by UTF-16 code units approximated by code points.
- `notify` iterating while a listener subscribes or unsubscribes is not modelled: listeners here do nothing but return or throw.
- `fetch`, HTTP status and `res.json()` appear as `Http` replies (network error, not ok, or a parsed body). The JSON bodies are records with optional fields, and string arguments such as `encodeURIComponent` are not built.
- `lib/hybrid.js` is a reply of the hosted model: it throws, or it returns text that may be empty (the `|| ''`). The `chrome.storage` reads of `lib/settings.js` are the `mode` parameter, whose default is `'offline'`.
- The on-device browser APIs (`chrome.ai.*`, `LanguageModel`) are inputs: their presence, availability, answers and chunk stream. The `downloadprogress` monitor and its messages are not modelled.
- `Prompt.PromptModule.PromptStructured`: `JSON.parse` is an input (`parsed`), and the options passed to `prompt` are not modelled.
- `Prompt.DefaultOutputLanguage`: the error branch is an input, `navigator.language` throwing.
- Strings are Unicode scalar values, not UTF-16 code units, so a length counts the smiley of the friendly tone as one character, where JavaScript counts two.
- Case mapping (`toUpperCase`, `toLowerCase`, the `i` flag) and `\b`/`\w` are ASCII only, so non-ASCII letters are left unchanged. `\s` and `trim` use the full JavaScript white-space set.
- `Summarize.BulletCount`: counts bullet items, not lines. A sentence piece can contain a newline, and then its bullet spans several lines.
- `Academic.ExtractDoiShape`: after the trailing `.` or `,` is removed the suffix may be empty (`10.1234/.` gives `10.1234/`), so the shape allows an empty suffix.
- Values of the wrong type are not modelled, such as a non-string `text` passed to `String(text || '')` or a card without `badges`, which `|| []` would handle. Cards always have all their fields.
- `Sidebar.Render`: `Array.prototype.sort` is stable, so the order is pinned down by the comparator. It is modelled by its result, as a stable insertion sort over a sequence. `createdAt` is an integer, so `NaN` differences are not modelled.
- The DOM in `sidebar.js` is not modelled: card markup (`renderCard` beyond `escapeHtml`), the `new URL(..).hostname` link text, the mode label and its toggle, the sample-card button, the draft button, the export downloads (they call `exportMarkdown` and `exportDocx`, which are modelled), the clipboard and the alerts.
- `Sidebar.CopyAllCards`: copies the intended em-dash text `CopyAll`, not the mis-encoded text that line 131 as written gives (`CopyAllAsWritten` of the same listing); see Findings.
- `Exports.DocxContent` models only the content string of the placeholder `.docx` Blob. The Blob and its MIME type are not modelled.
- The message handling of `content_script.js`, `service_worker.js` and `options.js` is not part of this model. The card created by the service worker is the shape of the `Card` datatype.

## Findings

| source | as written | input that shows it | evidently intended | confidence | as-written member | corrected member |
|---|---|---|---|---|---|---|
| tabscribe/extension/sidebar.js:131 | the attribution dash of copy-all is the three characters `â€”`, the UTF-8 bytes of an em dash read as Windows-1252 | any card: the character after the snippet's line is `â` (U+00E2) | an em dash (U+2014), as in the Markdown export and the draft writer | high that the text is mis-encoded; not executed | Sidebar.CopyAllMisencodesDash | Sidebar.CopyAllBlocks |

The rest of the model uses the corrected text: `Sidebar.CopyAllCards` returns `CopyAll` of the listing, and `CopyAllAsWritten` is kept beside it as the code as written.

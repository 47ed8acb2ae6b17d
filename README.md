# Talkie background core, modelled in Dafny

Talkie is a browser extension that reads selected text aloud. This project
models the part of its background script that decides *what* is spoken and
*when* it may be spoken:

- **Text chunking** (`Chunker`, `Strings`, `DeepArrays`). The text is cut into
  paragraphs at runs of newlines. Each paragraph is cut into words at runs of
  spaces, and the words are packed greedily into "sentences". A sentence is
  shorter than `MAX_UTTERANCE_TEXT_LENGTH` (100) unless it is a single word
  or ends in a natural pause. Lengths are counted in UTF-16 code units, as
  JavaScript's `length` counts them. A natural-pause word (`-`, `--`, or a
  word ending in one of `.,!?:;`) is attached to its sentence whatever the
  length, and always ends it. Blank sentences are dropped. `flatten` then joins the per-paragraph lists.
- **The speaking token** (`Speech`). `speak` stores a fresh id in the page as
  `window.talkieIsSpeaking`. It speaks each chunk only while that id is still
  stored, and clears the id at the end. A click on the icon clears the id,
  which silences the chunks not yet spoken. The click speaks a fixed message
  instead when the tab is one Talkie may not read.
- **Language resolution and selection cleanup** (`Languages`):
  - the browser's page-language and text-language guesses, where "und"
    (undetermined) means no language;
  - the cleanup of language lists: blank entries are dropped, the obsolete
    ISO 639-1 codes `in`/`iw`/`ji` are replaced, and languages no installed
    voice speaks are dropped;
  - the choice of one effective language per selection, preferring a more
    specific tag with the primary language's prefix;
  - the two fallback messages: "no voice for language" and "no text selected".
- **Tab rules** (`Tabs`, `BackgroundTabs`):
  - the active-tab query counts only when it returns exactly one tab;
  - the URL prefixes of browser-internal pages that Talkie refuses to read;
  - the test for Talkie's own popup page;
  - the background script's own copy of the tab rule, which lacks the
    `vivaldi://` rule.
- **Optional permissions** (`Permissions`). `useOptionalPermissions` asks
  the browser only for the permission names not already held together with
  every origin. It runs the callback with the user's answer. Afterwards it
  releases the names it asked for, and also the origins when the callback
  threw.

Effects on the browser are modelled as state:

- the page's stored id and the utterances handed to the synthesizer are
  fields of `Speech.Speaker`;
- the granted permission names and origins, and the `request` and `remove`
  calls made so far, are fields of `Permissions.BrowserPermissions`.

Everything else the browser supplies is a parameter:

- the random id;
- the user's answer to a permission request;
- the text detector's answer;
- the values other handlers store between two chunks.

Each file has one flavour:

- the text and language logic is pure functions with lemmas;
- the reduce loop of the sentence splitter, the `map` over paragraphs, the
  chunk-by-chunk speaking loop and the `forEach` partition of permission
  names are methods with loop invariants, each proved against a
  specification function.

## Model

| member | source | states |
|---|---|---|
| Strings.Trim | src/background.js:52 | The trimmed text is empty exactly when the input is blank; otherwise it starts and ends with a non-white-space character. |
| Strings.TrimIsInfix | src/background.js:52 | What `trim` keeps is a contiguous piece of the input, with only white space before and after it. |
| Strings.TrimIdempotent | src/background.js:673-685 | Trimming an already trimmed text changes nothing. |
| Strings.SplitOn | src/background.js:116 | The single-character reference split on which `SplitRuns` (the model of this line's `split(/ +/)`) and the word tokens are built; it does not itself compute `split(/ +/)` on runs of spaces. A one-character split yields at least one piece, and no piece contains the separator. |
| Strings.JoinSplitOn | src/background.js:116 | About the reference split `SplitOn` that `SplitRuns` is built on: joining the pieces of a one-character split with that character gives the text back. |
| Strings.SplitOnConcat | src/background.js:116 | About the reference split `SplitOn` that `SplitRuns` is built on: splitting `a + sep + b` gives the pieces of `a` followed by the pieces of `b`. |
| Strings.SplitRuns | src/background.js:109-112 | A split at runs of a character yields at least one piece, none containing the character. Only the first or the last piece can be empty. Its non-empty pieces are those of a single-character split. |
| Strings.SplitRunsKeepsEnds | src/background.js:109-112 | The first and last pieces of a split at runs are those of the single-character split, so a text that starts or ends with a run yields an empty first or last piece. |
| Strings.JsLength | src/background.js:137 | `length` counts UTF-16 code units: at least one and at most two per character. |
| Strings.JsLengthConcat | src/background.js:137 | The length of a concatenation is the sum of the lengths. |
| Strings.JsLengthOfBmp | src/background.js:137 | For text within the Basic Multilingual Plane, `length` is the number of characters. |
| Strings.AstralCharIsTwoUnits | src/background.js:137 | A character outside the Basic Multilingual Plane has length 2. |
| Chunker.SplitTextToParagraphs | src/background.js:109-112 | There is at least one paragraph and none contains a newline. The non-empty paragraphs are those of cutting at every newline, so only empty paragraphs are discarded. |
| Chunker.SplitTextToSentencesOfMaxLength | src/background.js:114-150 | The reduce loop, which overwrites the last part or appends a new one, returns exactly the packing of the words with blank parts dropped, and no chunk is blank. The fit test counts UTF-16 code units. |
| Chunker.JsLengthOfAppend | src/background.js:121-127 | appendToText adds the word's code units, plus one for the space unless the part was empty. |
| Chunker.AstralWordOpensNewPart | src/background.js:137 | Two emoji after "a" take 1 + 1 + 4 code units, which does not fit under a limit of 5, so they open a new part. |
| Chunker.SentencesAreNotBlank | src/background.js:147 | Every chunk kept has a character other than white space. |
| Chunker.PackTokens | src/background.js:120-145 | Packing appends exactly the non-empty words, in order, to the words already in the parts. |
| Chunker.StepTokens | src/background.js:133-143 | Each of the three branches (pause, fits, new part) adds exactly the word to the words of the parts. |
| Chunker.KeepNonBlankTokens | src/background.js:147 | Dropping blank parts loses no non-blank word. |
| Chunker.SentencesKeepWords | src/background.js:114-150 | The non-blank words of a paragraph come out of the splitter in the same order, none lost and none duplicated. |
| Chunker.StepWellFormed | src/background.js:133-143 | One reduce step keeps the parts well formed: the last part is open, and every earlier part is closed and followed greedily, with every length counted in UTF-16 code units. |
| Chunker.PackWellFormed | src/background.js:120-145 | The whole reduce keeps the parts well formed, with lengths in UTF-16 code units. |
| Chunker.SentenceShape | src/background.js:133-143 | Every chunk is shorter than the limit in UTF-16 code units, or a single word, or ends with a natural-pause word; a natural-pause word is always the last word of its chunk. |
| Chunker.PartsArePackedGreedily | src/background.js:138-143 | A part not ended by a natural pause was closed only because adding a space and the next part's first word would have reached the limit in UTF-16 code units. |
| DeepArrays.Flatten | src/background.js:36-50 | A non-array comes back unchanged; an array comes back flat, with the same leaves in the same order. |
| DeepArrays.FlattenIsLeaves | src/background.js:36-50 | `flatten` of an array is exactly the array of its leaves. |
| DeepArrays.FlattenIdempotent | src/background.js:36-50 | Flattening twice is flattening once. |
| DeepArrays.LeavesOfConcat | src/background.js:49 | The leaves of two concatenated arrays are the leaves of the first followed by those of the second. |
| DeepArrays.FlattenNest | src/background.js:341-342 | Flattening the per-paragraph chunk lists gives their concatenation in paragraph order. |
| DeepArrays.ConcatKeeps | src/background.js:341-342 | A property of every chunk of every paragraph holds of every chunk of their concatenation. |
| Languages.IsUndefinedOrNullOrEmptyOrWhitespace | src/background.js:52 | True exactly when the value is not a string holding a non-white-space character. |
| Languages.DetectPageLanguage | src/background.js:544-549 | There is a page language exactly when the browser answered with a non-empty string other than "und", and it is that string. |
| Languages.DetectTextLanguage | src/background.js:624-665 | There is a text language exactly when detection is available, the answer is reliable, and the first language is a non-blank string other than "und"; it is that string. |
| Languages.MapIso639Aliases | src/background.js:711-719 | The result is never an obsolete code. Any other language is kept as it is, and a non-blank language stays non-blank. |
| Languages.CleanupLanguagesArray | src/background.js:723-730 | Every language left is non-blank, not an obsolete code, and spoken by an installed voice. |
| Languages.CleanupCons | src/background.js:723-730 | Cleaning a list is cleaning its first entry, then the rest. |
| Languages.CleanupIsFilterMap | src/background.js:723-730 | The filter, map, filter chain keeps exactly the surviving entries, aliased, in list order. |
| Languages.CleanupFirst | src/background.js:723-730 | The first language left is the alias of the first entry that survives. |
| Languages.CleanupEmpty | src/background.js:723-730 | Nothing is left exactly when no entry survives. |
| Languages.CleanupOfCleaned | src/background.js:723-730 | A list of already clean languages comes out of a second cleanup unchanged. |
| Languages.CleanupIdempotent | src/background.js:732-738 | Cleaning the parent elements' languages once more, as setEffectiveLanguage does, changes nothing. |
| Languages.PickEffectiveLanguage | src/background.js:760-769 | There is no language exactly when the cleaned list is empty. Otherwise the language is one of the list's entries and starts with the primary (first) language. |
| Languages.PickFirstMoreSpecific | src/background.js:765-769 | The choice is the first entry that is longer than the primary language and starts with it. |
| Languages.PickPrimary | src/background.js:765-769 | Without a more specific entry, the primary language itself is chosen. |
| Languages.SetEffectiveLanguage | src/background.js:744-780 | An effective language is non-blank, not an obsolete code, and spoken by an installed voice. |
| Languages.EffectiveLanguagePrecedence | src/background.js:747-769 | The effective language extends (or equals) the alias of the first candidate that survives cleanup. The candidates are text language, first parent-element language, html tag language and page language, in that order. |
| Languages.NoEffectiveLanguage | src/background.js:747-769 | There is no effective language exactly when none of the four candidates survives cleanup. |
| Languages.TrimText | src/background.js:673-679 | The copy's text is the trimmed text, still valid; its languages are unchanged. |
| Languages.TrimTexts | src/background.js:684 | Each selection is replaced by its trimmed copy, in order. |
| Languages.SelectionsWithValidText | src/background.js:681-685 | Every selection kept is an object whose text is a non-blank string. |
| Languages.SelectedTextsAreTrimmed | src/background.js:681-685 | Every text kept has no white space left at either end. |
| Languages.ValidSelectionsInOrder | src/background.js:681-685 | The selections kept are exactly those with valid text, trimmed, in their original order; the second text check drops nothing. |
| Languages.ResolveSelection | src/background.js:784-802 | A selection becomes either the "no voice for language" message, or its own text in a language an installed voice speaks. |
| Languages.ResolveSelections | src/background.js:799-802 | One request comes out per selection kept, and the i-th is the resolution of the i-th selection. |
| Languages.CleanupSelections | src/background.js:667-812 | With no valid selection the result is the "no text selected" message alone. Otherwise there is one request per valid selection, in order. The i-th is the resolution of the i-th selection: its text in a voice-supported language, or the "no voice" message. |
| Languages.ResolvedLanguagePrecedence | src/background.js:747-802 | When the k-th candidate is the first to survive cleanup, the selection's request is its own text, in a language that extends that candidate's alias. |
| Languages.FallbackForNoVoice | src/background.js:791-797 | A selection is replaced by the "no voice for language" message exactly when none of its candidates survives cleanup. |
| Tabs.GetCurrentActiveTab | src/shared/tabs.js:50-80 | There is an active tab exactly when the query returned one tab, and it is that tab. |
| Tabs.GetCurrentActiveTabId | src/shared/tabs.js:82-90 | There is an id exactly when the query returned one tab, and it is that tab's id. |
| Tabs.CanTalkieRunInTab | src/shared/tabs.js:148-183 | Talkie can run exactly when there is a tab whose URL is a non-empty string starting with none of `chrome://`, `vivaldi://`, `chrome-extension://`, `https://chrome.google.com/` and `about:`. |
| Tabs.IsCurrentPageInternalToTalkie | src/shared/tabs.js:92-112 | With no tab the page counts as internal. Otherwise it is internal exactly when its URL is a non-empty string that starts with `chrome-extension://` and ends with `/src/popup.html`. |
| Tabs.InternalPagesAreNotRead | src/shared/tabs.js:92-112 | Talkie never reads a page it considers internal. |
| Tabs.WebPagesAreRead | src/shared/tabs.js:148-183 | An `https://` page outside the web store can be read. |
| Tabs.CanRunInActiveTab | src/shared/tabs.js:64-74 | The tab rule can only hold when the query returned exactly one tab with a URL. Otherwise Talkie does not run and the page counts as internal. |
| BackgroundTabs.CanTalkieRunInTab | src/background.js:591-622 | The background copy: Talkie can run exactly when the tab's URL is a non-empty string starting with none of its four special prefixes. |
| BackgroundTabs.CopiesDifferOnlyOnVivaldi | src/background.js:591-622 | The background copy and the shared copy disagree exactly on `vivaldi://` pages, which only the shared copy refuses. |
| Speech.ChunkParagraphs | src/background.js:341 | The `map` over the paragraphs produces each paragraph's chunk list, in order. |
| Speech.SplitIntoTextParts | src/background.js:340-342 | The parts to speak are the chunks of every paragraph, in paragraph order, after `flatten`. |
| Speech.FlattenedLeaves | src/background.js:342 | `flatten` of the per-paragraph lists is their concatenation. |
| Speech.PartsOfParagraphs | src/background.js:341 | Every chunk of every paragraph is non-blank and closed: shorter than the limit in UTF-16 code units, a single word, or ended by a natural pause. |
| Speech.TextPartsAreSpeakable | src/background.js:340-342 | Every part handed to the synthesizer has a non-white-space character and is shorter than 100 UTF-16 code units, a single word, or ended by a natural pause. |
| Speech.WordsOfParagraphs | src/background.js:341-342 | The non-blank words of the paragraphs reach the parts in order, none lost or repeated. |
| Speech.TextPartsKeepWords | src/background.js:340-342 | The non-blank words of the text's paragraphs are exactly the non-blank words of the parts, in order. |
| Speech.StoredIdAfterOneWrite | src/background.js:415-431 | When one other value is stored before chunk c, the check reads the run's own id before c and that value from c on. |
| Speech.UninterruptedRunSpeaksAll | src/background.js:344-353 | If nothing else is stored, every part is spoken. |
| Speech.InterruptedRunStops | src/background.js:344-353 | A stop (null stored) or another run's id stored before chunk c silences chunk c and every later one; exactly the parts before c are spoken. |
| Speech.StoredIdWithForeignWrites | src/background.js:344-353 | When every value other handlers store differs from the run's id, the check reads the run's id exactly before the first of them. |
| Speech.ForeignWritesStop | src/background.js:344-353 | Any number of stored values, none of them the run's id, silence the run from the first of them on; exactly the parts before it are spoken. This covers a click followed by another run's store and clear. |
| Speech.Speaker.SetTalkieIsNotSpeaking | src/background.js:430-431 | The stored id is cleared and nothing is spoken. |
| Speech.Speaker.SpeakTextParts | src/background.js:344-355 | Exactly the parts whose check read the run's id are spoken, in order, and the stored id is what was last stored. |
| Speech.Speaker.Speak | src/background.js:328-363 | The spoken utterances are the text's parts that the id check let through, in order, in the given language; afterwards the stored id is cleared (the path on which no chunk fails). |
| Speech.Speaker.HandleIconClick | src/background.js:921-958 | In a tab Talkie cannot read, the special-tab message is spoken and the stored id is left alone. Otherwise the id is cleared; reading the selection is queued only if the synthesizer was not speaking. |
| Permissions.HeldStates | src/background/permissions-manager.js:65-72 | One state per name, true exactly when that name and every origin are granted. |
| Permissions.BrowserPermissions.Request | src/background/permissions-manager.js:48-53 | The request resolves to the user's answer; an accepted request grants the names and the origins; a refused one changes no grant. The call is recorded with its names and origins. |
| Permissions.BrowserPermissions.Remove | src/background/permissions-manager.js:55-60 | The names and origins given are no longer granted, and no other grant changes. The call is recorded with its names and origins. |
| Permissions.PartitionPermissionNames | src/background/permissions-manager.js:74-85 | The loop sends each name to the held list or the not-held list by its own state, in input order. |
| Permissions.PartitionKeepsOrder | src/background/permissions-manager.js:77-85 | Each list is the names whose state matches, filtered from the name/state pairs in input order. |
| Permissions.PartitionIsExact | src/background/permissions-manager.js:77-85 | Every name lands in exactly one of the two lists, as often as it was given. |
| Permissions.PartitionMembers | src/background/permissions-manager.js:77-85 | A name is in a list exactly when some occurrence of it has that list's state. |
| Permissions.InactiveAreNotHeld | src/background/permissions-manager.js:65-85 | The names requested are exactly the given names not already held together with every origin; the names left out of the request are exactly those held. |
| Permissions.PermissionsManager.constructor | src/background/permissions-manager.js:27-35 | The manager keeps the browser's permissions API object, or null when there is none. |
| Permissions.PermissionsManager.BrowserHasPermissionsFeature | src/background/permissions-manager.js:37-39 | True exactly when the API object is present. |
| Permissions.PermissionsManager.UseOptionalPermissions | src/background/permissions-manager.js:62-114 | After one `contains` per name (the states `HeldStates` gives), the API sees two state-changing calls. First comes a request for the names not already held together with every origin, in input order, with all the origins. Then comes a remove of those same names: without origins after a callback that returned, with the origins after one that threw. The callback receives the user's answer, and its result or error is passed on. Afterwards the requested names are no longer granted. On success the origins stay as the request left them. When the callback throws, the origins are released too. |
| Permissions.AllHeldRequestsNothing | src/background/permissions-manager.js:65-90 | When every name is already held together with every origin, the request asks for no name at all. |
| Permissions.AlreadyHeldIsKept | src/background/permissions-manager.js:100-110 | A name already held together with every origin stays granted, whatever the user answered and however the callback ended. After a callback that returned, it is still held together with every origin. After a callback that threw, the origins are released, so it is no longer held with them when any were given. |
| Permissions.PartlyHeldIsReleased | src/background/permissions-manager.js:65-102 | A name granted before, but without one of the origins, is requested and then released, so it is no longer granted afterwards. |

## Left out

- Speech synthesis itself is not modelled. The synthesizer, `speakPartOfText`, `synthesizer.cancel()` and the icon modes are replaced by a list of utterances and a click outcome.
- Logging, `executeLogToPage`, the before-unload handlers and `executePlugOnce` are not modelled. They only log or decorate the page.
- Promises are not modelled. `promiseSeries` becomes a loop, and the `Promise.all` over the detection of each selection's text language becomes a sequence of calls.
- speakAllSelections is not modelled. It starts one `speak` per selection at once, and those runs race on the stored id; that race appears only through the `writes` parameter of `Speak`.
- Browser failures (`chrome.runtime.lastError`, a rejected `request`/`contains`/`remove`) are not modelled. The model follows the paths where the browser answers.
- getRandomInt is not modelled. Its result is the `id` parameter of `Speak`, whose precondition is the range `getRandomInt(10000, 99999)` produces.
- Speech.Speaker.Speak: the values other handlers store between chunks are given as a map from chunk index to value. The model does not derive them from concurrently running handlers.
- Speech.Speaker.Speak: only the path on which every chunk is handled without an error is modelled. On that path the final clear (`src/background.js:361`) stores null whatever the page then holds, so a finished older run also clears the id of a newer run. When `speakPartOfText` rejects (the utterance's `onerror`), the source skips the remaining chunks and the final clear, and leaves the id stored. The model does not capture that path.
- Speech.Speaker.Speak: the stored id is one field. In the source, `executeScriptInTopFrame` passes no tab id, so every store, per-chunk read and clear of `window.talkieIsSpeaking` goes to whichever tab is active at that moment. After a tab switch the reads see another page's value and the clears go to that page. The model does not capture this; at most it shows up as values in `writes`.
- Speech.StoredIdAt: the `parseInt` of the stored value in `executeGetTalkieIsSpeakingId` is not modelled. Ids are stored and read back as integers or null.
- Speech.Speaker.HandleIconClick: `synthesizer.speaking` is the `wasSpeaking` parameter, and the whole `speakUserSelection` chain is one queued outcome. That chain includes getting the selections, the voices and the page language.
- Languages.MapIso639Aliases: the model does not capture what happens for a language equal to an `Object.prototype` key such as "constructor". There the JavaScript lookup in the alias object yields a function.
- Languages.CleanupLanguagesArray: a `parentElementsLanguages` that is present but not an array is not modelled. A missing list is modelled (as empty).
- Languages.DetectTextLanguage: the detector's answer is the parameter `textDetection`. Its `languages[i].language` fields are given as JavaScript values.
- Languages.IsValidString: defined as a string holding a non-white-space character, rather than through `trim`. `IsUndefinedOrNullOrEmptyOrWhitespace` proves the two agree.
- Chunker.SentencesKeepWords: word preservation is stated for non-blank words only. A word made only of non-space white space (a tab, say) can end up in a blank part that the final filter drops.
- Tabs.CanTalkieRunInTab: the tab comes from `getCurrentActiveNormalLoadedTab`, whose query has more filters (normal window, loaded tab) but the same single-result rule as `getCurrentActiveTab`. The tab is a parameter here.
- Permissions.PermissionsManager.UseOptionalPermissions: requires the permissions API to be present. Without it the source throws on its first call to the API: `contains`, or `request` when no names are given.
- Permissions.PermissionsManager.UseOptionalPermissions: the per-name `contains` calls are not recorded in `BrowserPermissions.calls`, which logs only the calls that change grants. Their answers are `HeldStates`, read from the grants before the request.
- Permissions.PermissionsManager.UseOptionalPermissions: the callback `fn` is a pure function from the answer to a result or an error. Effects it might have on the permissions are not modelled.
- Permissions.BrowserPermissions.Request: whether the user accepts is the parameter `userAccepts`. The browser's own rules are not modelled, such as a request for nothing resolving immediately.
- Permissions.PermissionsManager.UseOptionalPermissions: the success path releases the names without the origins, so requested origins stay granted after a successful callback. This is modelled as written; only the error path releases the origins.
- Permissions.PermissionsManager.UseOptionalPermissions: permissions held before the call are not always left alone, and the model keeps both cases as written. When the callback throws, every given origin is released, including origins granted before the call (AlreadyHeldIsKept shows this). A name granted without every origin is requested and then released (PartlyHeldIsReleased shows this).

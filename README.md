# Wordy: a verified model of the translator's state handlers

Wordy is a single-page vocabulary app. The user types a word, gets its
translation between a native and a target language, and can do four more
things with it:

- load a conjugation table;
- hear the word spoken;
- save it to a personal list;
- find it again in a capped translation history.

Responses are cached in browser local storage under `wordy_`-prefixed keys.
Saved words and history live in Firestore.

This project models two parts of that app:

- **The main component's handlers** (`src/App.jsx`): translate, save and
  unsave, the history cap and its remote deletes, the grammar load, speech
  playback, the language swap, the suggestion length guard, deletion,
  clearing, and the case-insensitive search of the Saved and History tabs.
- **The autocomplete endpoint** (`api/suggestions.js`): its guard clauses and
  how it shapes its response.

The modules are:

- `Text`: `trim()`, `toLowerCase()` and `includes()` on strings.
- `Lists`: `filter` as `Select`, with its ordering and membership facts, and
  `slice(0, n)` / `slice(n)` as `Truncate` / `Overflow`.
- `Cache`: the local-storage cache and its key formats.
- `Entries`: saved and history records, removal by id, search, and the
  (word, target language) lookup.
- `Session`: the component state as a value (`AppState`) and every handler
  as a function from the state before to the state after. Each function
  takes the outcomes of its awaited calls as parameters.
- `Properties`: what the handlers promise, proved over those functions,
  including the invariant every handler keeps.
- `App`: class `Wordy`, the component as an object. It has one field per
  modelled piece of state (eleven of the component's twenty `useState` hooks,
  plus `playback` for what the audio ref and `speechSynthesis` are sounding,
  and the local-storage cache) and one method per handler, updating fields step by step as the
  `set…` calls do. Each method is proved to leave exactly the state the
  matching `Session` function describes and to keep the invariant.
- `Suggestions`: the autocomplete handler as a total function of the request,
  the presence of the API key, the upstream completion and `JSON.parse`.

## Model

| member | source | states |
|---|---|---|
| `Text.TrimStart` | src/App.jsx:831 | only leading white space is removed; what remains is a suffix of the input that does not start with white space |
| `Text.TrimEnd` | src/App.jsx:831 | only trailing white space is removed; what remains is a prefix of the input that does not end with white space |
| `Text.Trim` | src/App.jsx:831 | the result is a middle slice of the input; everything outside it is white space, and it neither starts nor ends with white space |
| `Text.TrimEmptyIffBlank` | src/App.jsx:831 | `!w.trim()` holds exactly when every character of `w` is white space |
| `Text.TrimIdempotent` | src/App.jsx:833 | trimming an already trimmed word changes nothing |
| `Text.LowerChar` | src/App.jsx:958 | ASCII capitals move down by 32, and every other ASCII character is unchanged |
| `Text.Lower` | src/App.jsx:958-959 | lower-casing keeps the length and maps each character independently |
| `Text.LowerIdempotent` | src/App.jsx:958-959 | lower-casing twice is lower-casing once |
| `Text.ContainsEmpty` | src/App.jsx:958-959 | every string includes the empty string |
| `Lists.Select` | src/App.jsx:881 | the filtered list is no longer than the input and holds only kept elements of it |
| `Lists.SelectMembers` | src/App.jsx:881 | an element is in the filtered list exactly when it is in the input and passes the test |
| `Lists.SelectCount` | src/App.jsx:881 | an element occurs in the filtered list as often as in the input when it passes the test, and not at all otherwise |
| `Lists.SelectAppend` | src/App.jsx:881 | filtering distributes over concatenation |
| `Lists.SelectAll` | src/App.jsx:881 | when every element passes, filtering returns the list unchanged |
| `Lists.SelectNone` | src/App.jsx:958-959 | when no element passes, filtering returns the empty list |
| `Lists.SelectSameTest` | src/App.jsx:958-959 | two tests that agree on every element filter alike |
| `Lists.SelectIdempotent` | src/App.jsx:958-959 | filtering twice by the same test is filtering once |
| `Lists.SelectIsSubsequence` | src/App.jsx:881 | the filtered list is an order-preserving subsequence of the input |
| `Lists.SkipHead` | src/App.jsx:881 | a subsequence of the tail is a subsequence of the whole list |
| `Lists.SubsequenceOfTail` | src/App.jsx:881 | dropping the head of a subsequence keeps it a subsequence |
| `Lists.DistinctAt` | src/App.jsx:878 | in a list with distinct keys, two positions have different keys |
| `Lists.SelectKeepsDistinct` | src/App.jsx:881 | filtering keeps keys distinct |
| `Lists.Truncate` | src/App.jsx:851 | `slice(0, n)` is a prefix of at most `n` elements; it is exactly `n` long when the input is longer, and the whole list otherwise |
| `Lists.Overflow` | src/App.jsx:849 | `slice(n)` is what `slice(0, n)` leaves out, and it is empty when the list has at most `n` elements |
| `Cache.StorageKey` | src/App.jsx:43-45 | the storage key is the `wordy_` prefix followed by the key, unchanged |
| `Cache.Get` | src/App.jsx:44 | a lookup finds a value exactly when the prefixed slot is filled, and that value is the slot's |
| `Cache.Set` | src/App.jsx:45 | after a write, the slot holds the value, every other key reads as before, and exactly one slot may be added |
| `Cache.TranslateSlot` | src/App.jsx:833 | a translation is stored at `wordy_tr_<word>_<native>_<target>` |
| `Cache.GrammarSlot` | src/App.jsx:864 | a conjugation table is stored at `wordy_grammar_<word>_<target>` |
| `Cache.NamespacesDisjoint` | src/App.jsx:833 | translation slots and conjugation slots never share a key |
| `Cache.JoinIsLastUnderscore` | src/App.jsx:833 | in `a_b`, where `b` has no underscore, the joining underscore is the last one |
| `Cache.SplitLast` | src/App.jsx:833 | `a_b` determines `a` and `b` when `b` has no underscore |
| `Cache.TranslateKeyInjective` | src/App.jsx:833 | with underscore-free language codes, two translate requests share a key only if word, source language and target language are all equal |
| `Entries.Ids` | src/App.jsx:850 | the ids of a list, one per record, in order |
| `Entries.RemoveId` | src/App.jsx:881 | `prev.filter(i => i.id !== id)`: no longer than the input, and no record left carries the id |
| `Entries.RemoveIdSpec` | src/App.jsx:881 | removal by id drops exactly the records with that id; every other record keeps its number of occurrences and its order; an absent id changes nothing |
| `Entries.Search` | src/App.jsx:958-959 | `filteredSaved` / `filteredHistory`: no longer than the list, and every record shown matches the query |
| `Entries.SearchSpec` | src/App.jsx:958-959 | a search keeps exactly the records whose lower-cased word or translation includes the lower-cased query, each as often as in the list, in list order |
| `Entries.SearchEmptyQuery` | src/App.jsx:958-959 | an empty query lists every record |
| `Entries.SearchIgnoresQueryCase` | src/App.jsx:958-959 | a query and its lower-cased form find the same records |
| `Entries.FindSaved` | src/App.jsx:878 | `find` returns the first record with that word and target language, and finds nothing exactly when no such record exists (the badge's `some` is false) |
| `Properties.BlankInputOnlyShakes` | src/App.jsx:831 | a blank word only sets the shake cue; there is no request, no state change and no delete |
| `Properties.CacheHitLeavesLists` | src/App.jsx:832-835 | a cache hit clears the suggestions and the table and shows the cached translation; there is no request, no cache write and no history change |
| `Properties.FilledSlotIsHit` | src/App.jsx:834-835 | with a well-typed cache, any filled translation slot is a hit |
| `Properties.SuccessShowsReply` | src/App.jsx:839-845 | a successful reply is shown, unless a signed-in user's history write was rejected |
| `Properties.SuccessIsCachedUnderKey` | src/App.jsx:841 | a successful reply is cached under the trimmed word and the current pair, and every other slot is unchanged |
| `Properties.FailureWritesNothing` | src/App.jsx:838-857 | an error reply shows its error and a thrown call shows the network error; neither writes the cache or any list |
| `Properties.HistoryWriteRejected` | src/App.jsx:841-857 | when `addDoc` rejects, the network error is shown, but the translation already cached stays and the history is unchanged |
| `Properties.HistoryIsCapped` | src/App.jsx:843-854 | a recorded translation goes first, the history keeps at most 100 records, the records beyond 100 are exactly the ones deleted, and nothing is deleted below the cap |
| `Properties.HistoryAtCapDropsOldest` | src/App.jsx:846-852 | at exactly 100 records, the new record goes in and only the oldest is dropped and deleted |
| `Properties.TranslateKeepsCacheTyped` | src/App.jsx:841 | translating keeps every translation slot holding a translation and every grammar slot holding a table |
| `Properties.RepeatIsCacheHit` | src/App.jsx:833-841 | after a successful translate, translating any word with the same trimmed form in the same pair is a cache hit: same result, no request, cache and history unchanged |
| `Properties.RepeatTrimmedIsCacheHit` | src/App.jsx:833-841 | after a successful translate of a trimmed word, translating it again in the same pair is a hit: same result, no request, cache and history unchanged |
| `Properties.TranslateFrame` | src/App.jsx:830-859 | translating leaves the user, languages, typed word, saved list and speech untouched, and the history too unless a record is written |
| `Properties.HistoryItemWellFormed` | src/App.jsx:844 | a history record has a non-empty trimmed word, and its translation is the reply's `main` |
| `Properties.TranslateHistoryWellFormed` | src/App.jsx:846-853 | after a translate, the history is still capped and holds only well-formed records |
| `Properties.TranslateTrimmedPreservesInvariant` | src/App.jsx:830-859 | translating a trimmed word keeps the state invariant |
| `Properties.TranslatePreservesInvariant` | src/App.jsx:830-859 | translating any input keeps the state invariant |
| `Properties.LoadGrammarPreservesInvariant` | src/App.jsx:862-873 | loading the table keeps the invariant |
| `Properties.GrammarNeedsMain` | src/App.jsx:863 | without a shown translation with a non-empty `main`, `loadGrammar` changes nothing and sends nothing |
| `Properties.GrammarFetchIsCached` | src/App.jsx:864-872 | a fetched table is shown and cached under the typed word and target language, and only there; loading again is served from the cache; a thrown call changes nothing |
| `Properties.SaveNeedsResultAndUser` | src/App.jsx:877 | without a result or a user, saving changes nothing |
| `Properties.SaveRemovesFoundId` | src/App.jsx:878-882 | saving a pair that is already saved removes exactly the records with the found record's id, keeps every other record with its number of occurrences and its order, and changes nothing else |
| `Properties.SaveAddsEntry` | src/App.jsx:884-886 | saving a new pair puts first a record with the typed word, the target language and the shown `main`, and changes nothing else |
| `Properties.SaveRejectedChangesNothing` | src/App.jsx:879-886 | a rejected Firestore call leaves the state unchanged |
| `Properties.SaveToggles` | src/App.jsx:876-887 | with unique ids and a fresh id, saving flips whether the pair is saved, and ids and pairs stay unique |
| `Properties.SaveThenUnsave` | src/App.jsx:876-887 | saving a new pair and saving again restores the saved list exactly |
| `Properties.BadgeLightsOnSave` | src/App.jsx:415 | when the service echoed the typed word, saving a new pair turns the "Saved" badge on |
| `Properties.BadgeMissesUntrimmedWord` | src/App.jsx:415 | a concrete state: "hello " is saved as typed, but the badge looks for the echoed "hello" and stays off |
| `Properties.SavePreservesInvariant` | src/App.jsx:876-887 | saving keeps the invariant |
| `Properties.DeleteSavedRemovesId` | src/App.jsx:916-919 | deleting a saved word removes exactly the records with that id, keeps every other record with its number of occurrences and its order, and changes nothing else |
| `Properties.DeleteHistoryRemovesId` | src/App.jsx:920-923 | deleting from the history removes exactly the records with that id, keeps every other record with its number of occurrences and its order, and changes nothing else |
| `Properties.DeletePreservesInvariant` | src/App.jsx:916-923 | both deletes keep the invariant |
| `Properties.ClearHistoryEmpties` | src/App.jsx:924-929 | clearing empties the history, changes nothing else, and deletes every record's id in one batch |
| `Properties.SpeakSameTextStops` | src/App.jsx:891-893 | tapping the speaker of the text now speaking stops playback, clears the speaking word and sends no request |
| `Properties.SpeakNewTextStarts` | src/App.jsx:891-912 | tapping another text marks it as speaking and requests audio. Playback is the audio when TTS succeeds, else the on-device voice, else silence, and nothing else changes |
| `Properties.SpeakTwiceIsSilent` | src/App.jsx:893-894 | two taps on the same speaker return to silence |
| `Properties.VoiceTable` | src/App.jsx:907-909 | the fallback voice is `<lang>-XX` for the seven app languages and "en-US" for any other |
| `Properties.SpeakPreservesInvariant` | src/App.jsx:890-913 | speaking and the end of playback keep the invariant |
| `Properties.SwapTwiceRestoresPair` | src/App.jsx:805-809 | a swap exchanges the two languages and clears the result and table, so swapping twice restores the pair |
| `Properties.ShortInputClearsSuggestions` | src/App.jsx:813 | input shorter than two characters clears the suggestions, whatever the network would answer |
| `Properties.OtherHandlersPreserveInvariant` | src/App.jsx:805-827 | clear, swap, input and suggestions all keep the invariant |
| `Session.TranslateTrimmed` | src/App.jsx:831-859 | translating the trimmed word never touches the user, the languages, the saved list or speech; the cache changes only after a successful fetch, the history only when a record is written |
| `Session.Translate` | src/App.jsx:830-859 | a blank input only sets the shake cue; any other input clears the suggestions and the table |
| `Session.LoadGrammar` | src/App.jsx:862-873 | `loadGrammar()` changes only the table and the cache, and the cache only after a fetch that replied |
| `Session.Save` | src/App.jsx:876-887 | `handleSave()` changes only the saved list, and only with a user, a shown result and a successful Firestore call |
| `Session.Speak` | src/App.jsx:890-913 | `speak` changes only the speaking word and the playback, and the speaking word becomes "" or the text |
| `Session.PlaybackEnded` | src/App.jsx:902-903 | the end of playback clears the speaking word and silences playback |
| `Session.DeleteSaved` | src/App.jsx:916-919 | `deleteSaved` changes only the saved list and never lengthens it |
| `Session.DeleteHistory` | src/App.jsx:920-923 | `deleteHistory` changes only the history and never lengthens it |
| `Session.ClearHistory` | src/App.jsx:924-929 | `clearHistory` either changes nothing or empties the history and nothing else |
| `Session.SwapLangs` | src/App.jsx:805-809 | `handleSwapLangs` exchanges the languages and clears the result and table |
| `Session.Input` | src/App.jsx:823-824 | `handleInput` sets the typed word |
| `Session.FetchSuggestions` | src/App.jsx:812-821 | `fetchSuggestions` changes only the suggestions, and a thrown call clears them |
| `Session.VoiceFor` | src/App.jsx:907-909 | every fallback voice is a `xx-XX` tag |
| `Session.BadgeShown` | src/App.jsx:415 | the "Saved" badge looks up the word the service echoed and the target language |
| `Entries.Matches` | src/App.jsx:958-959 | the search test: the lower-cased query occurs in the lower-cased word or translation |
| `Entries.IsSaved` | src/App.jsx:415 | `saved.some(…)` on the (word, target language) pair |
| `Cache.TranslateKey` | src/App.jsx:833 | the translate key `tr_<word>_<native>_<target>` |
| `Cache.GrammarKey` | src/App.jsx:864 | the grammar key `grammar_<word>_<target>` |
| `App.Wordy.constructor` | src/App.jsx:720-745 | the component starts in the initial state over the stored cache, with the invariant holding |
| `App.Wordy.Translate` | src/App.jsx:830-859 | the fields end as `Session.Translate` says; it returns whether the endpoint was called and the overflow ids deleted, and keeps the invariant |
| `App.Wordy.TranslateWord` | src/App.jsx:831-859 | the same, for the trimmed word: shake, cache hit or fetch |
| `App.Wordy.Fetched` | src/App.jsx:836-857 | after a cache miss, the reply is shown, cached and recorded as `Session.TranslateTrimmed` says |
| `App.Wordy.Record` | src/App.jsx:843-854 | the history write: the new history and the deleted ids are those of the capped list |
| `App.Wordy.DeleteIds` | src/App.jsx:849-850 | the loop issues one delete per overflowing record, in order, and returns exactly their ids |
| `App.Wordy.LoadGrammar` | src/App.jsx:862-873 | the fields end as `Session.LoadGrammar` says; it reports whether the endpoint was called |
| `App.Wordy.Save` | src/App.jsx:876-887 | the fields end as `Session.Save` says, with the invariant kept |
| `App.Wordy.Speak` | src/App.jsx:890-913 | the fields end as `Session.Speak` says; it reports whether TTS was requested |
| `App.Wordy.PlaybackEnded` | src/App.jsx:902-903 | the end or error of playback clears the speaking word |
| `App.Wordy.DeleteSaved` | src/App.jsx:916-919 | the fields end as `Session.DeleteSaved` says |
| `App.Wordy.DeleteHistory` | src/App.jsx:920-923 | the fields end as `Session.DeleteHistory` says |
| `App.Wordy.ClearHistory` | src/App.jsx:924-929 | the fields end as `Session.ClearHistory` says, and the batch holds every history id |
| `App.Wordy.SwapLangs` | src/App.jsx:805-809 | the fields end as `Session.SwapLangs` says |
| `App.Wordy.Input` | src/App.jsx:823-824 | the typed word becomes the input |
| `App.Wordy.FetchSuggestions` | src/App.jsx:812-821 | the suggestions endpoint is called exactly when the text has at least two characters, and the fields end as `Session.FetchSuggestions` says |
| `Suggestions.StripFences` | api/suggestions.js:25 | removing fences never lengthens the text |
| `Suggestions.StripKeepsHead` | api/suggestions.js:25 | a character that does not start a fence is kept |
| `Suggestions.StripAfterTick` | api/suggestions.js:25 | after a lone backtick, the rest cannot start with two backticks |
| `Suggestions.StripLeavesNoFence` | api/suggestions.js:25 | after the fence-removing `replace`, no "```" is left anywhere, even one formed by joining the pieces around a removed fence |
| `Suggestions.SliceKeepsNoFence` | api/suggestions.js:25 | a slice of fence-free text is fence-free |
| `Suggestions.ContentText` | api/suggestions.js:24-25 | missing content and the empty string read as "[]", a non-empty string is kept, and non-string content makes `.replace` throw |
| `Suggestions.Clean` | api/suggestions.js:25 | the text handed to `JSON.parse` is never longer than the content |
| `Suggestions.CleanSpec` | api/suggestions.js:25 | the text given to `JSON.parse` has no fence and no surrounding white space |
| `Suggestions.TrimKeepsNoFence` | api/suggestions.js:25 | trimming cannot create a fence |
| `Suggestions.Shape` | api/suggestions.js:26 | a parsed array is cut to a prefix of at most six items, kept whole when shorter; a non-array gives [] |
| `Suggestions.Handle` | api/suggestions.js:2-30 | a non-POST request gets a 405 error; a POST without a body gets no reply, since destructuring `req.body` throws outside the `try`; every other POST gets 200 with a suggestions list of at most six; a request stopped by a guard gets [] |
| `Suggestions.ArrayReplyIsShaped` | api/suggestions.js:24-26 | when the model's text parses as an array, the answer is 200 with that array's first six items |
| `Suggestions.EmptyContentParsesEmptyArray` | api/suggestions.js:24-26 | missing or empty content is answered with `JSON.parse("[]")`, shaped |
| `Suggestions.GuardedRequestIgnoresUpstream` | api/suggestions.js:5-8 | a short or missing prefix, or a missing key, answers without depending on the model |
| `Suggestions.SuggestionsComeFromParsedArray` | api/suggestions.js:24-26 | a non-empty answer comes only from a model reply whose cleaned text parsed as an array, and it is a prefix of that array |
| `Suggestions.FailuresAreEmpty` | api/suggestions.js:24-28 | a network failure, non-string content or a non-array parse all give 200 with [] |
| `Suggestions.MissingContentIsEmptyArray` | api/suggestions.js:24 | missing content is handled exactly like the text "[]" |
| `Suggestions.SameTextSameAnswer` | api/suggestions.js:24-26 | two contents that read as the same text get the same answer |
| `Suggestions.StripEmptyArray` | api/suggestions.js:25 | "[]" holds no fence, so the fence removal keeps it |
| `Suggestions.CleanEmptyArray` | api/suggestions.js:25 | "[]" passes through the cleaning unchanged |
| `Suggestions.StripKeepsTickFreePrefix` | api/suggestions.js:25 | text up to the first backquote is kept unchanged, and the rest is stripped on its own |
| `Suggestions.StripKeepsFenceFree` | api/suggestions.js:25 | text holding no "```" is returned unchanged by the fence removal |
| `Suggestions.StripDropsJsonFence` | api/suggestions.js:25 | an opening "```json" is removed whole, its `json` tag included |
| `Suggestions.StripDropsFence` | api/suggestions.js:25 | a bare "```" not followed by `json` is removed and nothing else |
| `Suggestions.StripFencedPayload` | api/suggestions.js:25 | the fenced reply "```json<x>```" is stripped to exactly its payload `x` when `x` holds no backquote |
| `Suggestions.CleanFenceFree` | api/suggestions.js:25 | text without a fence is only trimmed before `JSON.parse` |
| `Suggestions.CleanFencedPayload` | api/suggestions.js:25 | a fenced reply is handed to `JSON.parse` as its trimmed payload |
| `Suggestions.FencedReplyIsShaped` | api/suggestions.js:24-26 | a fenced reply whose trimmed payload parses as an array is answered with 200 and that array's first six items |

## Left out

- Authentication, sign-out, `loadUserData` and the language-selection screen
  are not modelled. The state starts from `Initial` with the user already
  known and empty lists.
- The remote services are not modelled: the translate, grammar, TTS and
  suggestion endpoints, and Firestore.
  - Each awaited call is a parameter giving how it ended.
  - Server timestamps and `createdAt` are dropped.
  - Prompt texts and model parameters are not modelled.
- Timers are not modelled: the 200 ms suggestion debounce, the 400 ms reset
  of the shake cue, and the race between overlapping async handlers. Each
  handler is modelled as running to completion on the state it started from.
- Loading flags (`loading`, `grammarLoading`, `sugLoading`) are not modelled,
  and neither are the re-entrancy guards built on them: the translate button is
  disabled while `loading` (src/App.jsx:1013), the grammar button only calls
  `loadGrammar` when no table is shown and none is loading (src/App.jsx:475),
  and the result card is hidden while `loading` (src/App.jsx:1049). The model
  lets every handler run from every state.
- Audio objects, object URLs and `speechSynthesis` are not modelled. They are
  summarised by the `Playback` value.
- Rendering, `formatDate` and the service worker are not modelled.
- Local-storage failures are not modelled. `getCache` and `setCache` swallow
  quota and JSON errors; the model's cache never fails.
- `Text.LowerChar` lower-cases the capitals of ASCII, Latin-1 (except
  U+00D7, the multiplication sign), basic Cyrillic including U+0400-U+040F and
  Ґ, and the three capitals outside those blocks that French and German use:
  Œ, Ÿ and ẞ. Every other character is left as it is, whereas `toLowerCase`
  follows the whole Unicode case table (Latin Extended, Greek and the rest), so
  a search whose query or record holds such a capital can differ from the
  app's.
- String lengths are counted in characters, not UTF-16 code units. This
  matters for `text.length < 2` in `fetchSuggestions` and for
  `prefix.length < 2` in the suggestions endpoint (api/suggestions.js:5), on
  astral characters.
- `Session.CachedTranslationOf`, `Session.CachedGrammarOf`: a slot holding
  the other kind of value is read as a miss. Under the invariant
  (`CacheWellTyped`, kept by every handler) that case cannot happen.
- `Session.Save`, `App.Wordy.Save`: require that the result is not an error.
  The save button is only rendered with a successful result
  (src/App.jsx:1049-1050), so `handleSave` is never called with an error
  result.
- `Suggestions.Handle`: a `prefix` that is a non-string truthy value
  (an array, a number) is not modelled. `Request.prefix` is a string or
  absent.
- `Suggestions.Handle`: for a POST without a body the handler throws before
  replying (`Unanswered`); the error status the hosting platform then sends is
  not modelled.
- `Suggestions.Handle`: `JSON.parse` is a parameter, not a JSON parser.
  Only its three outcomes are distinguished: syntax error, non-array, array.
- The history cap in the code is 100 records, and that is the constant
  modelled.
- A grammar reply is cached whatever it holds, error replies included. The
  code stores `d` unconditionally; the model does the same.
- When the TTS request fails and no on-device synthesizer exists, the
  speaking word stays set with nothing playing, as in the code
  (`Properties.SpeakNewTextStarts`, case `TtsFailed(false)`).

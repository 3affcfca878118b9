# Real-time translator: session bookkeeping and client transforms

The system is a live speech translator. A browser client streams microphone
audio over a WebSocket to a Node server. For each connection the server keeps
one `TranscriptionSession`. The session forwards the audio to a speech
provider and receives finished transcripts. For each transcript it:

- gives the transcript a chunk id and stores it in a chunk registry;
- keeps a 60-second rolling context of recent transcripts;
- asks a language model for corrections, with a 30-second cache keyed by the
  last twenty words of the context;
- streams translations back in 50 ms / 50-character batches;
- re-translates every stored chunk a correction touches.

A 30-second timer trims the registry to 200 chunks. The client folds the
server's events into its transcript list, its translation panel and its topic
line. It marks the newest five items with the corrections that apply to them
and replays those corrections when an item is displayed.

The project models this bookkeeping as pure functions over immutable values:

| module | file | what it models |
|---|---|---|
| `Registry` | registry.dfy | `chunksMap`, an insertion-ordered map; chunk ids; `cleanupOldChunks` |
| `ContextWindow` | context.dfy | `addToContext` |
| `Trigger` | trigger.dfy | `shouldTriggerAnalysis` |
| `Caches` | caches.dfy | the correction cache of `analyzeAndCorrect`; the keyword cache of `buildDynamicPrompt` |
| `Cascade` | cascade.dfy | `sendCorrections`, `retranslateAffectedChunks`, `autoTranslate` |
| `Translation` | translation.dfy | the batching loop of `translate` and the events it sends |
| `Session` | session.dfy | the session record, the message switch, transcript arrival and the background steps |
| `Client` | client.dfy | `handleServerMessage`, `applyCorrections`, `requestTranslation`, the automatic translation of the last three items, `TranscriptItem` |

`Text` (text.dfy) and `Lex` (lex.dfy) model the JavaScript string operations
the core relies on:

- `includes`, `indexOf` and `replace`;
- `split(' ')`, `join(' ')` and `trim()`;
- number-to-string conversion;
- the default sort order of `Array.prototype.sort`, which compares UTF-16
  code units.

`Seqs` and `Wrappers` are generic helpers.

Clock readings are explicit parameters (`now`, `doneAt`, `startAt`). Provider
answers are inputs: `None` stands for a failed call or an unparsable reply.

## Model

| member | source | states |
|---|---|---|
| Lex.LexIrreflexive | backend/server.js:87 | No key sorts before itself under the default string order |
| Lex.LexTransitive | backend/server.js:87 | The default string order is transitive |
| Lex.LexTotal | backend/server.js:87 | Two distinct keys are always ordered one way or the other, so the sorted key array is unique |
| Lex.LexAsymmetric | backend/server.js:87 | Two keys are never each smaller than the other |
| Lex.DecimalString | backend/server.js:234 | A number's decimal text is non-empty, all digits, and has two or more digits exactly from 10 up |
| Lex.ParseDecimalString | backend/server.js:234 | Reading the decimal text back gives the number, so the rendering loses nothing |
| Lex.DecimalStringInjective | backend/server.js:234 | Different numbers render differently |
| Lex.DecimalOrder | backend/server.js:234 | For renderings of equal width, string order is numeric order (both directions) |
| Registry.ChunkId | backend/server.js:234 | An id is `chunk-`, then digits everywhere except one dash, which sits right after the millisecond numeral; its length is seven plus the two numerals' widths |
| Registry.ChunkIdInjective | backend/server.js:234 | `chunk-<ms>-<counter>` determines both numbers, so ids with different counters never collide |
| Registry.ChunkIdOrderFollowsMillis | backend/server.js:87 | An id from an earlier millisecond of the same digit width sorts first, whatever the counters |
| Registry.SameMillisecondOrderIsNotCreationOrder | backend/server.js:85-93 | Within any one millisecond, every counter from 10 to 89 sorts before counter 9, so those newer chunks are deleted first |
| Registry.Empty | backend/server.js:61 | The new registry is well formed and empty |
| Registry.Put | backend/server.js:239-245 | `set` stores the value; a new key is appended at the end and grows the size by one; an existing key keeps its place |
| Registry.Update | backend/server.js:482 | Writing a field of a stored chunk keeps the key order and changes only that entry |
| Registry.Get | backend/server.js:494 | `get` finds exactly the stored keys and returns their values |
| Registry.StrictlySortedNoDup | backend/server.js:87 | A strictly increasing key array has no repeats |
| Registry.Insert | backend/server.js:87 | Inserting a new key keeps the array strictly sorted and adds exactly that key |
| Registry.SortKeys | backend/server.js:87 | Sorting distinct keys gives a strictly increasing array of the same keys |
| Registry.SortKeysOfSorted | backend/server.js:87 | Sorting an already sorted array returns it unchanged |
| Registry.Doomed | backend/server.js:86-93 | The first `n` sorted keys: exactly `n` stored keys, each smaller than every key that survives |
| Registry.Cleanup | backend/server.js:77-96 | Up to 200 chunks nothing changes. Above that, exactly 200 stay. Survivors are unchanged and keep their order. Every deleted key sorts before every survivor. Keys inserted in increasing order lose exactly the oldest |
| Registry.EvictSmallest | backend/server.js:86-93 | Deleting the `n` smallest keys removes `n` entries, all smaller than the survivors, and leaves the rest untouched and in order |
| Registry.DoomedOfSorted | backend/server.js:85-93 | When the keys were inserted in sorted order, the doomed keys are the first `n` inserted |
| ContextWindow.EmptyWindow | backend/server.js:39-41 | A new session's context is empty, with a zero transcript count |
| ContextWindow.AddToContext | backend/server.js:99-113 | After a transcript arrives: every entry is newer than `now - 60000`, and the entries are an ordered subsequence of old plus new. An entry survives iff it is old-or-new and recent. A recent new entry ends the buffer. The context is the space-joined texts. The count rises by one and the last transcript time is the new timestamp |
| ContextWindow.ContextEndsWithNewText | backend/server.js:106-112 | A transcript stamped now ends the rebuilt context, after a space when older text precedes it |
| ContextWindow.RecentOfSortedIsSuffix | backend/server.js:104-108 | With timestamps in arrival order, the window cut drops a prefix and keeps a suffix |
| Trigger.ShouldTriggerAnalysis | backend/server.js:116-131 | Analysis is due iff more than 2 s passed with a pending transcript, or 3 transcripts are pending, or more than 2 s of silence passed |
| Trigger.TriggerMonotoneInTime | backend/server.js:116-131 | With the counters fixed, waiting longer never turns the trigger off |
| Caches.ContextKey | backend/server.js:377 | Splitting the key at spaces gives back exactly the last twenty words of the context (all of them when there are fewer) |
| Caches.ContextKeyIgnoresOlderText | backend/server.js:377 | Contexts that end in the same twenty or more words get the same cache key, whatever precedes them |
| Caches.KeywordKeyOfRecentContext | backend/server.js:389 | The keyword key taken from the 200-character slice equals the last 100 characters of the whole context |
| Caches.CorrectionStep | backend/server.js:371-447 | A context under 5 characters is skipped with no effect. A hit iff the key is cached and younger than 30 s, and the hit returns the stored answer. Otherwise the provider is consulted: failure iff there is no reply, and caching with the completion time iff the reply has corrections |
| Caches.CorrectionStepKeepsUseful | backend/server.js:432-439 | The cache only ever stores answers with corrections, so every answer that gets sent has some |
| Caches.RepeatWithinTtlIsHit | backend/server.js:378-384 | The same context within 30 s of a stored answer is served from the cache, whatever the provider would now say |
| Caches.StaleEntryConsultsProvider | backend/server.js:380 | An entry 30 s old or older no longer answers and the provider is asked |
| Caches.KeywordStep | backend/server.js:297-335 | A hit iff the last 100 characters are cached and the entry is younger than 60 s. Otherwise the provider's reply is trimmed and stored under that key; on failure the cache is unchanged |
| Caches.KeywordStepStoresTrimmed | backend/server.js:326-332 | Stored keywords never begin or end with whitespace |
| Text.IndexOf | backend/server.js:472 | The result is the first position where the substring occurs, or none when it never occurs |
| Text.Includes | backend/server.js:472 | `includes` holds iff the substring occurs at some position |
| Text.ReplaceFirst | frontend/src/App.jsx:601 | `replace` with a string pattern swaps only the first occurrence and leaves a text without one unchanged |
| Text.ReplaceAllWithoutMatch | backend/server.js:476-479 | With no case-insensitive match, the global replace returns the text unchanged |
| Text.ExactIsMatchIgnoreCase | backend/server.js:472-477 | Every chunk the case-sensitive `includes` selects also has a case-insensitive match |
| Text.ReplaceAllIgnoreCase | backend/server.js:476-479 | With a non-empty pattern and a replacement of the same length, the text keeps its length |
| Text.AgreesFromAll | backend/server.js:476 | A case-insensitive match at a position means every character of the pattern agrees there once folded to lower case |
| Text.ScanWithoutMatch | backend/server.js:476-479 | With no case-insensitive match at or after a position, the scan copies the rest of the text unchanged |
| Text.ScanAtFirstMatch | backend/server.js:476-479 | From any position, the scan keeps the text up to the first match, turns that match into the replacement and resumes right after it, so matches never overlap |
| Text.ReplaceAllAtFirstMatch | backend/server.js:476-479 | The global replace keeps the text before the first match, replaces that match, then handles the rest of the text after it the same way |
| Text.ReplaceAllSingleMatch | backend/server.js:476-479 | With exactly one case-insensitive match, the result is the text with just that span replaced |
| Text.ReplaceAllAgreesWithReplaceFirst | backend/server.js:472-479 | When the only case-insensitive match is an exact occurrence, the server's global replace and the client's first-occurrence `replace` (frontend/src/App.jsx line 601) give the same text |
| Text.NbcBecomesNba | backend/server.js:476-479 | The correction `NBC` to `NBA` turns "the NBC player scored" into "the NBA player scored" |
| Text.Split | backend/server.js:377 | `split(' ')` yields at least one part, no part holds a space, and joining the parts gives back the text |
| Text.SplitConcat | backend/server.js:377 | Splitting at a space splits the two sides independently |
| Text.SplitJoin | backend/server.js:377 | `split` undoes `join` when no part holds the separator |
| Text.Trim | frontend/src/App.jsx:309 | `trim` gives the slice between the leading and trailing whitespace: empty iff the text is all whitespace, otherwise starting and ending with non-whitespace |
| Cascade.LastMatch | backend/server.js:469-482 | The last correction whose original occurs in the text, or none iff no correction occurs |
| Cascade.Scan | backend/server.js:471-486 | One correction's pass keeps the keys, their order and every source field |
| Cascade.ScanChunk | backend/server.js:471-482 | A chunk gets `corrected` from this correction iff it was scanned and its text contains the original |
| Cascade.ScanRequests | backend/server.js:471-486 | One correction asks for a retranslation of exactly the chunks it matches, each with its corrected text and chunk id |
| Cascade.ScanSound | backend/server.js:472-485 | Every request of a pass is for a chunk the correction matches |
| Cascade.ScanComplete | backend/server.js:472-485 | Every chunk the correction matches gets a request |
| Cascade.RetranslateAll | backend/server.js:469-488 | All corrections together keep the keys, their order and every source field |
| Cascade.RetranslateAllLastMatch | backend/server.js:469-482 | When the corrections' passes run one after another in list order, the last matching correction decides a chunk's final `corrected`; an unmatched chunk is unchanged |
| Cascade.RetranslateAllRequests | backend/server.js:469-486 | The requests are exactly one per (chunk, matching correction) pair (both directions) |
| Cascade.RetranslateAllSound | backend/server.js:469-486 | Each request comes from a correction that matches its chunk |
| Cascade.RetranslateAllComplete | backend/server.js:469-486 | Each correction that matches a chunk yields that chunk's request |
| Cascade.RetranslateAffectedChunks | backend/server.js:465-489 | Without a target language, or with `'Original'`, nothing happens. Otherwise the keys, order and sources are kept, unmatched chunks are untouched, and every request names a stored chunk and the target language |
| Cascade.SendCorrections | backend/server.js:449-462 | One `corrections` event always. The cascade runs iff the list is non-empty; an empty list leaves the registry alone |
| Cascade.AutoTranslate | backend/server.js:492-507 | A missing chunk or a text under 5 characters does nothing. Otherwise the chunk is marked `translationSent`, even for `'Original'`, and a translation is requested iff there is a real target |
| Translation.Step | backend/server.js:553-573 | An empty delta is skipped. A flush happens iff 50 ms passed or the buffer exceeds 50 characters; it sends the whole buffer, never empty, and restarts the clock |
| Translation.Run | backend/server.js:549-574 | The flushed pieces followed by the leftover buffer spell exactly the stream's text. No piece is empty, and the buffer stays within 50 characters |
| Translation.Translate | backend/server.js:519-602 | A call sends nothing iff the provider call failed. Otherwise the first event is `translation_start`, and the last is the completion when the stream completed |
| Translation.TranslateShape | backend/server.js:519-602 | A failed call sends nothing. Otherwise one `translation_start` comes first and never again. Every partial is non-empty and carries the language and chunk id. Exactly one completion comes, last, iff the stream completed |
| Translation.PartialsSpellStream | backend/server.js:549-597 | The partial texts add up to the provider's whole text when the stream completes, and to a prefix of it when the stream fails |
| Translation.PartialTextOfSent | backend/server.js:576-597 | The partial text of one call is the flushed pieces, plus the leftover buffer when the stream completed |
| Session.IsSupportedLanguage | backend/server.js:667-669 | No contract of its own: it is the list of 58 accepted codes, and `SupportedLanguagesAreCodes` states what they share |
| Session.SupportedLanguagesAreCodes | backend/server.js:667-669 | Every accepted code is two lower-case letters, as ISO 639-1 codes are |
| Session.LanguageFallback | backend/server.js:665-679 | The stored language is always a supported code: the requested code when supported, otherwise `'en'` |
| Session.SampleRateFallback | backend/server.js:688-699 | The stored rate is always one of 16000/24000/44100/48000: the requested rate when supported, otherwise 24000 |
| Session.DefaultsSupported | backend/server.js:42-43 | The defaults `'en'` and 24000 are themselves on the whitelists |
| Session.NewSession | backend/server.js:36-67 | A new session satisfies the invariant. Its registry is empty, the counter 0, the language `'en'` with target `'en'` and rate 24000, and both clocks start at construction |
| Session.HandleStart | backend/server.js:647-702 | Without a key from the client or the environment, one `API key required` error and nothing else. Otherwise each truthy field is applied, the language and rate through their whitelists, and nothing else changes |
| Session.UnselectedClientStartsInDefaultLanguage | frontend/src/App.jsx:270-275 | The client's first `start` carries `'English'`, which is not a code, so the session transcribes in `'en'` |
| Session.HandleClientMessage | backend/server.js:646-756 | `update_language` falls back to `'en'`. `update_target_language` stores the raw value. `translate` requests a translation with no chunk id. `audio` changes nothing. `stop` stops the cleanup timer. No message touches the registry, the context or the counters |
| Session.MessagesKeepConfigValid | backend/server.js:665-729 | Whatever the client sends, the language stays a supported code and the rate a supported rate |
| Session.ProcessTranscript | backend/server.js:231-259 | A transcript gets id `chunk-<now>-<counter>` and a fresh registry entry. It goes through `addToContext`, yields one `transcript` event, and advances the counter by one |
| Session.ProcessTranscriptAddsFreshChunk | backend/server.js:234-245 | The new id is never already stored, so the registry grows by exactly one entry, at the end, and the invariant holds. The new entry ends the context buffer |
| Session.ProcessAll | backend/server.js:231-259 | Any sequence of transcripts keeps the registry well formed |
| Session.ProcessAllCounts | backend/server.js:99-102 | `k` transcripts grow the registry and the trigger counter by exactly `k`. Nothing resets the counter or the last analysis time |
| Session.TriggerLatches | backend/server.js:116-131 | After three transcripts `shouldTriggerAnalysis` holds at every later clock reading, because nothing ever resets its counter |
| Session.AnalyzeAndCorrect | backend/server.js:371-447 | The correction pass keeps the registry's keys and order. It changes only the registry and the two caches, and a context under 5 characters leaves the session untouched |
| Session.AfterLookup | backend/server.js:380-442 | A hit or a useful answer sends one `corrections` event and runs the cascade. Every other outcome sends nothing and leaves the registry alone. The keyword cache changes only when the provider was consulted |
| Session.KeywordsOnMiss | backend/server.js:389-394 | Keyword extraction runs only when the provider was consulted for corrections. On a reply it stores an entry under the last 100 characters of the whole context, and it never touches any other key |
| Session.AutoTranslateStep | backend/server.js:492-507 | Automatic translation touches only the registry and sends no event |
| Session.OnTranscript | backend/server.js:231-266 | A `completed` event advances the counter by one, keeps the configuration and sends the new chunk's `transcript` event first |
| Session.OnTranscriptKeepsInv | backend/server.js:231-266 | The whole handler, bookkeeping, correction pass and automatic translation, keeps the session invariant |
| Session.OnTranscriptTranslatesNewChunk | backend/server.js:263-266 | With a text of at least 5 characters and a target other than none or `'Original'`, the last request is the translation of the new chunk's uncorrected text, tagged with its id, and the chunk is marked as sent |
| Session.OnTranscriptSkipsShortText | backend/server.js:263-266 | With a text under 5 characters the new chunk is not marked as sent and the only requests are the correction pass's |
| Session.CleanupTick | backend/server.js:70-74 | A tick runs `cleanupOldChunks` and leaves at most 200 chunks; after `stop` it does nothing |
| Session.AnalysisKeepsInv | backend/server.js:371-447 | The correction pass keeps the session invariant: the registry well formed, no id the counter has yet to issue stored, and the language and rate on their whitelists |
| Session.AutoTranslateKeepsInv | backend/server.js:492-507 | So does an automatic translation |
| Session.CleanupKeepsInv | backend/server.js:77-96 | So does a cleanup tick |
| Client.WindowStart | frontend/src/App.jsx:167 | The window holds the newest five items, or every item when there are fewer |
| Client.MatchingIn | frontend/src/App.jsx:168 | A correction applies to an item iff its original occurs in the item's text |
| Client.ApplyCorrection | frontend/src/App.jsx:166-175 | The list keeps its length. An item changes exactly when it is among the newest five and its text contains the correction's original. A changed item keeps its id, text, timestamp and corrected text, gains the correction at the end of its list and is flagged for animation |
| Client.ApplyCorrections | frontend/src/App.jsx:161-180 | The list keeps its length and every text. Items before the window are untouched. Each windowed item gains, in order, exactly the corrections that occur in its text, and is flagged iff it gained one or already was |
| Client.HandleServerMessage | frontend/src/App.jsx:94-158 | A transcript appends one uncorrected item. A partial appends its text to the panel. Start and completion change nothing. Corrections set the topic and mark items. A status or an error message sets the status and changes nothing else |
| Client.HandleAllTranslation | frontend/src/App.jsx:117-125 | Over any event sequence, the panel grows by exactly the partial texts received |
| Client.ClientReassemblesTranslation | frontend/src/App.jsx:117-125 | After one server translation, the panel holds its earlier text followed by the provider's whole text, or a prefix of it when the stream failed |
| Client.RequestTranslation | frontend/src/App.jsx:308-318 | A request is sent iff the socket is open and the text has a non-whitespace character. It carries the trimmed text and clears the panel; otherwise nothing changes |
| Client.RecentText | frontend/src/App.jsx:348 | The newest three texts (fewer if fewer exist), oldest first, one space apart |
| Client.AutoTranslateRecent | frontend/src/App.jsx:343-354 | A request goes out exactly when the socket is open, the list is not empty and the recent text has a non-whitespace character. It carries the trimmed recent text and the target language, and clears the translation panel. Otherwise the state is unchanged |
| Client.DisplayText | frontend/src/App.jsx:587-611 | An item without corrections or without the animation flag shows its own text |
| Client.ApplyInOrder | frontend/src/App.jsx:594-602 | Corrections whose replacement has the length of their original keep the text's length |
| Client.ApplyInOrderSnoc | frontend/src/App.jsx:596-602 | Each correction replaces the first occurrence in the text the earlier corrections produced |
| Client.ApplyInOrderWithoutMatches | frontend/src/App.jsx:601 | Corrections whose originals do not occur leave the text unchanged |

## Left out

- The WebSocket transport, the ping timer, the health endpoint and the
  `sessions` table are not modelled. So are the provider WebSocket and its
  `session.update` payloads, the provider prompts, model names and token
  limits, and `JSON.parse` of client messages and of provider replies. A
  reply is either an `AnalysisResult` or a failure.
- Concurrency is not modelled. `Session.OnTranscript` runs the two tasks of
  the `Promise.all` at backend/server.js:263-266 one after the other: the
  correction pass, then the automatic translation. In the program, on a
  correction-cache miss the pass suspends at the provider call (line 413),
  so the synchronous part of `autoTranslate`, which sets `translationSent`
  and issues its request, runs before the analysis result lands. The model
  does not state that the two orders reach the same session, and the order of
  the requests can differ: on a miss the program issues the new chunk's
  request before the cascade's. The `forEach(async …)` of the cascade and the
  unawaited keyword extraction also run in sequence here, in source order.
- The translation requests the cascade and `autoTranslate` produce are
  returned as `TranslateRequest` values. Their streaming is
  `Translation.Translate`, taken separately.
- The transcript handler reads the clock three times, at lines 233 and 234 and
  inside `addToContext` at line 105. The model uses a single reading. The
  constructor reads it for `lastAnalysisTime` at backend/server.js:45 and for
  `lastTranscriptTime` at line 51; `Session.NewSession` uses one `now` for
  both. Its third reading, `sessionStartTime` at line 44, is never read back
  and is not modelled.
- The process-wide `OPENAI_API_KEY` is modelled only as a boolean: whether a
  key is present. The key value, the client re-initialisation and the
  per-session `apiKey` field are not modelled.
- `new RegExp(original, 'gi')` is modelled for patterns without
  regular-expression metacharacters. Case folding is ASCII only. `$`
  sequences in the replacement are taken literally, both in the server's
  `replace` at backend/server.js:476-479 (`Text.ReplaceAllIgnoreCase`) and in
  the client's `replace` at frontend/src/App.jsx:601 (`Text.ReplaceFirst`).
- Strings are sequences of UTF-16 code units, and `trim` uses the ECMAScript
  whitespace set. Only code points in the Basic Multilingual Plane are
  represented.
- The `translate` message is assumed to carry a string `targetLanguage`. A
  missing field would produce the prompt "Translate to undefined" and is
  not modelled.
- `start` is modelled with string and integer fields only. A
  `sampleRate` that is not an integer, and truthiness of non-string values,
  are not modelled.
- The `connectToRealtime` call after `start`, and the closing of the provider
  socket in `disconnect`, are I/O.
- Client items carry the client clock reading as their id. The model covers
  the React state updates. It leaves out the DOM, the animation timers
  (`idx * 800`, 500 ms, 300 ms), the 1.5 s debounce, reconnection and the
  `localStorage` API key. The audio worklet is not part of this model.
- Cascade.RetranslateAllLastMatch: states the outcome when each
  correction's pass over the chunks finishes before the next one starts. In
  the program, `forEach(async …)` starts every pass at once, and a pass
  suspends at `await this.translate` (backend/server.js:485). An earlier
  correction can therefore resume and overwrite a later one's `corrected`.
  For example, take chunks X = "NBC game" and A = "NBC and Jordon" and the
  corrections NBC to NBA, then Jordon to Jordan. The program can leave A's
  `corrected` as "NBA and Jordon", where the model gives "NBC and Jordan".
  The set of retranslation requests does not depend on the interleaving,
  because each request's text comes from the chunk's own `text`
  (`Cascade.RetranslateAllRequests`). Their order does depend on it.
- Client.DisplayText: states only the unanimated case; the animated text is
  `ApplyInOrder`, characterised by `ApplyInOrderSnoc` and
  `ApplyInOrderWithoutMatches`.
- Trigger.ShouldTriggerAnalysis: the session defines it but the transcript
  handler no longer calls it. It is modelled as a pure test, and
  `Session.TriggerLatches` shows that once three transcripts have arrived it
  is always true.
- Session.AnalyzeAndCorrect: its outcome-by-outcome contract is stated on
  `Session.AfterLookup` and `Caches.CorrectionStep`, which it composes.

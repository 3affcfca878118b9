/**
 * One `TranscriptionSession` as a value: its configuration, registry,
 * context window, caches and counters, and the steps that change them.
 * Every clock reading is a parameter; provider answers are inputs.
 */
module Session {
  import opened Wrappers
  import opened Seqs
  import opened Lex
  import opened Text
  import opened Messages
  import opened Registry
  import opened ContextWindow
  import opened Trigger
  import opened Caches
  import opened Cascade

  // ---------------------------------------------------------------------
  // Configuration and the whitelists of the message handler
  // ---------------------------------------------------------------------

  const DefaultLanguage: string := "en"
  const DefaultSampleRate: int := 24000

  /**
   * `supportedLanguages.includes(code)`: the ISO 639-1 codes the transcription
   * language may take (the same list in both handlers).
   */
  predicate IsSupportedLanguage(code: string) {
    || code == "af" || code == "ar" || code == "az" || code == "be" || code == "bg" || code == "bs" || code == "ca" || code == "cs"
    || code == "cy" || code == "da" || code == "de" || code == "el" || code == "en" || code == "es" || code == "et" || code == "fa"
    || code == "fi" || code == "fr" || code == "gl" || code == "he" || code == "hi" || code == "hr" || code == "hu" || code == "hy"
    || code == "id" || code == "is" || code == "it" || code == "iw" || code == "ja" || code == "kk" || code == "kn" || code == "ko"
    || code == "lt" || code == "lv" || code == "mi" || code == "mk" || code == "mr" || code == "ms" || code == "ne" || code == "nl"
    || code == "no" || code == "pl" || code == "pt" || code == "ro" || code == "ru" || code == "sk" || code == "sl" || code == "sr"
    || code == "sv" || code == "sw" || code == "ta" || code == "th" || code == "tl" || code == "tr" || code == "uk" || code == "ur"
    || code == "vi" || code == "zh"
  }

  /** `supportedRates.includes(rate)`. */
  predicate IsSupportedSampleRate(rate: int) {
    rate == 16000 || rate == 24000 || rate == 44100 || rate == 48000
  }

  lemma DefaultsSupported()
    ensures IsSupportedLanguage(DefaultLanguage) && IsSupportedSampleRate(DefaultSampleRate)
  {
  }

  /** Every accepted code is two lower-case letters, as ISO 639-1 codes are. */
  lemma SupportedLanguagesAreCodes(code: string)
    requires IsSupportedLanguage(code)
    ensures |code| == 2 && 'a' <= code[0] <= 'z' && 'a' <= code[1] <= 'z'
  {
  }

  /** `supportedLanguages.includes(language) ? language : 'en'`; an absent field is not included. */
  function LanguageFallback(language: Option<string>): (code: string)
    ensures IsSupportedLanguage(code)
    ensures language.Some? && IsSupportedLanguage(language.value) ==> code == language.value
    ensures !(language.Some? && IsSupportedLanguage(language.value)) ==> code == DefaultLanguage
  {
    DefaultsSupported();
    if language.Some? && IsSupportedLanguage(language.value) then language.value else DefaultLanguage
  }

  /** `supportedRates.includes(rate) ? rate : 24000`. */
  function SampleRateFallback(rate: int): (r: int)
    ensures IsSupportedSampleRate(r)
    ensures IsSupportedSampleRate(rate) ==> r == rate
    ensures !IsSupportedSampleRate(rate) ==> r == DefaultSampleRate
  {
    if IsSupportedSampleRate(rate) then rate else DefaultSampleRate
  }

  /** The session's settings. `targetLanguage` is whatever the client last sent, absent included. */
  datatype Config = Config(currentLanguage: string, targetLanguage: Option<string>, sampleRate: int)

  ghost predicate ConfigValid(c: Config) {
    IsSupportedLanguage(c.currentLanguage) && IsSupportedSampleRate(c.sampleRate)
  }

  // ---------------------------------------------------------------------
  // The session
  // ---------------------------------------------------------------------

  datatype Session = Session(
    config: Config,
    window: Window,
    registry: Registry,
    chunkCounter: nat,
    correctionCache: CorrectionCache,
    keywordCache: KeywordCache,
    lastAnalysisTime: nat,
    cleanupTimerActive: bool)

  /** No id the counter has yet to issue is stored: `ChunkId(ms, c)` with `c` at or above the counter is never a key. */
  ghost predicate IdsIssued(s: Session) {
    forall ms: nat, c: nat :: c >= s.chunkCounter ==> ChunkId(ms, c) !in s.registry.chunks
  }

  ghost predicate Inv(s: Session) {
    Valid(s.registry) && IdsIssued(s) && ConfigValid(s.config)
  }

  /** The constructor, run at clock reading `now`; it also starts the cleanup timer. */
  function NewSession(now: nat): (s: Session)
    ensures Inv(s)
    ensures s.registry.chunks == map[] && s.chunkCounter == 0
    ensures s.config == Config(DefaultLanguage, Some("en"), DefaultSampleRate)
    ensures s.window.transcriptsSinceLastAnalysis == 0 && s.lastAnalysisTime == now && s.window.lastTranscriptTime == now
  {
    DefaultsSupported();
    Session(Config(DefaultLanguage, Some("en"), DefaultSampleRate), EmptyWindow(now), Empty(),
            0, map[], map[], now, true)
  }

  // ---------------------------------------------------------------------
  // Client messages
  // ---------------------------------------------------------------------

  /**
   * What handling one client message produced. `envKey` says whether the
   * process holds a provider key; a `start` with a key sets it.
   */
  datatype Handled = Handled(session: Session, envKey: bool, events: seq<OutEvent>, requests: seq<TranslateRequest>)

  /**
   * The `start` case: without a key from the client or the environment,
   * an error and nothing else; otherwise each present (truthy) field is
   * applied, the language and the sample rate through their whitelists.
   */
  function HandleStart(s: Session, envKey: bool, apiKey: Option<string>, language: Option<string>,
                       targetLanguage: Option<string>, sampleRate: Option<int>): (h: Handled)
    ensures !Truthy(apiKey) && !envKey ==> h == Handled(s, envKey, [Error("API key required")], [])
    ensures Truthy(apiKey) || envKey ==>
      && h.envKey && h.events == [] && h.requests == []
      && h.session.config.currentLanguage == (if Truthy(language) then LanguageFallback(language) else s.config.currentLanguage)
      && h.session.config.targetLanguage == (if Truthy(targetLanguage) then targetLanguage else s.config.targetLanguage)
      && h.session.config.sampleRate ==
           (if sampleRate.Some? && sampleRate.value != 0 then SampleRateFallback(sampleRate.value) else s.config.sampleRate)
      && h.session == s.(config := h.session.config)
  {
    if !Truthy(apiKey) && !envKey then Handled(s, envKey, [Error("API key required")], [])
    else
      var c := s.config;
      var c1 := if Truthy(language) then c.(currentLanguage := LanguageFallback(language)) else c;
      var c2 := if Truthy(targetLanguage) then c1.(targetLanguage := targetLanguage) else c1;
      var c3 := if sampleRate.Some? && sampleRate.value != 0 then c2.(sampleRate := SampleRateFallback(sampleRate.value)) else c2;
      Handled(s.(config := c3), true, [], [])
  }

  /**
   * The client's first `start` carries its language selection, which is
   * `'English'` until the user picks an option: the name is not a code, so
   * the session transcribes in the default language; the target language
   * is not sent and stays as it was.
   */
  lemma UnselectedClientStartsInDefaultLanguage(s: Session, envKey: bool, apiKey: Option<string>, sampleRate: Option<int>)
    requires Truthy(apiKey) || envKey
    ensures var h := HandleStart(s, envKey, apiKey, Some("English"), None, sampleRate);
      h.session.config.currentLanguage == DefaultLanguage && h.session.config.targetLanguage == s.config.targetLanguage
  {
  }

  /**
   * The message switch. `audio` is only forwarded to the provider and
   * `translate` asks for a translation with no chunk id; `stop` stops the
   * cleanup timer.
   */
  function HandleClientMessage(s: Session, envKey: bool, m: InMessage): (h: Handled)
    ensures m.UpdateLanguage? ==> h == Handled(s.(config := s.config.(currentLanguage := LanguageFallback(m.language))), envKey, [], [])
    ensures m.UpdateTargetLanguage? ==> h == Handled(s.(config := s.config.(targetLanguage := m.targetLanguage)), envKey, [], [])
    ensures m.TranslateText? ==> h == Handled(s, envKey, [], [TranslateRequest(m.text, m.toLanguage, None)])
    ensures m.Audio? ==> h == Handled(s, envKey, [], [])
    ensures m.Stop? ==> h == Handled(s.(cleanupTimerActive := false), envKey, [], [])
    ensures h.session.registry == s.registry && h.session.window == s.window
    ensures h.session.lastAnalysisTime == s.lastAnalysisTime && h.session.chunkCounter == s.chunkCounter
  {
    match m
    case Start(apiKey, language, targetLanguage, sampleRate) =>
      HandleStart(s, envKey, apiKey, language, targetLanguage, sampleRate)
    case Audio(_) => Handled(s, envKey, [], [])
    case TranslateText(text, toLanguage) => Handled(s, envKey, [], [TranslateRequest(text, toLanguage, None)])
    case UpdateLanguage(language) =>
      Handled(s.(config := s.config.(currentLanguage := LanguageFallback(language))), envKey, [], [])
    case UpdateTargetLanguage(targetLanguage) =>
      Handled(s.(config := s.config.(targetLanguage := targetLanguage)), envKey, [], [])
    case Stop => Handled(s.(cleanupTimerActive := false), envKey, [], [])
  }

  /**
   * Whatever the client sends, the stored language stays a supported code
   * and the sample rate a supported rate.
   */
  lemma {:induction false} MessagesKeepConfigValid(s: Session, envKey: bool, ms: seq<InMessage>)
    requires ConfigValid(s.config)
    decreases |ms|
    ensures ConfigValid(HandleAllClient(s, envKey, ms).session.config)
  {
    if ms != [] {
      var h := HandleClientMessage(s, envKey, ms[0]);
      MessagesKeepConfigValid(h.session, h.envKey, ms[1..]);
    }
  }

  /** Client messages in arrival order; the events and requests are dropped. */
  function HandleAllClient(s: Session, envKey: bool, ms: seq<InMessage>): (h: Handled)
    decreases |ms|
  {
    if ms == [] then Handled(s, envKey, [], [])
    else
      var h := HandleClientMessage(s, envKey, ms[0]);
      HandleAllClient(h.session, h.envKey, ms[1..])
  }

  // ---------------------------------------------------------------------
  // A finished transcription
  // ---------------------------------------------------------------------

  /**
   * The synchronous part of a `completed` transcription event at clock
   * reading `now`: a fresh id, a new registry entry (no eviction here), the
   * context window, and the `transcript` event for the client.
   */
  function ProcessTranscript(s: Session, transcript: string, now: nat): (out: (Session, OutEvent))
    requires Valid(s.registry)
    ensures var id := ChunkId(now, s.chunkCounter);
      && out.1 == Transcript(id, transcript, now)
      && out.0.chunkCounter == s.chunkCounter + 1
      && out.0.registry == Put(s.registry, id, Chunk(id, transcript, now, None, false))
      && out.0.window == AddToContext(s.window, transcript, now, id, now)
      && out.0 == s.(registry := out.0.registry, window := out.0.window, chunkCounter := out.0.chunkCounter)
    ensures Valid(out.0.registry)
  {
    var id := ChunkId(now, s.chunkCounter);
    var registry := Put(s.registry, id, Chunk(id, transcript, now, None, false));
    var window := AddToContext(s.window, transcript, now, id, now);
    (s.(registry := registry, window := window, chunkCounter := s.chunkCounter + 1), Transcript(id, transcript, now))
  }

  /**
   * The new id is never already in use, so a transcript always adds one
   * entry, at the end of the insertion order, and the invariant survives.
   * It also always survives the context cut and ends the context.
   */
  lemma ProcessTranscriptAddsFreshChunk(s: Session, transcript: string, now: nat)
    requires Inv(s)
    ensures var (s', _) := ProcessTranscript(s, transcript, now);
      var id := ChunkId(now, s.chunkCounter);
      && Inv(s')
      && id !in s.registry.chunks
      && s'.registry.order == s.registry.order + [id]
      && |s'.registry.chunks| == |s.registry.chunks| + 1
      && s'.window.buffer[|s'.window.buffer| - 1] == ContextEntry(id, transcript, now)
  {
    var id := ChunkId(now, s.chunkCounter);
    var (s', _) := ProcessTranscript(s, transcript, now);
    forall ms: nat, c: nat | c >= s'.chunkCounter
      ensures ChunkId(ms, c) !in s'.registry.chunks
    {
      if ChunkId(ms, c) == id {
        ChunkIdInjective(ms, c, now, s.chunkCounter);
      }
    }
  }

  /** Transcripts in arrival order, each with its clock reading. */
  function ProcessAll(s: Session, arrivals: seq<(string, nat)>): (s': Session)
    requires Valid(s.registry)
    decreases |arrivals|
    ensures Valid(s'.registry)
  {
    if arrivals == [] then s
    else ProcessAll(ProcessTranscript(s, arrivals[0].0, arrivals[0].1).0, arrivals[1..])
  }

  /**
   * `k` transcripts grow the registry by exactly `k` entries (nothing is
   * evicted between cleanup ticks) and the trigger counter by `k`; nothing
   * resets the counter or `lastAnalysisTime`.
   */
  lemma {:induction false} ProcessAllCounts(s: Session, arrivals: seq<(string, nat)>)
    requires Inv(s)
    decreases |arrivals|
    ensures var s' := ProcessAll(s, arrivals);
      && Inv(s')
      && |s'.registry.chunks| == |s.registry.chunks| + |arrivals|
      && s'.window.transcriptsSinceLastAnalysis == s.window.transcriptsSinceLastAnalysis + |arrivals|
      && s'.lastAnalysisTime == s.lastAnalysisTime
      && s'.chunkCounter == s.chunkCounter + |arrivals|
  {
    if arrivals != [] {
      ProcessTranscriptAddsFreshChunk(s, arrivals[0].0, arrivals[0].1);
      ProcessAllCounts(ProcessTranscript(s, arrivals[0].0, arrivals[0].1).0, arrivals[1..]);
    }
  }

  /**
   * Once a session has seen three transcripts, `shouldTriggerAnalysis` holds
   * at every later clock reading: the counter it tests only ever grows.
   */
  lemma TriggerLatches(s: Session, arrivals: seq<(string, nat)>, now: int)
    requires Inv(s) && |arrivals| >= TranscriptThreshold
    ensures var s' := ProcessAll(s, arrivals);
      ShouldTriggerAnalysis(now, s'.lastAnalysisTime, s'.window.lastTranscriptTime, s'.window.transcriptsSinceLastAnalysis)
  {
    ProcessAllCounts(s, arrivals);
  }

  // ---------------------------------------------------------------------
  // Correction pass, automatic translation, cleanup tick
  // ---------------------------------------------------------------------

  /** What a background step produced for the client and the translator. */
  datatype Stepped = Stepped(session: Session, events: seq<OutEvent>, requests: seq<TranslateRequest>)

  /**
   * `analyzeAndCorrect()` at clock reading `now`. On a cache miss the keyword
   * extraction for the 200-character recent context is started as well; its
   * answer only fills the keyword cache. `reply`/`doneAt` and
   * `keywordReply`/`keywordDoneAt` are the two provider calls' outcomes.
   */
  function AnalyzeAndCorrect(s: Session, now: nat, reply: Option<AnalysisResult>, doneAt: nat,
                             keywordReply: Option<string>, keywordDoneAt: nat): (st: Stepped)
    requires Valid(s.registry)
    ensures Valid(st.session.registry) && st.session.registry.order == s.registry.order
    ensures st.session.registry.chunks.Keys == s.registry.chunks.Keys
    ensures st.session == s.(registry := st.session.registry, correctionCache := st.session.correctionCache,
                             keywordCache := st.session.keywordCache)
    ensures forall k :: k in s.registry.chunks ==> st.session.registry.chunks[k].text == s.registry.chunks[k].text
    ensures |s.window.currentContext| < MinContextLength ==> st == Stepped(s, [], [])
  {
    AfterLookup(s, CorrectionStep(s.correctionCache, s.window.currentContext, now, reply, doneAt),
                now, keywordReply, keywordDoneAt)
  }

  /**
   * The rest of `analyzeAndCorrect` once the correction cache has been
   * consulted: the new cache, the keyword extraction on a miss, and
   * `sendCorrections` for a hit or a useful answer.
   */
  function AfterLookup(s: Session, step: (CorrectionCache, Outcome), now: nat,
                       keywordReply: Option<string>, keywordDoneAt: nat): (st: Stepped)
    requires Valid(s.registry)
    ensures Valid(st.session.registry) && st.session.registry.order == s.registry.order
    ensures st.session.registry.chunks.Keys == s.registry.chunks.Keys
    ensures st.session == s.(registry := st.session.registry, correctionCache := step.0,
                             keywordCache := st.session.keywordCache)
    ensures forall k :: k in s.registry.chunks ==> st.session.registry.chunks[k].text == s.registry.chunks[k].text
    ensures Sends(step.1) ==>
      var sent := SendCorrections(s.registry, s.config.targetLanguage, step.1.result);
      && st.events == [Corrections(step.1.result.topic, CorrectionsOf(step.1.result))]
      && st.session.registry == sent.0 && st.requests == sent.2
    ensures !Sends(step.1) ==> st.events == [] && st.requests == [] && st.session.registry == s.registry
    ensures !ConsultedProvider(step.1) ==> st.session.keywordCache == s.keywordCache
  {
    var keywordCache := KeywordsOnMiss(s, step.1, now, keywordReply, keywordDoneAt);
    if Sends(step.1) then
      var out := SendCorrections(s.registry, s.config.targetLanguage, step.1.result);
      Stepped(s.(registry := out.0, correctionCache := step.0, keywordCache := keywordCache), out.1, out.2)
    else Stepped(s.(correctionCache := step.0, keywordCache := keywordCache), [], [])
  }

  /** On a cache miss, the keyword extraction for the analysed 200-character slice. */
  function KeywordsOnMiss(s: Session, outcome: Outcome, now: nat, keywordReply: Option<string>,
                          keywordDoneAt: nat): (cache: KeywordCache)
    ensures !ConsultedProvider(outcome) ==> cache == s.keywordCache
    ensures ConsultedProvider(outcome) && keywordReply.Some? ==> Tail(s.window.currentContext, KeywordKeyChars) in cache
    ensures forall k :: k != Tail(s.window.currentContext, KeywordKeyChars) ==>
      (k in cache <==> k in s.keywordCache) && (k in cache ==> cache[k] == s.keywordCache[k])
  {
    KeywordKeyOfRecentContext(s.window.currentContext);
    if ConsultedProvider(outcome) then
      KeywordStep(s.keywordCache, Tail(s.window.currentContext, RecentChars), now, keywordReply, keywordDoneAt).0
    else s.keywordCache
  }

  /** `autoTranslate(chunkId)` on the session's registry and target language. */
  function AutoTranslateStep(s: Session, id: string): (st: Stepped)
    requires Valid(s.registry)
    ensures st.events == []
    ensures st.session == s.(registry := st.session.registry)
    ensures (st.session.registry, st.requests) == AutoTranslate(s.registry, id, s.config.targetLanguage)
  {
    var (registry, requests) := AutoTranslate(s.registry, id, s.config.targetLanguage);
    Stepped(s.(registry := registry), [], requests)
  }

  /** One tick of the 30-second cleanup timer; after `stop` the timer no longer fires. */
  function CleanupTick(s: Session): (s': Session)
    requires Valid(s.registry)
    ensures !s.cleanupTimerActive ==> s' == s
    ensures s.cleanupTimerActive ==> s' == s.(registry := Cleanup(s.registry))
    ensures s.cleanupTimerActive ==> |s'.registry.chunks| <= MaxChunks
  {
    if s.cleanupTimerActive then s.(registry := Cleanup(s.registry)) else s
  }

  /** A step that only drops or rewrites entries, and leaves the counter and the settings alone, keeps the invariant. */
  lemma SameKeysKeepInv(s: Session, s': Session)
    requires Inv(s) && Valid(s'.registry)
    requires s'.registry.chunks.Keys <= s.registry.chunks.Keys
    requires s'.chunkCounter == s.chunkCounter && s'.config == s.config
    ensures Inv(s')
  {
  }

  /** The correction pass issues no id, so the session invariant survives it. */
  lemma AnalysisKeepsInv(s: Session, now: nat, reply: Option<AnalysisResult>, doneAt: nat,
                         keywordReply: Option<string>, keywordDoneAt: nat)
    requires Inv(s)
    ensures Inv(AnalyzeAndCorrect(s, now, reply, doneAt, keywordReply, keywordDoneAt).session)
  {
    SameKeysKeepInv(s, AnalyzeAndCorrect(s, now, reply, doneAt, keywordReply, keywordDoneAt).session);
  }

  /** Nor does an automatic translation. */
  lemma AutoTranslateKeepsInv(s: Session, id: string)
    requires Inv(s)
    ensures Inv(AutoTranslateStep(s, id).session)
  {
    SameKeysKeepInv(s, AutoTranslateStep(s, id).session);
  }

  /** Nor does a cleanup tick. */
  lemma CleanupKeepsInv(s: Session)
    requires Inv(s)
    ensures Inv(CleanupTick(s))
  {
    SameKeysKeepInv(s, CleanupTick(s));
  }

  // ---------------------------------------------------------------------
  // The whole transcript handler
  // ---------------------------------------------------------------------

  /**
   * A `completed` transcription event: the synchronous bookkeeping, then the
   * two tasks of its `Promise.all`, the correction pass followed by the
   * automatic translation of the new chunk. The `transcript` event goes out
   * first; the requests of the pass come before the new chunk's own.
   */
  function OnTranscript(s: Session, transcript: string, now: nat, reply: Option<AnalysisResult>, doneAt: nat,
                        keywordReply: Option<string>, keywordDoneAt: nat): (st: Stepped)
    requires Valid(s.registry)
    ensures st.session.chunkCounter == s.chunkCounter + 1 && st.session.config == s.config
    ensures |st.events| >= 1 && st.events[0] == Transcript(ChunkId(now, s.chunkCounter), transcript, now)
  {
    var (s1, ev) := ProcessTranscript(s, transcript, now);
    var a := AnalyzeAndCorrect(s1, now, reply, doneAt, keywordReply, keywordDoneAt);
    var t := AutoTranslateStep(a.session, ChunkId(now, s.chunkCounter));
    Stepped(t.session, [ev] + a.events, a.requests + t.requests)
  }

  /** The whole handler keeps the session invariant. */
  lemma OnTranscriptKeepsInv(s: Session, transcript: string, now: nat, reply: Option<AnalysisResult>, doneAt: nat,
                             keywordReply: Option<string>, keywordDoneAt: nat)
    requires Inv(s)
    ensures Inv(OnTranscript(s, transcript, now, reply, doneAt, keywordReply, keywordDoneAt).session)
  {
    ProcessTranscriptAddsFreshChunk(s, transcript, now);
    var s1 := ProcessTranscript(s, transcript, now).0;
    AnalysisKeepsInv(s1, now, reply, doneAt, keywordReply, keywordDoneAt);
    var a := AnalyzeAndCorrect(s1, now, reply, doneAt, keywordReply, keywordDoneAt);
    AutoTranslateKeepsInv(a.session, ChunkId(now, s.chunkCounter));
  }

  /**
   * A transcript of five or more characters, with a real target language, is
   * translated as heard: the last request is the new chunk's own
   * uncorrected text, whatever corrections the pass applied. The new chunk is
   * then marked `translationSent`.
   */
  lemma OnTranscriptTranslatesNewChunk(s: Session, transcript: string, now: nat, reply: Option<AnalysisResult>,
                                       doneAt: nat, keywordReply: Option<string>, keywordDoneAt: nat)
    requires Inv(s)
    requires |transcript| >= MinTranslateLength && Retranslates(s.config.targetLanguage)
    ensures var st := OnTranscript(s, transcript, now, reply, doneAt, keywordReply, keywordDoneAt);
      var id := ChunkId(now, s.chunkCounter);
      && |st.requests| >= 1
      && st.requests[|st.requests| - 1] == TranslateRequest(transcript, s.config.targetLanguage.value, Some(id))
      && id in st.session.registry.chunks && st.session.registry.chunks[id].translationSent
  {
    var id := ChunkId(now, s.chunkCounter);
    var s1 := ProcessTranscript(s, transcript, now).0;
    assert id in s1.registry.chunks && s1.registry.chunks[id].text == transcript;
    var a := AnalyzeAndCorrect(s1, now, reply, doneAt, keywordReply, keywordDoneAt);
    assert id in a.session.registry.chunks && a.session.registry.chunks[id].text == transcript;
    var t := AutoTranslateStep(a.session, id);
    assert t.requests == [TranslateRequest(transcript, s.config.targetLanguage.value, Some(id))];
  }

  /** A transcript under five characters is never translated on its own. */
  lemma OnTranscriptSkipsShortText(s: Session, transcript: string, now: nat, reply: Option<AnalysisResult>,
                                   doneAt: nat, keywordReply: Option<string>, keywordDoneAt: nat)
    requires Inv(s)
    requires |transcript| < MinTranslateLength
    ensures var st := OnTranscript(s, transcript, now, reply, doneAt, keywordReply, keywordDoneAt);
      var id := ChunkId(now, s.chunkCounter);
      && id in st.session.registry.chunks && !st.session.registry.chunks[id].translationSent
      && st.requests == AnalyzeAndCorrect(ProcessTranscript(s, transcript, now).0, now, reply, doneAt,
                                          keywordReply, keywordDoneAt).requests
  {
    var id := ChunkId(now, s.chunkCounter);
    var s1 := ProcessTranscript(s, transcript, now).0;
    assert id in s1.registry.chunks && s1.registry.chunks[id] == Chunk(id, transcript, now, None, false);
    var a := AnalyzeAndCorrect(s1, now, reply, doneAt, keywordReply, keywordDoneAt);
    assert id in a.session.registry.chunks && a.session.registry.chunks[id].text == transcript;
    assert a.session.registry.chunks[id].translationSent == false;
    var t := AutoTranslateStep(a.session, id);
    assert t.session.registry == a.session.registry && t.requests == [];
    assert a.requests + t.requests == a.requests;
  }
}

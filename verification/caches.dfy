/**
 * The two time-to-live caches of a session: corrections keyed by the last
 * twenty words of the context (`analyzeAndCorrect`) and extracted keywords
 * keyed by the last hundred characters (`buildDynamicPrompt`).
 *
 * Provider calls are inputs: `None` stands for any failure (network error,
 * a reply that does not parse, a missing message body), `Some` for the
 * parsed reply. `now` is the clock reading at entry, `doneAt` the reading
 * after the provider answered, when the entry is stored.
 */
module Caches {
  import opened Wrappers
  import opened Seqs
  import opened Text
  import opened Messages

  /** Contexts shorter than this are not analysed. */
  const MinContextLength: nat := 5
  /** Words of context that make up the correction cache key. */
  const KeyWords: nat := 20
  /** A correction entry is served while younger than this. */
  const CorrectionTtlMs: nat := 30000
  /** Characters of context sent for analysis (`currentContext.slice(-200)`). */
  const RecentChars: nat := 200
  /** Characters of the analysed context that make up the keyword cache key. */
  const KeywordKeyChars: nat := 100
  /** `KEYWORD_CACHE_TTL`. */
  const KeywordTtlMs: nat := 60000

  datatype CacheEntry = CacheEntry(data: AnalysisResult, timestamp: nat)
  datatype KeywordEntry = KeywordEntry(keywords: string, timestamp: nat)

  type CorrectionCache = map<string, CacheEntry>
  type KeywordCache = map<string, KeywordEntry>

  // ---------------------------------------------------------------------
  // Keys
  // ---------------------------------------------------------------------

  /** `context.split(' ').slice(-20).join(' ')`. */
  function ContextKey(context: string): (key: string)
    ensures Split(key, ' ') == TakeLast(Split(context, ' '), KeyWords)
  {
    var words := Split(context, ' ');
    var last := TakeLast(words, KeyWords);
    assert forall i :: 0 <= i < |last| ==> last[i] == words[|words| - |last| + i];
    SplitJoin(last, ' ');
    Join(last, " ")
  }

  /** `context.slice(-n)` for `n > 0`. */
  function Tail(context: string, n: nat): string {
    TakeLast(context, n)
  }

  /**
   * Two contexts that end in the same twenty words share a correction entry,
   * whatever text precedes them: older text never changes the key.
   */
  lemma ContextKeyIgnoresOlderText(older: string, recent: string)
    requires |Split(recent, ' ')| >= KeyWords
    ensures ContextKey(older + " " + recent) == ContextKey(recent)
  {
    assert older + " " + recent == older + [' '] + recent;
    SplitConcat(older, recent, ' ');
    TakeLastOfLongerTail(Split(older, ' '), Split(recent, ' '), KeyWords);
  }

  /**
   * The keyword key is taken from the 200-character slice that is analysed,
   * yet it is the same as the last hundred characters of the whole context.
   */
  lemma KeywordKeyOfRecentContext(context: string)
    ensures Tail(Tail(context, RecentChars), KeywordKeyChars) == Tail(context, KeywordKeyChars)
  {
    TakeLastOfTakeLast(context, RecentChars, KeywordKeyChars);
  }

  // ---------------------------------------------------------------------
  // The correction cache
  // ---------------------------------------------------------------------

  /** What one `analyzeAndCorrect` call did. */
  datatype Outcome =
    | Skipped                         // context shorter than five characters
    | CacheHit(result: AnalysisResult)   // served from the cache, provider not called
    | Analysed(result: AnalysisResult)   // provider found corrections; cached and sent
    | NothingFound                    // provider answered with no corrections
    | Failed                          // provider call or parse failed

  /** The outcomes that end in `sendCorrections`. */
  predicate Sends(o: Outcome) {
    o.CacheHit? || o.Analysed?
  }

  /** The outcomes that called the provider. */
  predicate ConsultedProvider(o: Outcome) {
    o.Analysed? || o.NothingFound? || o.Failed?
  }

  predicate FreshCorrection(e: CacheEntry, now: nat) {
    now - e.timestamp < CorrectionTtlMs
  }

  /** Every cached result carries a non-empty corrections list. */
  ghost predicate OnlyUsefulEntries(cache: CorrectionCache) {
    forall k :: k in cache ==> HasCorrections(cache[k].data)
  }

  /**
   * One `analyzeAndCorrect` pass over the cache, for the session's current
   * context. `reply` is the provider's parsed answer, consulted only on a miss.
   */
  function CorrectionStep(cache: CorrectionCache, context: string, now: nat,
                          reply: Option<AnalysisResult>, doneAt: nat): (out: (CorrectionCache, Outcome))
    ensures |context| < MinContextLength ==> out == (cache, Skipped)
    ensures out.1.CacheHit? <==>
      |context| >= MinContextLength && ContextKey(context) in cache
      && FreshCorrection(cache[ContextKey(context)], now)
    ensures out.1.CacheHit? ==> out.1.result == cache[ContextKey(context)].data
    ensures ConsultedProvider(out.1) <==> !out.1.Skipped? && !out.1.CacheHit?
    ensures ConsultedProvider(out.1) ==> (out.1.Failed? <==> reply.None?)
    ensures out.1.Analysed? <==> ConsultedProvider(out.1) && reply.Some? && HasCorrections(reply.value)
    ensures out.1.Analysed? ==>
      out.1.result == reply.value && out.0 == cache[ContextKey(context) := CacheEntry(reply.value, doneAt)]
    ensures !out.1.Analysed? ==> out.0 == cache
  {
    if |context| < MinContextLength then (cache, Skipped) else Lookup(cache, ContextKey(context), now, reply, doneAt)
  }

  /** The cache lookup of `CorrectionStep` for a context long enough to analyse, by key. */
  function Lookup(cache: CorrectionCache, key: string, now: nat, reply: Option<AnalysisResult>, doneAt: nat)
    : (out: (CorrectionCache, Outcome))
    ensures out.1.CacheHit? <==> key in cache && FreshCorrection(cache[key], now)
    ensures out.1.CacheHit? ==> out.1.result == cache[key].data
    ensures !out.1.Skipped?
    ensures ConsultedProvider(out.1) <==> !out.1.CacheHit?
    ensures ConsultedProvider(out.1) ==> (out.1.Failed? <==> reply.None?)
    ensures out.1.Analysed? <==> ConsultedProvider(out.1) && reply.Some? && HasCorrections(reply.value)
    ensures out.1.Analysed? ==> out.1.result == reply.value && out.0 == cache[key := CacheEntry(reply.value, doneAt)]
    ensures !out.1.Analysed? ==> out.0 == cache
  {
    if key in cache && FreshCorrection(cache[key], now) then (cache, CacheHit(cache[key].data))
    else match reply
      case None => (cache, Failed)
      case Some(result) =>
        if HasCorrections(result) then (cache[key := CacheEntry(result, doneAt)], Analysed(result))
        else (cache, NothingFound)
  }

  /** The cache never stores an answer without corrections, so every hit sends some. */
  lemma CorrectionStepKeepsUseful(cache: CorrectionCache, context: string, now: nat,
                                  reply: Option<AnalysisResult>, doneAt: nat)
    requires OnlyUsefulEntries(cache)
    ensures var (cache', o) := CorrectionStep(cache, context, now, reply, doneAt);
      OnlyUsefulEntries(cache') && (Sends(o) ==> HasCorrections(o.result))
  {
  }

  /**
   * A second pass over the same context within thirty seconds of a stored
   * answer is served from the cache with that answer, whatever the provider
   * would now say.
   */
  lemma RepeatWithinTtlIsHit(cache: CorrectionCache, context: string, now: nat,
                             reply: Option<AnalysisResult>, doneAt: nat,
                             later: nat, reply2: Option<AnalysisResult>, doneAt2: nat)
    requires CorrectionStep(cache, context, now, reply, doneAt).1.Analysed?
    requires doneAt <= later < doneAt + CorrectionTtlMs
    ensures var cache' := CorrectionStep(cache, context, now, reply, doneAt).0;
      CorrectionStep(cache', context, later, reply2, doneAt2) == (cache', CacheHit(reply.value))
  {
  }

  /** Once an entry is thirty seconds old, the provider is asked again. */
  lemma StaleEntryConsultsProvider(cache: CorrectionCache, context: string, now: nat,
                                   reply: Option<AnalysisResult>, doneAt: nat)
    requires |context| >= MinContextLength
    requires ContextKey(context) in cache
    requires now >= cache[ContextKey(context)].timestamp + CorrectionTtlMs
    ensures ConsultedProvider(CorrectionStep(cache, context, now, reply, doneAt).1)
  {
  }

  // ---------------------------------------------------------------------
  // The keyword cache
  // ---------------------------------------------------------------------

  /** What one keyword lookup did. */
  datatype KeywordOutcome =
    | KeywordHit(keywords: string)     // served from the cache
    | Extracted(keywords: string)      // provider answered; trimmed and cached
    | ExtractionFailed                 // provider failed; the fallback prompt is used

  predicate FreshKeywords(e: KeywordEntry, now: nat) {
    now - e.timestamp < KeywordTtlMs
  }

  /**
   * The keyword half of `buildDynamicPrompt(context)`; `reply` is the
   * untrimmed message text of the provider's answer.
   */
  function KeywordStep(cache: KeywordCache, context: string, now: nat,
                       reply: Option<string>, doneAt: nat): (out: (KeywordCache, KeywordOutcome))
    ensures out.1.KeywordHit? <==>
      Tail(context, KeywordKeyChars) in cache && FreshKeywords(cache[Tail(context, KeywordKeyChars)], now)
    ensures out.1.KeywordHit? ==> out.1.keywords == cache[Tail(context, KeywordKeyChars)].keywords
    ensures out.1.Extracted? <==> !out.1.KeywordHit? && reply.Some?
    ensures out.1.Extracted? ==>
      && out.1.keywords == Trim(reply.value)
      && out.0 == cache[Tail(context, KeywordKeyChars) := KeywordEntry(Trim(reply.value), doneAt)]
    ensures !out.1.Extracted? ==> out.0 == cache
  {
    var key := Tail(context, KeywordKeyChars);
    if key in cache && FreshKeywords(cache[key], now) then (cache, KeywordHit(cache[key].keywords))
    else match reply
      case None => (cache, ExtractionFailed)
      case Some(text) =>
        var keywords := Trim(text);
        (cache[key := KeywordEntry(keywords, doneAt)], Extracted(keywords))
  }

  /** Stored keywords never begin or end with whitespace. */
  lemma KeywordStepStoresTrimmed(cache: KeywordCache, context: string, now: nat,
                                 reply: Option<string>, doneAt: nat)
    requires forall k :: k in cache && cache[k].keywords != [] ==>
      !IsWhitespace(cache[k].keywords[0]) && !IsWhitespace(cache[k].keywords[|cache[k].keywords| - 1])
    ensures var cache' := KeywordStep(cache, context, now, reply, doneAt).0;
      forall k :: k in cache' && cache'[k].keywords != [] ==>
        !IsWhitespace(cache'[k].keywords[0]) && !IsWhitespace(cache'[k].keywords[|cache'[k].keywords| - 1])
  {
  }
}

/** The messages exchanged between browser client and server, and the provider's analysis reply. */
module Messages {
  import opened Wrappers

  /** One suggested fix, `{original, corrected, confidence}`. */
  datatype Correction = Correction(original: string, corrected: string, confidence: real)

  /**
   * A parsed analysis reply. Both fields may be missing from the provider's
   * JSON, so both are optional.
   */
  datatype AnalysisResult = AnalysisResult(topic: Option<string>, corrections: Option<seq<Correction>>)

  /** `result.corrections`, reading a missing list as empty. */
  function CorrectionsOf(r: AnalysisResult): seq<Correction> {
    r.corrections.GetOr([])
  }

  /** `result.corrections && result.corrections.length > 0`. */
  predicate HasCorrections(r: AnalysisResult) {
    |CorrectionsOf(r)| > 0
  }

  /** Events the server sends to the browser. */
  datatype OutEvent =
    | Status(message: string)
    | Transcript(id: string, text: string, timestamp: nat)      // always `corrected: false`
    | Corrections(topic: Option<string>, corrections: seq<Correction>)
    | TranslationStart(language: string, forChunkId: Option<string>)
    | TranslationPartial(text: string, language: string, forChunkId: Option<string>)
    | TranslationComplete(language: string, forChunkId: Option<string>)
    | Error(message: string)

  /** Messages the browser sends to the server; absent fields are `None`. */
  datatype InMessage =
    | Start(apiKey: Option<string>, language: Option<string>, targetLanguage: Option<string>, sampleRate: Option<int>)
    | Audio(audio: string)
    | TranslateText(text: string, toLanguage: string)
    | UpdateLanguage(language: Option<string>)
    | UpdateTargetLanguage(targetLanguage: Option<string>)
    | Stop

  /** JavaScript truthiness of an optional string: present and non-empty. */
  predicate Truthy(s: Option<string>) {
    s.Some? && s.value != ""
  }
}

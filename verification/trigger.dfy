/**
 * `shouldTriggerAnalysis`: the three-way test for starting a correction pass.
 * The session defines it but never calls it; see `Session.TriggerLatches`.
 */
module Trigger {
  /** `minAnalysisInterval`. */
  const MinAnalysisIntervalMs: nat := 2000
  /** `transcriptThreshold`. */
  const TranscriptThreshold: nat := 3
  /** Silence after which a pause in speech counts as a trigger. */
  const SilenceMs: nat := 2000

  predicate IntervalElapsed(now: int, lastAnalysisTime: int, transcripts: nat) {
    now - lastAnalysisTime > MinAnalysisIntervalMs && transcripts > 0
  }

  predicate ThresholdReached(transcripts: nat) {
    transcripts >= TranscriptThreshold
  }

  predicate SpeechPaused(now: int, lastTranscriptTime: int) {
    now - lastTranscriptTime > SilenceMs
  }

  /** A pure function of the clock reading, the two timestamps and the counter. */
  function ShouldTriggerAnalysis(now: int, lastAnalysisTime: int, lastTranscriptTime: int, transcripts: nat): (b: bool)
    ensures b <==>
      || (now - lastAnalysisTime > 2000 && transcripts > 0)
      || transcripts >= 3
      || now - lastTranscriptTime > 2000
  {
    IntervalElapsed(now, lastAnalysisTime, transcripts)
      || ThresholdReached(transcripts)
      || SpeechPaused(now, lastTranscriptTime)
  }

  /** Waiting longer never turns a trigger off. */
  lemma TriggerMonotoneInTime(now: int, later: int, lastAnalysisTime: int, lastTranscriptTime: int, transcripts: nat)
    requires now <= later
    requires ShouldTriggerAnalysis(now, lastAnalysisTime, lastTranscriptTime, transcripts)
    ensures ShouldTriggerAnalysis(later, lastAnalysisTime, lastTranscriptTime, transcripts)
  {
  }
}

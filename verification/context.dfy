/**
 * The rolling context window (`contextBuffer`/`currentContext`): the
 * transcripts of the last 60 seconds and their space-joined text.
 */
module ContextWindow {
  import opened Seqs
  import opened Text

  /** Entries older than this many milliseconds are dropped. */
  const WindowMs: nat := 60000

  datatype ContextEntry = ContextEntry(id: string, text: string, timestamp: nat)

  /**
   * The window fields of a session. The two counters feed the analysis
   * trigger; nothing but `AddToContext` ever changes them.
   */
  datatype Window = Window(
    buffer: seq<ContextEntry>,
    currentContext: string,
    transcriptsSinceLastAnalysis: nat,
    lastTranscriptTime: nat)

  /** The state a new session starts in, `now` being its construction time. */
  function EmptyWindow(now: nat): (w: Window)
    ensures w.buffer == [] && w.currentContext == "" && w.transcriptsSinceLastAnalysis == 0
  {
    Window([], "", 0, now)
  }

  /** `buffer.map(item => item.text)`. */
  function Texts(b: seq<ContextEntry>): (r: seq<string>)
    ensures |r| == |b|
    ensures forall i :: 0 <= i < |b| ==> r[i] == b[i].text
  {
    seq(|b|, i requires 0 <= i < |b| => b[i].text)
  }

  /** The filter `item => item.timestamp > cutoff`; `cutoff` may be negative. */
  function Recent(cutoff: int): ContextEntry -> bool {
    (e: ContextEntry) => e.timestamp > cutoff
  }

  /**
   * `addToContext(text, timestamp, id)` at clock reading `now`: append, count,
   * drop everything at or before `now - 60000`, and rebuild the joined text.
   */
  function AddToContext(w: Window, text: string, timestamp: nat, id: string, now: nat): (w': Window)
    ensures forall i :: 0 <= i < |w'.buffer| ==> w'.buffer[i].timestamp > now - WindowMs
    ensures IsSubsequence(w'.buffer, w.buffer + [ContextEntry(id, text, timestamp)])
    ensures forall e :: e in w'.buffer <==>
      (e in w.buffer || e == ContextEntry(id, text, timestamp)) && e.timestamp > now - WindowMs
    ensures timestamp > now - WindowMs ==>
      |w'.buffer| > 0 && w'.buffer[|w'.buffer| - 1] == ContextEntry(id, text, timestamp)
    ensures w'.currentContext == Join(Texts(w'.buffer), " ")
    ensures w'.transcriptsSinceLastAnalysis == w.transcriptsSinceLastAnalysis + 1
    ensures w'.lastTranscriptTime == timestamp
  {
    var entry := ContextEntry(id, text, timestamp);
    var keep := Recent(now - WindowMs);
    var buffer := Filter(w.buffer + [entry], keep);
    FilterIsSubsequence(w.buffer + [entry], keep);
    FilterSnoc(w.buffer, entry, keep);
    Window(buffer, Join(Texts(buffer), " "), w.transcriptsSinceLastAnalysis + 1, timestamp)
  }

  /** Joining one more part adds the separator and the part at the end. */
  lemma {:induction false} JoinSnoc(parts: seq<string>, last: string, sep: string)
    ensures Join(parts + [last], sep) == if parts == [] then last else Join(parts, sep) + sep + last
  {
    if |parts| > 1 {
      assert (parts + [last])[1..] == parts[1..] + [last];
      JoinSnoc(parts[1..], last, sep);
    }
  }

  /**
   * The freshest transcript always ends the context: when the new entry
   * survives the cut, `currentContext` is the previous survivors' text,
   * a space, then the new text (or the new text alone).
   */
  lemma ContextEndsWithNewText(w: Window, text: string, timestamp: nat, id: string, now: nat)
    requires timestamp > now - WindowMs
    ensures var w' := AddToContext(w, text, timestamp, id, now);
      var before := Join(Texts(w'.buffer[..|w'.buffer| - 1]), " ");
      w'.currentContext == if |w'.buffer| == 1 then text else before + " " + text
  {
    var w' := AddToContext(w, text, timestamp, id, now);
    var b := w'.buffer;
    assert b == b[..|b| - 1] + [b[|b| - 1]];
    assert Texts(b) == Texts(b[..|b| - 1]) + [text];
    JoinSnoc(Texts(b[..|b| - 1]), text, " ");
  }

  /**
   * Entries arrive with non-decreasing timestamps in a live session, so the
   * surviving buffer is a suffix of the old buffer plus the new entry:
   * the cut only ever removes from the front.
   */
  lemma {:induction false} RecentOfSortedIsSuffix(s: seq<ContextEntry>, cutoff: int)
    requires forall i, j :: 0 <= i < j < |s| ==> s[i].timestamp <= s[j].timestamp
    ensures exists k :: 0 <= k <= |s| && Filter(s, Recent(cutoff)) == s[k..]
  {
    if s == [] {
      assert Filter(s, Recent(cutoff)) == s[0..];
    } else if s[0].timestamp > cutoff {
      FilterAllKept(s, Recent(cutoff));
      assert Filter(s, Recent(cutoff)) == s[0..];
    } else {
      RecentOfSortedIsSuffix(s[1..], cutoff);
      var k :| 0 <= k <= |s[1..]| && Filter(s[1..], Recent(cutoff)) == s[1..][k..];
      assert s[1..][k..] == s[k + 1..];
    }
  }
}

/**
 * The streaming loop of `translate(text, targetLanguage, chunkId)`: provider
 * deltas are buffered and flushed as `partial: true` events every 50 ms or
 * once the buffer passes 50 characters, between one `translation_start` and
 * one `partial: false` completion.
 */
module Translation {
  import opened Wrappers
  import opened Seqs
  import opened Messages

  /** `BATCH_INTERVAL`. */
  const BatchIntervalMs: nat := 50
  /** A buffer longer than this is flushed at once. */
  const BatchMaxChars: nat := 50

  /**
   * One streamed chunk: `content` is `choices[0]?.delta?.content || ''`,
   * `at` the clock reading when it was processed.
   */
  datatype Delta = Delta(at: nat, content: string)

  /**
   * The provider's stream. `completed` is false when iteration threw after
   * the listed deltas; the error is then swallowed.
   */
  datatype ProviderStream = ProviderStream(deltas: seq<Delta>, completed: bool)

  datatype Batcher = Batcher(buffer: string, lastSendTime: nat)

  /** The text the provider produced, in order. */
  function Contents(deltas: seq<Delta>): (r: string)
  {
    if deltas == [] then [] else deltas[0].content + Contents(deltas[1..])
  }

  /** The flush test, applied after the delta has been appended. */
  predicate Flushes(b: Batcher, d: Delta) {
    d.at - b.lastSendTime >= BatchIntervalMs || |b.buffer + d.content| > BatchMaxChars
  }

  /** One loop iteration: an empty delta is skipped; otherwise append and maybe flush. */
  function Step(b: Batcher, d: Delta): (out: (Batcher, Option<string>))
    ensures out.1.Some? ==> out.1.value != "" && out.1.value == b.buffer + d.content
    ensures out.1.Some? <==> d.content != "" && Flushes(b, d)
    ensures out.1.Some? ==> out.0 == Batcher("", d.at)
    ensures out.1.None? ==> out.0 == Batcher(b.buffer + d.content, b.lastSendTime)
  {
    if d.content == "" then (b, None)
    else
      var buffer := b.buffer + d.content;
      if Flushes(b, d) then (Batcher("", d.at), Some(buffer))
      else (Batcher(buffer, b.lastSendTime), None)
  }

  /**
   * The whole loop: the flushed pieces, in order, then the leftover buffer,
   * spell out exactly the starting buffer and the stream's text; no piece is
   * empty; and the buffer never holds more than fifty characters after a step.
   */
  function Run(b: Batcher, deltas: seq<Delta>): (out: (Batcher, seq<string>))
    decreases |deltas|
    ensures Concat(out.1) + out.0.buffer == b.buffer + Contents(deltas)
    ensures forall i :: 0 <= i < |out.1| ==> out.1[i] != ""
    ensures |b.buffer| <= BatchMaxChars ==> |out.0.buffer| <= BatchMaxChars
  {
    if deltas == [] then (b, [])
    else
      var step := Step(b, deltas[0]);
      var rest := Run(step.0, deltas[1..]);
      assert b.buffer + Contents(deltas) == (b.buffer + deltas[0].content) + Contents(deltas[1..]);
      if step.1.None? then rest
      else
        ConcatCons(step.1.value, rest.1);
        assert Concat([step.1.value] + rest.1) + rest.0.buffer == step.1.value + (Concat(rest.1) + rest.0.buffer);
        (rest.0, [step.1.value] + rest.1)
  }

  function Partial(text: string, language: string, chunkId: Option<string>): OutEvent {
    TranslationPartial(text, language, chunkId)
  }

  function Partials(pieces: seq<string>, language: string, chunkId: Option<string>): (evs: seq<OutEvent>)
    ensures |evs| == |pieces|
    ensures forall i :: 0 <= i < |pieces| ==> evs[i] == TranslationPartial(pieces[i], language, chunkId)
  {
    seq(|pieces|, i requires 0 <= i < |pieces| => TranslationPartial(pieces[i], language, chunkId))
  }

  /** The concatenated text of the partial events, as the client accumulates it. */
  function PartialText(evs: seq<OutEvent>): string {
    if evs == [] then []
    else (if evs[0].TranslationPartial? then evs[0].text else []) + PartialText(evs[1..])
  }

  /** After the loop: the leftover buffer if any, then the completion; nothing if the stream failed. */
  function Closing(buffer: string, completed: bool, language: string, chunkId: Option<string>): (evs: seq<OutEvent>)
  {
    if !completed then []
    else if buffer != "" then [Partial(buffer, language, chunkId), TranslationComplete(language, chunkId)]
    else [TranslationComplete(language, chunkId)]
  }

  /**
   * Everything `translate` sends. `reply` is `None` when the provider call
   * itself failed (nothing is sent); `startAt` is the clock reading that
   * initialises `lastSendTime`.
   */
  function Translate(language: string, chunkId: Option<string>, startAt: nat, reply: Option<ProviderStream>)
    : (evs: seq<OutEvent>)
    ensures evs == [] <==> reply.None?
    ensures reply.Some? ==> evs[0] == TranslationStart(language, chunkId)
    ensures reply.Some? && reply.value.completed ==> evs[|evs| - 1] == TranslationComplete(language, chunkId)
  {
    match reply
    case None => []
    case Some(stream) =>
      var out := Run(Batcher("", startAt), stream.deltas);
      Sent(language, chunkId, out.1, out.0.buffer, stream.completed)
  }

  /** The events of a call whose loop flushed `pieces` and left `buffer`. */
  function Sent(language: string, chunkId: Option<string>, pieces: seq<string>, buffer: string, completed: bool)
    : seq<OutEvent>
  {
    [TranslationStart(language, chunkId)] + Partials(pieces, language, chunkId)
      + Closing(buffer, completed, language, chunkId)
  }

  lemma {:induction false} PartialTextConcat(a: seq<OutEvent>, b: seq<OutEvent>)
    ensures PartialText(a + b) == PartialText(a) + PartialText(b)
  {
    if a == [] {
      assert a + b == b;
    } else {
      assert (a + b)[0] == a[0] && (a + b)[1..] == a[1..] + b;
      PartialTextConcat(a[1..], b);
    }
  }

  lemma {:induction false} PartialTextOfPartials(pieces: seq<string>, language: string, chunkId: Option<string>)
    ensures PartialText(Partials(pieces, language, chunkId)) == Concat(pieces)
  {
    if pieces != [] {
      assert Partials(pieces, language, chunkId)[1..] == Partials(pieces[1..], language, chunkId);
      PartialTextOfPartials(pieces[1..], language, chunkId);
    }
  }

  /**
   * The event protocol on every path: nothing after a failed call; otherwise
   * one start first and never again, non-empty partials, and exactly one
   * completion, last, when the stream completed.
   */
  lemma TranslateShape(language: string, chunkId: Option<string>, startAt: nat, reply: Option<ProviderStream>)
    ensures var evs := Translate(language, chunkId, startAt, reply);
      && (reply.None? ==> evs == [])
      && (reply.Some? ==>
        && |evs| >= 1
        && evs[0] == TranslationStart(language, chunkId)
        && (forall i :: 1 <= i < |evs| ==> !evs[i].TranslationStart?)
        && (forall i :: 0 <= i < |evs| && evs[i].TranslationPartial? ==>
              evs[i].text != "" && evs[i].language == language && evs[i].forChunkId == chunkId)
        && (reply.value.completed ==> evs[|evs| - 1] == TranslationComplete(language, chunkId))
        && (forall i :: 0 <= i < |evs| && evs[i].TranslationComplete? ==>
              reply.value.completed && i == |evs| - 1))
  {
    if reply.Some? {
      var stream := reply.value;
      var (b, pieces) := Run(Batcher("", startAt), stream.deltas);
      var start := [TranslationStart(language, chunkId)];
      var mid := Partials(pieces, language, chunkId);
      var close := Closing(b.buffer, stream.completed, language, chunkId);
      var evs := start + mid + close;
      assert evs == Translate(language, chunkId, startAt, reply);
      forall i | 0 <= i < |evs|
        ensures i == 0 ==> evs[i] == TranslationStart(language, chunkId)
        ensures i >= 1 ==> !evs[i].TranslationStart?
        ensures evs[i].TranslationPartial? ==>
          evs[i].text != "" && evs[i].language == language && evs[i].forChunkId == chunkId
        ensures evs[i].TranslationComplete? ==> stream.completed && i == |evs| - 1
      {
        if i == 0 {
        } else if i < 1 + |mid| {
          assert evs[i] == mid[i - 1];
        } else {
          assert evs[i] == close[i - 1 - |mid|];
        }
      }
      if stream.completed {
        assert evs[|evs| - 1] == close[|close| - 1];
      }
    }
  }

  lemma PartialTextOfClosing(buffer: string, completed: bool, language: string, chunkId: Option<string>)
    ensures PartialText(Closing(buffer, completed, language, chunkId)) == if completed then buffer else []
  {
    var close := Closing(buffer, completed, language, chunkId);
    if completed && buffer != "" {
      assert close[1..] == [TranslationComplete(language, chunkId)];
      assert PartialText(close[1..]) == [] by {
        assert close[1..][1..] == [];
      }
      assert PartialText(close) == buffer + PartialText(close[1..]);
    } else if completed {
      assert close[1..] == [];
    }
  }

  /** The partial text of one call: the flushed pieces, plus the leftover buffer when the stream completed. */
  lemma PartialTextOfSent(language: string, chunkId: Option<string>, pieces: seq<string>, buffer: string, completed: bool)
    ensures PartialText(Sent(language, chunkId, pieces, buffer, completed))
      == Concat(pieces) + (if completed then buffer else [])
  {
    var start := [TranslationStart(language, chunkId)];
    var mid := Partials(pieces, language, chunkId);
    var close := Closing(buffer, completed, language, chunkId);
    PartialTextConcat(start + mid, close);
    PartialTextConcat(start, mid);
    PartialTextOfPartials(pieces, language, chunkId);
    PartialTextOfClosing(buffer, completed, language, chunkId);
    assert PartialText(start) == [];
  }

  /**
   * What the partials add up to: the provider's whole text when the stream
   * completed, and a prefix of it when iteration failed part-way.
   */
  lemma PartialsSpellStream(language: string, chunkId: Option<string>, startAt: nat, stream: ProviderStream)
    ensures var text := PartialText(Translate(language, chunkId, startAt, Some(stream)));
      && |text| <= |Contents(stream.deltas)|
      && text == Contents(stream.deltas)[..|text|]
      && (stream.completed ==> text == Contents(stream.deltas))
  {
    var out := Run(Batcher("", startAt), stream.deltas);
    var (b, pieces) := (out.0, out.1);
    PartialTextOfSent(language, chunkId, pieces, b.buffer, stream.completed);
    var all := Contents(stream.deltas);
    assert Concat(pieces) + b.buffer == all;
    if !stream.completed {
      assert Concat(pieces) == all[..|Concat(pieces)|];
    }
  }
}

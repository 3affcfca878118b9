/**
 * What a batch of corrections and a new chunk do to the registry:
 * `sendCorrections`, `retranslateAffectedChunks` and `autoTranslate`.
 * A translation the session starts is returned as a `TranslateRequest`;
 * the streaming itself is `Translation.Translate`.
 */
module Cascade {
  import opened Wrappers
  import opened Seqs
  import opened Text
  import opened Messages
  import opened Registry

  /** Texts shorter than this are not translated automatically. */
  const MinTranslateLength: nat := 5

  /** A call `translate(text, language, chunkId)`; `chunkId` is absent for a client request. */
  datatype TranslateRequest = TranslateRequest(text: string, language: string, chunkId: Option<string>)

  /** `targetLanguage && targetLanguage !== 'Original'`. */
  predicate Retranslates(target: Option<string>) {
    Truthy(target) && target.value != "Original"
  }

  /** The chunk with `corrected` recomputed from its original text. */
  function Corrected(ch: Chunk, c: Correction): Chunk {
    ch.(corrected := Some(ReplaceAllIgnoreCase(ch.text, c.original, c.corrected)))
  }

  /** The retranslation of chunk `id` after correction `c`. */
  function RequestFor(id: string, text: string, c: Correction, language: string): TranslateRequest {
    TranslateRequest(ReplaceAllIgnoreCase(text, c.original, c.corrected), language, Some(id))
  }

  /** Everything but `corrected` is the same. */
  predicate SameSource(a: Chunk, b: Chunk) {
    a.id == b.id && a.text == b.text && a.timestamp == b.timestamp && a.translationSent == b.translationSent
  }

  /** The last correction in the list whose `original` occurs in `text`. */
  function LastMatch(cs: seq<Correction>, text: string): (m: Option<Correction>)
    ensures m.None? <==> forall i :: 0 <= i < |cs| ==> !Includes(text, cs[i].original)
    ensures m.Some? ==> exists i :: 0 <= i < |cs| && cs[i] == m.value && Includes(text, cs[i].original)
                                 && forall j :: i < j < |cs| ==> !Includes(text, cs[j].original)
  {
    if cs == [] then None
    else
      var rest := LastMatch(cs[1..], text);
      if rest.Some? then
        var i :| 0 <= i < |cs[1..]| && cs[1..][i] == rest.value && Includes(text, cs[1..][i].original)
          && forall j :: i < j < |cs[1..]| ==> !Includes(text, cs[1..][j].original);
        assert cs[i + 1] == rest.value && forall j :: i + 1 < j < |cs| ==> cs[j] == cs[1..][j - 1];
        rest
      else if Includes(text, cs[0].original) then
        assert forall j :: 0 < j < |cs| ==> cs[j] == cs[1..][j - 1];
        Some(cs[0])
      else
        assert forall j :: 0 < j < |cs| ==> cs[j] == cs[1..][j - 1];
        None
  }

  /**
   * One correction's pass over the chunks `keys` (the map's entries in
   * insertion order): every chunk whose text contains `original`
   * (case-sensitively) gets `corrected` and a retranslation.
   */
  function Scan(r: Registry, c: Correction, language: string, keys: seq<string>): (out: (Registry, seq<TranslateRequest>))
    requires Valid(r)
    requires forall k :: k in keys ==> k in r.chunks
    decreases |keys|
    ensures Valid(out.0) && out.0.order == r.order && out.0.chunks.Keys == r.chunks.Keys
    ensures forall k :: k in r.chunks ==> SameSource(out.0.chunks[k], r.chunks[k])
  {
    if keys == [] then (r, [])
    else
      var k := keys[0];
      var ch := r.chunks[k];
      var hit := Includes(ch.text, c.original);
      var r1 := if hit then Update(r, k, Corrected(ch, c)) else r;
      var rest := Scan(r1, c, language, keys[1..]);
      (rest.0, if hit then [RequestFor(k, ch.text, c, language)] + rest.1 else rest.1)
  }

  /** A chunk is corrected by the pass iff it is scanned and its text contains `original`. */
  lemma {:induction false} ScanChunk(r: Registry, c: Correction, language: string, keys: seq<string>, k: string)
    requires Valid(r)
    requires forall k :: k in keys ==> k in r.chunks
    requires k in r.chunks
    decreases |keys|
    ensures Scan(r, c, language, keys).0.chunks[k]
      == if k in keys && Includes(r.chunks[k].text, c.original) then Corrected(r.chunks[k], c) else r.chunks[k]
  {
    if keys != [] {
      var k0 := keys[0];
      var ch := r.chunks[k0];
      var r1 := if Includes(ch.text, c.original) then Update(r, k0, Corrected(ch, c)) else r;
      assert r1.chunks[k].text == r.chunks[k].text;
      assert k in keys <==> k == k0 || k in keys[1..];
      ScanChunk(r1, c, language, keys[1..], k);
    }
  }

  /** One correction asks for exactly one retranslation per chunk it matches. */
  lemma ScanRequests(r: Registry, c: Correction, language: string, keys: seq<string>)
    requires Valid(r)
    requires forall k :: k in keys ==> k in r.chunks
    ensures forall q :: q in Scan(r, c, language, keys).1 <==>
      exists k :: k in keys && Includes(r.chunks[k].text, c.original) && q == RequestFor(k, r.chunks[k].text, c, language)
  {
    forall q | q in Scan(r, c, language, keys).1
      ensures exists k :: k in keys && Includes(r.chunks[k].text, c.original) && q == RequestFor(k, r.chunks[k].text, c, language)
    {
      ScanSound(r, c, language, keys, q);
    }
    forall k | k in keys && Includes(r.chunks[k].text, c.original)
      ensures RequestFor(k, r.chunks[k].text, c, language) in Scan(r, c, language, keys).1
    {
      ScanComplete(r, c, language, keys, k);
    }
  }

  /** The pass over the first key, then the rest on the updated registry. */
  lemma ScanUnfold(r: Registry, c: Correction, language: string, keys: seq<string>)
    requires Valid(r)
    requires forall k :: k in keys ==> k in r.chunks
    requires keys != []
    ensures var ch := r.chunks[keys[0]];
      var hit := Includes(ch.text, c.original);
      var r1 := if hit then Update(r, keys[0], Corrected(ch, c)) else r;
      && (forall k :: k in r.chunks ==> r1.chunks[k].text == r.chunks[k].text)
      && Scan(r, c, language, keys).1
           == (if hit then [RequestFor(keys[0], ch.text, c, language)] else []) + Scan(r1, c, language, keys[1..]).1
  {
    var ch := r.chunks[keys[0]];
    var r1 := if Includes(ch.text, c.original) then Update(r, keys[0], Corrected(ch, c)) else r;
    var rest := Scan(r1, c, language, keys[1..]).1;
    assert Scan(r, c, language, keys).1
      == if Includes(ch.text, c.original) then [RequestFor(keys[0], ch.text, c, language)] + rest else rest;
    if !Includes(ch.text, c.original) {
      assert [] + rest == rest;
    }
  }

  lemma {:induction false} ScanSound(r: Registry, c: Correction, language: string, keys: seq<string>, q: TranslateRequest)
    requires Valid(r)
    requires forall k :: k in keys ==> k in r.chunks
    requires q in Scan(r, c, language, keys).1
    decreases |keys|
    ensures exists k :: k in keys && Includes(r.chunks[k].text, c.original) && q == RequestFor(k, r.chunks[k].text, c, language)
  {
    var k0 := keys[0];
    var ch := r.chunks[k0];
    var hit := Includes(ch.text, c.original);
    var r1 := if hit then Update(r, k0, Corrected(ch, c)) else r;
    ScanUnfold(r, c, language, keys);
    if hit && q == RequestFor(k0, ch.text, c, language) {
      assert k0 in keys;
    } else {
      assert q in Scan(r1, c, language, keys[1..]).1;
      ScanSound(r1, c, language, keys[1..], q);
      var k :| k in keys[1..] && Includes(r1.chunks[k].text, c.original) && q == RequestFor(k, r1.chunks[k].text, c, language);
      assert k in keys && r1.chunks[k].text == r.chunks[k].text;
    }
  }

  lemma {:induction false} ScanComplete(r: Registry, c: Correction, language: string, keys: seq<string>, k: string)
    requires Valid(r)
    requires forall k :: k in keys ==> k in r.chunks
    requires k in keys && Includes(r.chunks[k].text, c.original)
    decreases |keys|
    ensures RequestFor(k, r.chunks[k].text, c, language) in Scan(r, c, language, keys).1
  {
    var k0 := keys[0];
    var ch := r.chunks[k0];
    var hit := Includes(ch.text, c.original);
    var r1 := if hit then Update(r, k0, Corrected(ch, c)) else r;
    ScanUnfold(r, c, language, keys);
    if k != k0 {
      assert k in keys[1..] && r1.chunks[k].text == r.chunks[k].text;
      ScanComplete(r1, c, language, keys[1..], k);
    }
  }

  /**
   * All corrections in list order, each scanning every chunk, each pass
   * finishing before the next begins. Only `corrected` ever changes, and it
   * is always computed from the chunk's own `text`, so in this in-order run
   * the last correction that matches a chunk decides its final value. The
   * program starts the passes concurrently; see `RetranslateAllLastMatch`.
   */
  function RetranslateAll(r: Registry, cs: seq<Correction>, language: string): (out: (Registry, seq<TranslateRequest>))
    requires Valid(r)
    decreases |cs|
    ensures Valid(out.0) && out.0.order == r.order && out.0.chunks.Keys == r.chunks.Keys
    ensures forall k :: k in r.chunks ==> SameSource(out.0.chunks[k], r.chunks[k])
  {
    if cs == [] then (r, [])
    else
      var step := Scan(r, cs[0], language, r.order);
      var out := RetranslateAll(step.0, cs[1..], language);
      (out.0, step.1 + out.1)
  }

  /**
   * In the in-order run, the last correction that matches a chunk decides its
   * final `corrected`; an unmatched chunk is untouched. When the passes
   * interleave at their `await`s, an earlier correction that resumes later
   * can overwrite a later one's value instead.
   */
  lemma {:induction false} RetranslateAllLastMatch(r: Registry, cs: seq<Correction>, language: string, k: string)
    requires Valid(r) && k in r.chunks
    decreases |cs|
    ensures RetranslateAll(r, cs, language).0.chunks[k] == match LastMatch(cs, r.chunks[k].text)
      case None => r.chunks[k]
      case Some(c) => Corrected(r.chunks[k], c)
  {
    if cs != [] {
      var t := r.chunks[k].text;
      var r1 := Scan(r, cs[0], language, r.order).0;
      ScanChunk(r, cs[0], language, r.order, k);
      assert r1.chunks[k].text == t;
      RetranslateAllLastMatch(r1, cs[1..], language, k);
      var rest := LastMatch(cs[1..], t);
      assert LastMatch(cs, t) == if rest.Some? then rest else if Includes(t, cs[0].original) then Some(cs[0]) else None;
    }
  }

  /** A chunk `k` that correction `cs[i]` matches. */
  predicate Affects(r: Registry, cs: seq<Correction>, k: string, i: int) {
    k in r.chunks && 0 <= i < |cs| && Includes(r.chunks[k].text, cs[i].original)
  }

  /** Each retranslation is for a chunk and a correction that matches it, and each such pair gets one. */
  lemma RetranslateAllRequests(r: Registry, cs: seq<Correction>, language: string)
    requires Valid(r)
    ensures forall q :: q in RetranslateAll(r, cs, language).1 <==>
      exists k, i :: Affects(r, cs, k, i) && q == RequestFor(k, r.chunks[k].text, cs[i], language)
  {
    forall q | q in RetranslateAll(r, cs, language).1
      ensures exists k, i :: Affects(r, cs, k, i) && q == RequestFor(k, r.chunks[k].text, cs[i], language)
    {
      RetranslateAllSound(r, cs, language, q);
    }
    forall k, i | Affects(r, cs, k, i)
      ensures RequestFor(k, r.chunks[k].text, cs[i], language) in RetranslateAll(r, cs, language).1
    {
      RetranslateAllComplete(r, cs, language, k, i);
    }
  }

  lemma {:induction false} RetranslateAllSound(r: Registry, cs: seq<Correction>, language: string, q: TranslateRequest)
    requires Valid(r) && q in RetranslateAll(r, cs, language).1
    decreases |cs|
    ensures exists k, i :: Affects(r, cs, k, i) && q == RequestFor(k, r.chunks[k].text, cs[i], language)
  {
    var (r1, first) := Scan(r, cs[0], language, r.order);
    assert forall k :: k in r.chunks ==> r1.chunks[k].text == r.chunks[k].text;
    if q in first {
      ScanRequests(r, cs[0], language, r.order);
      var k :| k in r.order && Includes(r.chunks[k].text, cs[0].original) && q == RequestFor(k, r.chunks[k].text, cs[0], language);
      assert Affects(r, cs, k, 0);
    } else {
      RetranslateAllSound(r1, cs[1..], language, q);
      var k, i :| Affects(r1, cs[1..], k, i) && q == RequestFor(k, r1.chunks[k].text, cs[1..][i], language);
      assert cs[i + 1] == cs[1..][i];
      assert Affects(r, cs, k, i + 1);
    }
  }

  lemma {:induction false} RetranslateAllComplete(r: Registry, cs: seq<Correction>, language: string, k: string, i: int)
    requires Valid(r) && Affects(r, cs, k, i)
    decreases |cs|
    ensures RequestFor(k, r.chunks[k].text, cs[i], language) in RetranslateAll(r, cs, language).1
  {
    var (r1, first) := Scan(r, cs[0], language, r.order);
    if i == 0 {
      ScanRequests(r, cs[0], language, r.order);
    } else {
      assert r1.chunks[k].text == r.chunks[k].text;
      assert cs[1..][i - 1] == cs[i];
      RetranslateAllComplete(r1, cs[1..], language, k, i - 1);
    }
  }

  lemma UnmatchedUntouched(r: Registry, cs: seq<Correction>, language: string)
    requires Valid(r)
    ensures forall k :: k in r.chunks && LastMatch(cs, r.chunks[k].text).None? ==>
      RetranslateAll(r, cs, language).0.chunks[k] == r.chunks[k]
  {
    forall k | k in r.chunks && LastMatch(cs, r.chunks[k].text).None? {
      RetranslateAllLastMatch(r, cs, language, k);
    }
  }

  /**
   * `retranslateAffectedChunks(corrections)`: nothing at all unless the
   * target language is set and is not `'Original'`.
   */
  function RetranslateAffectedChunks(r: Registry, target: Option<string>, cs: seq<Correction>): (out: (Registry, seq<TranslateRequest>))
    requires Valid(r)
    ensures !Retranslates(target) ==> out == (r, [])
    ensures Valid(out.0) && out.0.order == r.order && out.0.chunks.Keys == r.chunks.Keys
    ensures forall k :: k in r.chunks ==> SameSource(out.0.chunks[k], r.chunks[k])
    ensures forall k :: k in r.chunks && LastMatch(cs, r.chunks[k].text).None? ==> out.0.chunks[k] == r.chunks[k]
    ensures forall q :: q in out.1 ==> q.chunkId.Some? && q.chunkId.value in r.chunks && q.language == target.value
  {
    if Retranslates(target) then
      RetranslateAllRequests(r, cs, target.value);
      UnmatchedUntouched(r, cs, target.value);
      RetranslateAll(r, cs, target.value)
    else (r, [])
  }

  /**
   * `sendCorrections(result)`: one `corrections` event, then the cascade when
   * the list is non-empty.
   */
  function SendCorrections(r: Registry, target: Option<string>, result: AnalysisResult)
    : (out: (Registry, seq<OutEvent>, seq<TranslateRequest>))
    requires Valid(r)
    ensures Valid(out.0) && out.0.order == r.order && out.0.chunks.Keys == r.chunks.Keys
    ensures out.1 == [Corrections(result.topic, CorrectionsOf(result))]
    ensures !HasCorrections(result) ==> out.0 == r && out.2 == []
    ensures HasCorrections(result) ==> (out.0, out.2) == RetranslateAffectedChunks(r, target, CorrectionsOf(result))
  {
    var (r', requests) := if HasCorrections(result) then RetranslateAffectedChunks(r, target, CorrectionsOf(result)) else (r, []);
    (r', [Corrections(result.topic, CorrectionsOf(result))], requests)
  }

  /**
   * `autoTranslate(chunkId)`: a missing chunk or a text under five characters
   * does nothing; otherwise the chunk is marked `translationSent` (even when
   * the target is `'Original'`) and translated into a real target.
   */
  function AutoTranslate(r: Registry, id: string, target: Option<string>): (out: (Registry, seq<TranslateRequest>))
    requires Valid(r)
    ensures Valid(out.0) && out.0.order == r.order && out.0.chunks.Keys == r.chunks.Keys
    ensures id !in r.chunks || |r.chunks[id].text| < MinTranslateLength ==> out == (r, [])
    ensures id in r.chunks && |r.chunks[id].text| >= MinTranslateLength ==>
      && out.0.chunks == r.chunks[id := r.chunks[id].(translationSent := true)]
      && out.1 == if Retranslates(target) then [TranslateRequest(r.chunks[id].text, target.value, Some(id))] else []
  {
    match Get(r, id)
    case None => (r, [])
    case Some(ch) =>
      if |ch.text| < MinTranslateLength then (r, [])
      else
        var r' := Put(r, id, ch.(translationSent := true));
        (r', if Retranslates(target) then [TranslateRequest(ch.text, target.value, Some(id))] else [])
  }
}

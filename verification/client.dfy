/**
 * The browser client's state transforms: the transcript list with its
 * correction marks, the accumulated translation, the translation request
 * and the text a transcript item finally shows.
 */
module Client {
  import opened Wrappers
  import opened Seqs
  import opened Text
  import opened Messages
  import opened Translation

  /** How many of the newest items a batch of corrections may touch. */
  const CorrectionWindow: nat := 5
  /** How many of the newest items are re-translated together. */
  const RecentItems: nat := 3

  /**
   * A transcript entry in the list. `id` is the client's own clock reading,
   * not the server's chunk id.
   */
  datatype Item = Item(
    id: nat,
    text: string,
    timestamp: nat,
    corrected: bool,
    corrections: seq<Correction>,
    needsAnimation: bool)

  datatype ClientState = ClientState(items: seq<Item>, translation: string, topic: Option<string>, status: string)

  /**
   * `Math.max(0, length - 5)`: the first index a correction may touch, so the
   * window `[k, n)` holds the last `CorrectionWindow` items, or all of them
   * when there are fewer.
   */
  function WindowStart(n: nat): (k: nat)
    ensures k <= n
    ensures n - k == if n <= CorrectionWindow then n else CorrectionWindow
  {
    if n <= CorrectionWindow then 0 else n - CorrectionWindow
  }

  /** The corrections of `cs`, in order, whose `original` occurs in `text`. */
  function MatchingIn(cs: seq<Correction>, text: string): (r: seq<Correction>)
    ensures forall c :: c in r <==> c in cs && Includes(text, c.original)
  {
    Filter(cs, (c: Correction) => Includes(text, c.original))
  }

  /**
   * One correction's pass over the newest five items. An item changes iff it
   * is in the window and its text contains `original`; a changed item keeps
   * its id, text, timestamp and flag, gains `c` at the end of its list and is
   * marked for animation.
   */
  function ApplyCorrection(items: seq<Item>, c: Correction): (r: seq<Item>)
    ensures |r| == |items|
    ensures forall i :: 0 <= i < |items| ==>
      (r[i] != items[i] <==> WindowStart(|items|) <= i && Includes(items[i].text, c.original))
    ensures forall i :: 0 <= i < |items| && r[i] != items[i] ==>
      && r[i].id == items[i].id && r[i].text == items[i].text
      && r[i].timestamp == items[i].timestamp && r[i].corrected == items[i].corrected
      && r[i].corrections == items[i].corrections + [c] && r[i].needsAnimation
  {
    var r := seq(|items|, i requires 0 <= i < |items| =>
      if i >= WindowStart(|items|) && Includes(items[i].text, c.original)
      then items[i].(corrections := items[i].corrections + [c], needsAnimation := true)
      else items[i]);
    assert forall i :: 0 <= i < |items| && i >= WindowStart(|items|) && Includes(items[i].text, c.original) ==>
      |r[i].corrections| == |items[i].corrections| + 1;
    r
  }

  /**
   * `applyCorrections(corrections)`: corrections in list order. The list keeps
   * its length and every text; items before the window are untouched; each
   * item in the window gains, in order, exactly the corrections whose
   * `original` its text contains, and is marked for animation iff it gained one.
   */
  function ApplyCorrections(items: seq<Item>, cs: seq<Correction>): (r: seq<Item>)
    decreases |cs|
    ensures |r| == |items|
    ensures forall i :: 0 <= i < |items| ==>
      r[i].id == items[i].id && r[i].text == items[i].text
      && r[i].timestamp == items[i].timestamp && r[i].corrected == items[i].corrected
    ensures forall i :: 0 <= i < WindowStart(|items|) ==> r[i] == items[i]
    ensures forall i :: WindowStart(|items|) <= i < |items| ==>
      && r[i].corrections == items[i].corrections + MatchingIn(cs, items[i].text)
      && r[i].needsAnimation == (items[i].needsAnimation || MatchingIn(cs, items[i].text) != [])
  {
    if cs == [] then items
    else
      MatchingInCons(cs);
      ApplyCorrections(ApplyCorrection(items, cs[0]), cs[1..])
  }

  lemma MatchingInCons(cs: seq<Correction>)
    requires cs != []
    ensures forall text :: MatchingIn(cs, text) == (if Includes(text, cs[0].original) then [cs[0]] else []) + MatchingIn(cs[1..], text)
  {
    forall text: string
      ensures MatchingIn(cs, text) == (if Includes(text, cs[0].original) then [cs[0]] else []) + MatchingIn(cs[1..], text)
    {
      assert cs == [cs[0]] + cs[1..];
      FilterConcat([cs[0]], cs[1..], (c: Correction) => Includes(text, c.original));
    }
  }

  /**
   * `handleServerMessage` on the events the server sends. A transcript's
   * item is stamped with the client clock reading `now`.
   */
  function HandleServerMessage(st: ClientState, m: OutEvent, now: nat): (st': ClientState)
    ensures m.Transcript? ==>
      st'.items == st.items + [Item(now, m.text, m.timestamp, false, [], false)]
      && st'.translation == st.translation
    ensures m.TranslationPartial? ==> st' == st.(translation := st.translation + m.text)
    ensures m.Status? ==> st' == st.(status := m.message)
    ensures m.TranslationComplete? || m.TranslationStart? ==> st' == st
    ensures m.Corrections? ==> st' == st.(topic := m.topic, items := ApplyCorrections(st.items, m.corrections))
    ensures m.Error? ==> st' == st.(status := "Error: " + m.message)
    ensures !m.Transcript? && !m.Corrections? ==> st'.items == st.items
  {
    match m
    case Status(message) => st.(status := message)
    case Transcript(_, text, timestamp) => st.(items := st.items + [Item(now, text, timestamp, false, [], false)])
    case Corrections(topic, cs) => st.(topic := topic, items := ApplyCorrections(st.items, cs))
    case TranslationStart(_, _) => st
    case TranslationPartial(text, _, _) => st.(translation := st.translation + text)
    case TranslationComplete(_, _) => st
    case Error(message) => st.(status := "Error: " + message)
  }

  /** Messages handled in arrival order, all stamped `now`. */
  function HandleAll(st: ClientState, ms: seq<OutEvent>, now: nat): ClientState
    decreases |ms|
  {
    if ms == [] then st else HandleAll(HandleServerMessage(st, ms[0], now), ms[1..], now)
  }

  /** The translation panel grows by exactly the partial texts received. */
  lemma {:induction false} HandleAllTranslation(st: ClientState, ms: seq<OutEvent>, now: nat)
    decreases |ms|
    ensures HandleAll(st, ms, now).translation == st.translation + PartialText(ms)
  {
    if ms != [] {
      var st1 := HandleServerMessage(st, ms[0], now);
      HandleOneTranslation(st, ms[0], now);
      HandleAllTranslation(st1, ms[1..], now);
      assert PartialText(ms) == (if ms[0].TranslationPartial? then ms[0].text else []) + PartialText(ms[1..]);
    }
  }

  lemma HandleOneTranslation(st: ClientState, m: OutEvent, now: nat)
    ensures HandleServerMessage(st, m, now).translation == st.translation + (if m.TranslationPartial? then m.text else [])
  {
  }

  /**
   * End to end: the text the client shows for a completed server
   * translation is exactly what the provider streamed, appended to whatever
   * the panel held; for a failed stream it is a prefix of it.
   */
  lemma ClientReassemblesTranslation(st: ClientState, language: string, chunkId: Option<string>,
                                     startAt: nat, stream: ProviderStream, now: nat)
    ensures var st' := HandleAll(st, Translate(language, chunkId, startAt, Some(stream)), now);
      && |st.translation| <= |st'.translation| <= |st.translation| + |Contents(stream.deltas)|
      && st'.translation[..|st.translation|] == st.translation
      && st'.translation[|st.translation|..] == Contents(stream.deltas)[..|st'.translation| - |st.translation|]
      && (stream.completed ==> st'.translation == st.translation + Contents(stream.deltas))
  {
    var evs := Translate(language, chunkId, startAt, Some(stream));
    HandleAllTranslation(st, evs, now);
    PartialsSpellStream(language, chunkId, startAt, stream);
    var st' := HandleAll(st, evs, now);
    assert st'.translation == st.translation + PartialText(evs);
  }

  // ---------------------------------------------------------------------
  // Translation requests
  // ---------------------------------------------------------------------

  /**
   * `requestTranslation(text)`: only on an open connection and for text that
   * is not all whitespace; the panel is then cleared and the trimmed text sent.
   */
  function RequestTranslation(st: ClientState, text: string, open: bool, targetLanguage: string)
    : (out: (ClientState, Option<InMessage>))
    ensures out.1.Some? <==> open && exists i :: 0 <= i < |text| && !IsWhitespace(text[i])
    ensures out.1.None? ==> out.0 == st
    ensures out.1.Some? ==>
      && out.0 == st.(translation := "")
      && out.1.value == TranslateText(Trim(text), targetLanguage)
      && Trim(text) != [] && !IsWhitespace(Trim(text)[0]) && !IsWhitespace(Trim(text)[|Trim(text)| - 1])
  {
    var t := Trim(text);
    if open && t != "" then (st.(translation := ""), Some(TranslateText(t, targetLanguage)))
    else (st, None)
  }

  /**
   * `transcript.slice(-3).map(t => t.text).join(' ')`: the newest three
   * texts, oldest first, one space apart.
   */
  function RecentText(items: seq<Item>): (r: string)
    ensures |items| == 0 ==> r == ""
    ensures |items| == 1 ==> r == items[0].text
    ensures |items| == 2 ==> r == items[0].text + " " + items[1].text
    ensures |items| >= 3 ==>
      var n := |items|;
      r == items[n - 3].text + " " + items[n - 2].text + " " + items[n - 1].text
  {
    RecentTextCases(items);
    Join(TextsOf(TakeLast(items, RecentItems)), " ")
  }

  function TextsOf(items: seq<Item>): (r: seq<string>)
    ensures |r| == |items| && forall i :: 0 <= i < |items| ==> r[i] == items[i].text
  {
    seq(|items|, i requires 0 <= i < |items| => items[i].text)
  }

  lemma RecentTextCases(items: seq<Item>)
    ensures var r := Join(TextsOf(TakeLast(items, RecentItems)), " ");
      && (|items| == 0 ==> r == "")
      && (|items| == 1 ==> r == items[0].text)
      && (|items| == 2 ==> r == items[0].text + " " + items[1].text)
      && (|items| >= 3 ==>
            var n := |items|;
            r == items[n - 3].text + " " + items[n - 2].text + " " + items[n - 1].text)
  {
    var last := TakeLast(items, RecentItems);
    var texts := TextsOf(last);
    if |items| >= 3 {
      assert last == items[|items| - 3..];
      assert texts[1..][1..] == [texts[2]];
      assert Join(texts[1..], " ") == texts[1] + " " + texts[2];
    } else if |items| == 2 {
      assert last == items;
      assert texts[1..] == [texts[1]];
    } else if |items| == 1 {
      assert last == items;
    }
  }

  /**
   * The debounced auto-translation after the list changes: the newest three
   * texts, through `requestTranslation`; nothing for an empty list.
   */
  function AutoTranslateRecent(st: ClientState, open: bool, targetLanguage: string): (out: (ClientState, Option<InMessage>))
    ensures out.1.Some? <==>
      open && st.items != [] && exists i :: 0 <= i < |RecentText(st.items)| && !IsWhitespace(RecentText(st.items)[i])
    ensures out.1.None? ==> out.0 == st
    ensures out.1.Some? ==>
      && out.1.value == TranslateText(Trim(RecentText(st.items)), targetLanguage)
      && out.0 == st.(translation := "")
  {
    if |st.items| > 0 then RequestTranslation(st, RecentText(st.items), open, targetLanguage) else (st, None)
  }

  // ---------------------------------------------------------------------
  // TranscriptItem
  // ---------------------------------------------------------------------

  /** Each correction in order replaces the first occurrence in the running text. */
  function ApplyInOrder(text: string, cs: seq<Correction>): (r: string)
    decreases |cs|
    ensures (forall i :: 0 <= i < |cs| ==> |cs[i].corrected| == |cs[i].original|) ==> |r| == |text|
  {
    if cs == [] then text else ApplyInOrder(ReplaceFirst(text, cs[0].original, cs[0].corrected), cs[1..])
  }

  /** The text the item shows once its animation has run. */
  function DisplayText(item: Item): (r: string)
    ensures !(item.corrections != [] && item.needsAnimation) ==> r == item.text
  {
    if item.corrections != [] && item.needsAnimation then ApplyInOrder(item.text, item.corrections) else item.text
  }

  /** A later correction acts on the text the earlier ones produced. */
  lemma {:induction false} ApplyInOrderSnoc(text: string, cs: seq<Correction>, c: Correction)
    decreases |cs|
    ensures ApplyInOrder(text, cs + [c]) == ReplaceFirst(ApplyInOrder(text, cs), c.original, c.corrected)
  {
    if cs == [] {
      assert ([] + [c])[1..] == [];
    } else {
      assert (cs + [c])[1..] == cs[1..] + [c];
      ApplyInOrderSnoc(ReplaceFirst(text, cs[0].original, cs[0].corrected), cs[1..], c);
    }
  }

  /** Corrections whose `original` never appears along the way leave the text as it was. */
  lemma {:induction false} ApplyInOrderWithoutMatches(text: string, cs: seq<Correction>)
    requires forall i :: 0 <= i < |cs| ==> !Includes(text, cs[i].original)
    ensures ApplyInOrder(text, cs) == text
  {
    if cs != [] {
      ApplyInOrderWithoutMatches(text, cs[1..]);
    }
  }
}

/**
 * The session's chunk registry (`chunksMap`): chunk ids, insertion-ordered
 * storage, and the periodic eviction `cleanupOldChunks`.
 */
module Registry {
  import opened Wrappers
  import opened Seqs
  import opened Lex

  /** Capacity the periodic cleanup trims the registry down to. */
  const MaxChunks: nat := 200
  /** Period of the cleanup timer; eviction runs only on this timer. */
  const CleanupIntervalMs: nat := 30000

  /** A transcript fragment; `corrected` is `false` (None) until a correction rewrites it. */
  datatype Chunk = Chunk(id: string, text: string, timestamp: nat, corrected: Option<string>, translationSent: bool)

  // ---------------------------------------------------------------------
  // Chunk ids: `chunk-<ms>-<counter>`
  // ---------------------------------------------------------------------

  /**
   * An id is `chunk-`, then digits except for exactly one dash, which
   * separates the millisecond numeral from the counter numeral.
   */
  function ChunkId(ms: nat, counter: nat): (id: string)
    ensures |id| == 7 + |DecimalString(ms)| + |DecimalString(counter)|
    ensures id[..6] == "chunk-"
    ensures forall i :: 6 <= i < |id| ==> (IsDigit(id[i]) <==> i != 6 + |DecimalString(ms)|)
  {
    var a, b := DecimalString(ms), DecimalString(counter);
    var id := "chunk-" + a + "-" + b;
    assert forall i :: 6 <= i < 6 + |a| ==> id[i] == a[i - 6];
    assert forall i :: 7 + |a| <= i < |id| ==> id[i] == b[i - 7 - |a|];
    id
  }

  lemma DashAfter(x: string, y: string)
    ensures (x + "-" + y)[|x|] == '-'
    ensures forall i :: 0 <= i < |x| ==> (x + "-" + y)[i] == x[i]
  {
  }

  lemma SplitAtFirstDash(x: string, y: string, x': string, y': string)
    requires forall i :: 0 <= i < |x| ==> IsDigit(x[i])
    requires forall i :: 0 <= i < |x'| ==> IsDigit(x'[i])
    requires x + "-" + y == x' + "-" + y'
    ensures x == x' && y == y'
  {
    var s, s' := x + "-" + y, x' + "-" + y';
    DashAfter(x, y);
    DashAfter(x', y');
    if |x| == |x'| {
      assert x == s[..|x|] && x' == s'[..|x|];
      assert y == s[|x| + 1..] && y' == s'[|x| + 1..];
    } else {
      assert false;
    }
  }

  /** Different (millisecond, counter) pairs never produce the same id. */
  lemma ChunkIdInjective(ms: nat, c: nat, ms': nat, c': nat)
    requires ChunkId(ms, c) == ChunkId(ms', c')
    ensures ms == ms' && c == c'
  {
    var a, b := DecimalString(ms) + "-" + DecimalString(c), DecimalString(ms') + "-" + DecimalString(c');
    assert ChunkId(ms, c) == "chunk-" + a && ChunkId(ms', c') == "chunk-" + b;
    assert a == ChunkId(ms, c)[6..] && b == ChunkId(ms', c')[6..];
    SplitAtFirstDash(DecimalString(ms), DecimalString(c), DecimalString(ms'), DecimalString(c'));
    DecimalStringInjective(ms, ms');
    DecimalStringInjective(c, c');
  }

  /**
   * When two creation times have numerals of the same width (every millisecond
   * time between 2001 and 2286 has 13 digits), the earlier chunk sorts first
   * whatever the counters.
   */
  lemma ChunkIdOrderFollowsMillis(ms: nat, c: nat, ms': nat, c': nat)
    requires ms < ms' && |DecimalString(ms)| == |DecimalString(ms')|
    ensures LexLess(ChunkId(ms, c), ChunkId(ms', c'))
  {
    DecimalOrder(ms, ms');
    var tail, tail' := "-" + DecimalString(c), "-" + DecimalString(c');
    LexEqualLengthPrefix(DecimalString(ms), DecimalString(ms'), tail, tail');
    LexCommonPrefix("chunk-", DecimalString(ms) + tail, DecimalString(ms') + tail');
    assert ChunkId(ms, c) == "chunk-" + (DecimalString(ms) + tail);
    assert ChunkId(ms', c') == "chunk-" + (DecimalString(ms') + tail');
  }

  /**
   * Within one millisecond the order is not creation order: the tenth chunk
   * (counter 9) sorts after every later chunk with counter 10 to 89, so those
   * newer chunks are evicted before it.
   */
  lemma SameMillisecondOrderIsNotCreationOrder(ms: nat, n: nat)
    requires 10 <= n < 90
    ensures LexLess(ChunkId(ms, n), ChunkId(ms, 9))
  {
    var p := "chunk-" + DecimalString(ms) + "-";
    assert DecimalString(n) == [DigitChar(n / 10), DigitChar(n % 10)];
    assert DecimalString(9) == [DigitChar(9)];
    assert DigitChar(n / 10) < DigitChar(9);
    assert ChunkId(ms, n) == p + DecimalString(n) && ChunkId(ms, 9) == p + DecimalString(9);
    LexCommonPrefix(p, DecimalString(n), DecimalString(9));
  }

  // ---------------------------------------------------------------------
  // The registry: a JavaScript Map, which iterates in insertion order
  // ---------------------------------------------------------------------

  datatype Registry = Registry(order: seq<string>, chunks: map<string, Chunk>)

  /** `order` lists every key exactly once. */
  ghost predicate Valid(r: Registry) {
    && NoDup(r.order)
    && (forall k :: k in r.chunks <==> k in r.order)
    && |r.chunks| == |r.order|
  }

  /** The size conjunct of `Valid` follows from the other two. */
  lemma ValidSize(r: Registry)
    requires NoDup(r.order) && forall k :: k in r.chunks <==> k in r.order
    ensures |r.chunks| == |r.order|
  {
    assert r.chunks.Keys == SetOf(r.order);
    NoDupCard(r.order);
  }

  function Empty(): (r: Registry)
    ensures Valid(r) && |r.chunks| == 0
  {
    Registry([], map[])
  }

  /** `map.set(id, chunk)`: a new key goes last, an existing key keeps its place. */
  function Put(r: Registry, id: string, chunk: Chunk): (r': Registry)
    requires Valid(r)
    ensures Valid(r')
    ensures r'.chunks == r.chunks[id := chunk]
    ensures id in r.chunks ==> r'.order == r.order
    ensures id !in r.chunks ==> r'.order == r.order + [id] && |r'.chunks| == |r.chunks| + 1
  {
    if id in r.chunks then Registry(r.order, r.chunks[id := chunk])
    else Registry(r.order + [id], r.chunks[id := chunk])
  }

  /** `map.set(id, chunk)` for a key already present: only its value changes. */
  function Update(r: Registry, id: string, chunk: Chunk): (r': Registry)
    requires Valid(r) && id in r.chunks
    ensures Valid(r') && r'.order == r.order && r'.chunks == r.chunks[id := chunk]
  {
    Registry(r.order, r.chunks[id := chunk])
  }

  /** `map.get(id)`. */
  function Get(r: Registry, id: string): (c: Option<Chunk>)
    ensures c.Some? <==> id in r.chunks
    ensures c.Some? ==> c.value == r.chunks[id]
  {
    if id in r.chunks then Some(r.chunks[id]) else None
  }

  // ---------------------------------------------------------------------
  // Default sort of the key array
  // ---------------------------------------------------------------------

  predicate StrictlySorted(s: seq<string>) {
    forall i, j :: 0 <= i < j < |s| ==> LexLess(s[i], s[j])
  }

  lemma StrictlySortedNoDup(s: seq<string>)
    requires StrictlySorted(s)
    ensures NoDup(s)
  {
    forall i, j | 0 <= i < j < |s|
      ensures s[i] != s[j]
    {
      if s[i] == s[j] {
        LexIrreflexive(s[i]);
      }
    }
  }

  function Insert(x: string, s: seq<string>): (r: seq<string>)
    requires StrictlySorted(s) && x !in s
    ensures StrictlySorted(r)
    ensures |r| == |s| + 1
    ensures forall y :: y in r <==> y == x || y in s
  {
    if s == [] then [x]
    else if LexLess(x, s[0]) then
      assert StrictlySorted([x] + s) by {
        forall j | 0 <= j < |s|
          ensures LexLess(x, s[j])
        {
          if j > 0 {
            LexTransitive(x, s[0], s[j]);
          }
        }
      }
      [x] + s
    else
      var rest := Insert(x, s[1..]);
      assert StrictlySorted([s[0]] + rest) by {
        LexTotal(x, s[0]);
        forall y | y in rest
          ensures LexLess(s[0], y)
        {
          if y != x {
            var j :| 0 <= j < |s[1..]| && s[1..][j] == y;
            assert s[j + 1] == y;
          }
        }
      }
      [s[0]] + rest
  }

  /** `Array.from(keys).sort()` for distinct keys: the unique strictly increasing arrangement. */
  function SortKeys(s: seq<string>): (r: seq<string>)
    requires NoDup(s)
    ensures StrictlySorted(r)
    ensures |r| == |s|
    ensures forall y :: y in r <==> y in s
  {
    if s == [] then [] else Insert(s[0], SortKeys(s[1..]))
  }

  lemma {:induction false} SortKeysOfSorted(s: seq<string>)
    requires StrictlySorted(s)
    ensures NoDup(s) && SortKeys(s) == s
  {
    StrictlySortedNoDup(s);
    if s != [] {
      assert StrictlySorted(s[1..]);
      SortKeysOfSorted(s[1..]);
      assert [s[0]] + s[1..] == s;
    }
  }

  // ---------------------------------------------------------------------
  // cleanupOldChunks
  // ---------------------------------------------------------------------

  /**
   * The first `n` keys after sorting: exactly `n` keys, each smaller than
   * every key left out.
   */
  function Doomed(keys: seq<string>, n: nat): (d: set<string>)
    requires NoDup(keys) && n <= |keys|
    ensures |d| == n
    ensures forall x :: x in d ==> x in keys
    ensures forall x, y {:trigger x in d, y in keys} :: x in d && y in keys && y !in d ==> LexLess(x, y)
  {
    var sorted := SortKeys(keys);
    StrictlySortedNoDup(sorted);
    NoDupCard(sorted[..n]);
    var d := SetOf(sorted[..n]);
    assert forall x, y :: x in d && y in keys && y !in d ==> LexLess(x, y) by {
      forall x, y | x in d && y in keys && y !in d
        ensures LexLess(x, y)
      {
        var i :| 0 <= i < n && sorted[..n][i] == x;
        var j :| 0 <= j < |sorted| && sorted[j] == y;
        assert sorted[i] == x;
      }
    }
    d
  }

  /**
   * Periodic cleanup: nothing happens at or below `MaxChunks`; above it the
   * `size - MaxChunks` lexicographically smallest keys are deleted.
   */
  function Cleanup(r: Registry): (r': Registry)
    requires Valid(r)
    ensures Valid(r')
    ensures |r.chunks| <= MaxChunks ==> r' == r
    ensures |r.chunks| > MaxChunks ==> |r'.chunks| == MaxChunks
    ensures forall k :: k in r'.chunks ==> k in r.chunks && r'.chunks[k] == r.chunks[k]
    ensures forall d, k {:trigger d in r.chunks, k in r'.chunks} ::
      d in r.chunks && d !in r'.chunks && k in r'.chunks ==> LexLess(d, k)
    ensures IsSubsequence(r'.order, r.order)
    ensures |r.order| > MaxChunks && StrictlySorted(r.order) ==> r'.order == r.order[|r.order| - MaxChunks..]
  {
    if |r.order| <= MaxChunks then
      SubsequenceReflexive(r.order);
      r
    else
      EvictSmallest(r, |r.order| - MaxChunks)
  }

  /** Deletes the keys in `doomed`; survivors keep their relative order. */
  function Evict(r: Registry, doomed: set<string>): Registry {
    Registry(Filter(r.order, Outside(doomed)), map k | k in r.chunks && k !in doomed :: r.chunks[k])
  }

  /** Deletes the `n` lexicographically smallest keys. */
  function EvictSmallest(r: Registry, n: nat): (r': Registry)
    requires Valid(r) && n <= |r.order|
    ensures Valid(r')
    ensures |r'.chunks| == |r.chunks| - n
    ensures forall k :: k in r'.chunks ==> k in r.chunks && r'.chunks[k] == r.chunks[k]
    ensures forall d, k {:trigger d in r.chunks, k in r'.chunks} ::
      d in r.chunks && d !in r'.chunks && k in r'.chunks ==> LexLess(d, k)
    ensures IsSubsequence(r'.order, r.order)
    ensures StrictlySorted(r.order) ==> r'.order == r.order[n..]
  {
    var doomed := Doomed(r.order, n);
    EvictValid(r, doomed);
    FilterIsSubsequence(r.order, Outside(doomed));
    if StrictlySorted(r.order) then
      DoomedOfSorted(r.order, n);
      FilterOutsidePrefix(r.order, n);
      Evict(r, doomed)
    else
      Evict(r, doomed)
  }

  lemma EvictValid(r: Registry, doomed: set<string>)
    requires Valid(r) && doomed <= r.chunks.Keys
    ensures Valid(Evict(r, doomed))
    ensures Evict(r, doomed).chunks.Keys == r.chunks.Keys - doomed
    ensures |Evict(r, doomed).chunks| == |r.chunks| - |doomed|
  {
    FilterKeepsNoDup(r.order, Outside(doomed));
    assert Evict(r, doomed).chunks.Keys == r.chunks.Keys - doomed;
    SetDifferenceCard(r.chunks.Keys, doomed);
    ValidSize(Evict(r, doomed));
  }

  lemma SetDifferenceCard(a: set<string>, b: set<string>)
    requires b <= a
    ensures |a - b| == |a| - |b|
  {
    assert a == (a - b) + b;
  }

  /** The filter `k => !doomed.has(k)`. */
  function Outside(doomed: set<string>): string -> bool {
    k => k !in doomed
  }

  lemma {:induction false} FilterKeepsNoDup(s: seq<string>, keep: string -> bool)
    requires NoDup(s)
    ensures NoDup(Filter(s, keep))
  {
    if s != [] {
      FilterKeepsNoDup(s[1..], keep);
      assert s[0] !in s[1..];
    }
  }

  /**
   * When keys were inserted in increasing order (distinct creation
   * milliseconds of one width, by `ChunkIdOrderFollowsMillis`), cleanup is
   * first-in first-out: exactly the oldest `size - MaxChunks` go.
   */
  lemma DoomedOfSorted(keys: seq<string>, n: nat)
    requires StrictlySorted(keys) && n <= |keys|
    ensures NoDup(keys) && Doomed(keys, n) == SetOf(keys[..n])
  {
    SortKeysOfSorted(keys);
  }

  lemma FilterOutsidePrefix(s: seq<string>, n: nat)
    requires NoDup(s) && n <= |s|
    ensures Filter(s, Outside(SetOf(s[..n]))) == s[n..]
  {
    var keep := Outside(SetOf(s[..n]));
    assert s == s[..n] + s[n..];
    FilterConcat(s[..n], s[n..], keep);
    PrefixNotKept(s, n);
    FilterNoneKept(s[..n], keep);
    SuffixKept(s, n);
    FilterAllKept(s[n..], keep);
  }

  lemma PrefixNotKept(s: seq<string>, n: nat)
    requires n <= |s|
    ensures forall i :: 0 <= i < |s[..n]| ==> !Outside(SetOf(s[..n]))(s[..n][i])
  {
  }

  lemma SuffixKept(s: seq<string>, n: nat)
    requires NoDup(s) && n <= |s|
    ensures forall i :: 0 <= i < |s[n..]| ==> Outside(SetOf(s[..n]))(s[n..][i])
  {
    forall i | 0 <= i < |s[n..]|
      ensures s[n..][i] !in SetOf(s[..n])
    {
      assert forall j :: 0 <= j < n ==> s[..n][j] == s[j] && s[j] != s[n + i];
    }
  }
}

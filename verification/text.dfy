/**
 * JavaScript string operations used by the pipeline, on `string` = `seq<char>`.
 * Each `char` stands for one UTF-16 code unit of the Basic Multilingual Plane,
 * so `|s|` is JavaScript's `s.length` and indices are code-unit indices.
 */
module Text {
  import opened Wrappers
  import opened Seqs

  // ---------------------------------------------------------------------
  // Substring search: includes / indexOf
  // ---------------------------------------------------------------------

  /** `sub` occurs in `s` starting at index `i`. */
  predicate OccursAt(s: string, sub: string, i: nat) {
    i + |sub| <= |s| && s[i..i + |sub|] == sub
  }

  /** First index at or after `from` where `sub` occurs. */
  function IndexOfFrom(s: string, sub: string, from: nat): (r: Option<nat>)
    requires from <= |s|
    ensures r.Some? ==> from <= r.value && OccursAt(s, sub, r.value)
    ensures r.Some? ==> forall j: nat :: from <= j < r.value ==> !OccursAt(s, sub, j)
    ensures r.None? ==> forall j: nat :: from <= j ==> !OccursAt(s, sub, j)
    decreases |s| - from
  {
    if OccursAt(s, sub, from) then Some(from)
    else if from == |s| then None
    else IndexOfFrom(s, sub, from + 1)
  }

  /** `s.indexOf(sub)`, with `None` for -1. */
  function IndexOf(s: string, sub: string): (r: Option<nat>)
    ensures r.Some? ==> OccursAt(s, sub, r.value) && forall j: nat :: j < r.value ==> !OccursAt(s, sub, j)
    ensures r.None? ==> forall j: nat :: !OccursAt(s, sub, j)
  {
    IndexOfFrom(s, sub, 0)
  }

  /** `s.includes(sub)`: a case-sensitive substring test. */
  function Includes(s: string, sub: string): (b: bool)
    ensures b <==> exists j: nat :: OccursAt(s, sub, j)
  {
    IndexOf(s, sub).Some?
  }

  /**
   * `s.replace(pat, rep)` with a string pattern: only the first occurrence is
   * replaced; `rep` is inserted literally.
   */
  function ReplaceFirst(s: string, pat: string, rep: string): (r: string)
    ensures !Includes(s, pat) ==> r == s
    ensures Includes(s, pat) ==>
      var i := IndexOf(s, pat).value;
      && (forall j: nat :: j < i ==> !OccursAt(s, pat, j))
      && r == s[..i] + rep + s[i + |pat|..]
    ensures Includes(s, pat) ==> |r| == |s| - |pat| + |rep|
  {
    match IndexOf(s, pat)
    case None => s
    case Some(i) => s[..i] + rep + s[i + |pat|..]
  }

  // ---------------------------------------------------------------------
  // Case-insensitive global replace: `s.replace(new RegExp(pat, 'gi'), rep)`
  // for a pattern with no regular-expression metacharacters.
  // ---------------------------------------------------------------------

  /** ASCII case folding. */
  function Lower(c: char): char {
    if 'A' <= c <= 'Z' then (c as int + 32) as char else c
  }

  /** `pat` matches `s` at `i` up to case: each character agrees once folded. */
  predicate MatchesAtIgnoreCase(s: string, pat: string, i: nat) {
    i + |pat| <= |s| && AgreesFrom(s, pat, i, 0)
  }

  /** The characters of `pat` from `k` on agree, once folded, with those of `s` from `i + k` on. */
  predicate AgreesFrom(s: string, pat: string, i: nat, k: nat)
    requires i + |pat| <= |s|
    decreases |pat| - k
  {
    k >= |pat| || (Lower(s[i + k]) == Lower(pat[k]) && AgreesFrom(s, pat, i, k + 1))
  }

  /** Agreement from `k` on holds exactly when every later position agrees. */
  lemma {:induction false} AgreesFromAll(s: string, pat: string, i: nat, k: nat)
    requires i + |pat| <= |s|
    ensures AgreesFrom(s, pat, i, k) <==> forall m :: k <= m < |pat| ==> Lower(s[i + m]) == Lower(pat[m])
    decreases |pat| - k
  {
    if k < |pat| {
      AgreesFromAll(s, pat, i, k + 1);
    }
  }

  /**
   * `s.replace(new RegExp(pat, 'gi'), rep)`: every non-overlapping
   * case-insensitive match, left to right, becomes `rep`.
   */
  function ReplaceAllIgnoreCase(s: string, pat: string, rep: string): (r: string)
    ensures pat != [] && |rep| == |pat| ==> |r| == |s|
  {
    ScanReplace(s, pat, rep, 0)
  }

  /**
   * The replace scan from index `from`. An empty pattern matches at every
   * position (before each character and at the end), as a global empty
   * regular expression does.
   */
  function ScanReplace(s: string, pat: string, rep: string, from: nat): (r: string)
    requires from <= |s|
    decreases |s| - from
    ensures pat != [] && |rep| == |pat| ==> |r| == |s| - from
  {
    if pat == [] then
      rep + (if from == |s| then [] else [s[from]] + ScanReplace(s, pat, rep, from + 1))
    else if from + |pat| > |s| then s[from..]
    else if MatchesAtIgnoreCase(s, pat, from) then rep + ScanReplace(s, pat, rep, from + |pat|)
    else [s[from]] + ScanReplace(s, pat, rep, from + 1)
  }

  /** Without any match at or after `from`, the scan copies the rest of the text. */
  lemma {:induction false} ScanWithoutMatch(s: string, pat: string, rep: string, from: nat)
    requires pat != [] && from <= |s|
    requires forall j: nat :: from <= j ==> !MatchesAtIgnoreCase(s, pat, j)
    ensures ScanReplace(s, pat, rep, from) == s[from..]
    decreases |s| - from
  {
    if from + |pat| <= |s| {
      assert !MatchesAtIgnoreCase(s, pat, from);
      ScanWithoutMatch(s, pat, rep, from + 1);
      assert [s[from]] + s[from + 1..] == s[from..];
    }
  }

  /** Without any match the text comes back unchanged. */
  lemma ReplaceAllWithoutMatch(s: string, pat: string, rep: string)
    requires pat != []
    requires forall i: nat :: !MatchesAtIgnoreCase(s, pat, i)
    ensures ReplaceAllIgnoreCase(s, pat, rep) == s
  {
    ScanWithoutMatch(s, pat, rep, 0);
  }

  /** An exact occurrence is a match up to case. */
  lemma ExactIsMatchIgnoreCase(s: string, pat: string, i: nat)
    requires OccursAt(s, pat, i)
    ensures MatchesAtIgnoreCase(s, pat, i)
  {
    forall m | 0 <= m < |pat|
      ensures Lower(s[i + m]) == Lower(pat[m])
    {
      assert s[i + m] == s[i..i + |pat|][m];
    }
    AgreesFromAll(s, pat, i, 0);
  }

  /**
   * From `from`, the scan keeps everything before the first match at `i`,
   * turns that match into `rep`, and resumes right after it, so matches never
   * overlap.
   */
  lemma {:induction false} ScanAtFirstMatch(s: string, pat: string, rep: string, from: nat, i: nat)
    requires pat != [] && from <= i && MatchesAtIgnoreCase(s, pat, i)
    requires forall j: nat :: from <= j < i ==> !MatchesAtIgnoreCase(s, pat, j)
    ensures ScanReplace(s, pat, rep, from) == s[from..i] + rep + ScanReplace(s, pat, rep, i + |pat|)
    decreases i - from
  {
    if from == i {
      ScanHead(s, pat, rep, from);
      NilStep(ScanReplace(s, pat, rep, from), s[from..i], rep, ScanReplace(s, pat, rep, i + |pat|));
    } else {
      ScanAtFirstMatch(s, pat, rep, from + 1, i);
      ScanStepBeforeMatch(s, pat, rep, from, i);
    }
  }

  /** The inductive step of `ScanAtFirstMatch`: a non-matching position is kept. */
  lemma ScanStepBeforeMatch(s: string, pat: string, rep: string, from: nat, i: nat)
    requires pat != [] && from < i && i + |pat| <= |s| && !MatchesAtIgnoreCase(s, pat, from)
    requires ScanReplace(s, pat, rep, from + 1) == s[from + 1..i] + rep + ScanReplace(s, pat, rep, i + |pat|)
    ensures ScanReplace(s, pat, rep, from) == s[from..i] + rep + ScanReplace(s, pat, rep, i + |pat|)
  {
    ScanSkip(s, pat, rep, from);
    SliceCons(s, from, i);
    ConsStep(ScanReplace(s, pat, rep, from), ScanReplace(s, pat, rep, from + 1), s[from], s[from + 1..i], rep,
      ScanReplace(s, pat, rep, i + |pat|), s[from..i]);
  }

  /** A match at `from` becomes `rep` and the scan resumes after it. */
  lemma ScanHead(s: string, pat: string, rep: string, from: nat)
    requires pat != [] && MatchesAtIgnoreCase(s, pat, from)
    ensures ScanReplace(s, pat, rep, from) == rep + ScanReplace(s, pat, rep, from + |pat|)
  {
  }

  /** Without a match at `from`, the character there is kept. */
  lemma ScanSkip(s: string, pat: string, rep: string, from: nat)
    requires pat != [] && from + |pat| <= |s| && !MatchesAtIgnoreCase(s, pat, from)
    ensures ScanReplace(s, pat, rep, from) == [s[from]] + ScanReplace(s, pat, rep, from + 1)
  {
  }

  /**
   * The whole replace: the text before the first match, `rep`, then the scan
   * of the text after that match.
   */
  lemma ReplaceAllAtFirstMatch(s: string, pat: string, rep: string, i: nat)
    requires pat != [] && MatchesAtIgnoreCase(s, pat, i)
    requires forall j: nat :: j < i ==> !MatchesAtIgnoreCase(s, pat, j)
    ensures ReplaceAllIgnoreCase(s, pat, rep) == s[..i] + rep + ScanReplace(s, pat, rep, i + |pat|)
  {
    ScanAtFirstMatch(s, pat, rep, 0, i);
    assert s[0..i] == s[..i];
  }

  /** With exactly one match, at `i`, the result is the text with that match replaced. */
  lemma ReplaceAllSingleMatch(s: string, pat: string, rep: string, i: nat)
    requires pat != [] && MatchesAtIgnoreCase(s, pat, i)
    requires forall j: nat :: j != i ==> !MatchesAtIgnoreCase(s, pat, j)
    ensures ReplaceAllIgnoreCase(s, pat, rep) == s[..i] + rep + s[i + |pat|..]
  {
    ReplaceAllAtFirstMatch(s, pat, rep, i);
    ScanWithoutMatch(s, pat, rep, i + |pat|);
    TailStep(ReplaceAllIgnoreCase(s, pat, rep), s[..i], rep, ScanReplace(s, pat, rep, i + |pat|), s[i + |pat|..]);
  }

  /**
   * When the only match up to case is an exact occurrence, the global
   * case-insensitive replace and the first-occurrence `replace` agree.
   */
  lemma ReplaceAllAgreesWithReplaceFirst(s: string, pat: string, rep: string, i: nat)
    requires pat != [] && OccursAt(s, pat, i)
    requires forall j: nat :: j != i ==> !MatchesAtIgnoreCase(s, pat, j)
    ensures ReplaceAllIgnoreCase(s, pat, rep) == ReplaceFirst(s, pat, rep)
  {
    ExactIsMatchIgnoreCase(s, pat, i);
    ReplaceAllSingleMatch(s, pat, rep, i);
    assert Includes(s, pat);
    var k := IndexOf(s, pat).value;
    ExactIsMatchIgnoreCase(s, pat, k);
    assert ReplaceFirst(s, pat, rep) == s[..i] + rep + s[i + |pat|..];
  }

  /** The correction `NBC` to `NBA` applied to `"the NBC player scored"`. */
  lemma NbcBecomesNba()
    ensures ReplaceAllIgnoreCase("the NBC player scored", "NBC", "NBA") == "the NBA player scored"
  {
    var s := "the NBC player scored";
    NbcOnlyAtFour(s);
    ReplaceAllSingleMatch(s, "NBC", "NBA", 4);
    NbcSpliced(s);
  }

  /** `NBC` matches that text at index 4 and nowhere else, in any case. */
  lemma NbcOnlyAtFour(s: string)
    requires s == "the NBC player scored"
    ensures MatchesAtIgnoreCase(s, "NBC", 4)
    ensures forall j: nat :: j != 4 ==> !MatchesAtIgnoreCase(s, "NBC", j)
  {
    forall j: nat | j != 4
      ensures !MatchesAtIgnoreCase(s, "NBC", j)
    {
      if j + 3 <= |s| {
        assert Lower(s[j]) != Lower("NBC"[0]);
      }
    }
    assert AgreesFrom(s, "NBC", 4, 3);
  }

  lemma NbcSpliced(s: string)
    requires s == "the NBC player scored"
    ensures s[..4] + "NBA" + s[4 + |"NBC"|..] == "the NBA player scored"
  {
  }

  // ---------------------------------------------------------------------
  // split(' ') and join(' ')
  // ---------------------------------------------------------------------

  /** `parts.join(sep)`. */
  function Join(parts: seq<string>, sep: string): (r: string)
  {
    if |parts| == 0 then []
    else if |parts| == 1 then parts[0]
    else parts[0] + sep + Join(parts[1..], sep)
  }

  /** `s.split(sep)` for a one-character separator; never empty (`"".split(' ')` is `[""]`). */
  function Split(s: string, sep: char): (r: seq<string>)
    ensures |r| >= 1
    ensures forall i :: 0 <= i < |r| ==> sep !in r[i]
    ensures Join(r, [sep]) == s
    decreases |s|
  {
    if s == [] then [[]]
    else
      var rest := Split(s[1..], sep);
      if s[0] == sep then
        assert Join([[]] + rest, [sep]) == [] + [sep] + Join(rest, [sep]) by {
          assert ([[]] + rest)[1..] == rest;
        }
        [[]] + rest
      else
        var r := [[s[0]] + rest[0]] + rest[1..];
        assert Join(r, [sep]) == s by {
          if |rest| == 1 {
            assert [s[0]] + s[1..] == s;
          } else {
            assert r[1..] == rest[1..];
            assert Join(rest, [sep]) == rest[0] + [sep] + Join(rest[1..], sep := [sep]);
            assert [s[0]] + s[1..] == s;
          }
        }
        r
  }

  lemma {:induction false} SplitWithoutSeparator(a: string, sep: char)
    requires sep !in a
    ensures Split(a, sep) == [a]
    decreases |a|
  {
    if a != [] {
      SplitWithoutSeparator(a[1..], sep);
      assert [a[0]] + a[1..] == a;
    }
  }

  /** Splitting at a separator splits the pieces independently. */
  lemma {:induction false} SplitConcat(a: string, b: string, sep: char)
    ensures Split(a + [sep] + b, sep) == Split(a, sep) + Split(b, sep)
    decreases |a|
  {
    if a == [] {
      assert a + [sep] + b == [sep] + b;
      assert ([sep] + b)[1..] == b;
    } else {
      var s := a + [sep] + b;
      assert s[0] == a[0];
      assert s[1..] == a[1..] + [sep] + b;
      SplitConcat(a[1..], b, sep);
    }
  }

  /** split undoes join when no part contains the separator. */
  lemma {:induction false} SplitJoin(parts: seq<string>, sep: char)
    requires |parts| >= 1
    requires forall i :: 0 <= i < |parts| ==> sep !in parts[i]
    ensures Split(Join(parts, [sep]), sep) == parts
    decreases |parts|
  {
    SplitWithoutSeparator(parts[0], sep);
    if |parts| > 1 {
      SplitJoin(parts[1..], sep);
      SplitConcat(parts[0], Join(parts[1..], [sep]), sep);
      assert [parts[0]] + parts[1..] == parts;
    }
  }

  // ---------------------------------------------------------------------
  // trim()
  // ---------------------------------------------------------------------

  /** ECMAScript WhiteSpace and LineTerminator code points (those `trim` removes). */
  predicate IsWhitespace(c: char) {
    || ('\U{0009}' <= c <= '\U{000D}')
    || c == ' ' || c == '\U{00A0}' || c == '\U{1680}'
    || ('\U{2000}' <= c <= '\U{200A}')
    || c == '\U{2028}' || c == '\U{2029}' || c == '\U{202F}' || c == '\U{205F}'
    || c == '\U{3000}' || c == '\U{FEFF}'
  }

  /** Number of leading whitespace characters. */
  function LeadingWhitespace(s: string): (k: nat)
    ensures k <= |s|
    ensures forall i :: 0 <= i < k ==> IsWhitespace(s[i])
    ensures k < |s| ==> !IsWhitespace(s[k])
  {
    if s == [] || !IsWhitespace(s[0]) then 0 else 1 + LeadingWhitespace(s[1..])
  }

  /** Number of trailing whitespace characters. */
  function TrailingWhitespace(s: string): (k: nat)
    ensures k <= |s|
    ensures forall i :: |s| - k <= i < |s| ==> IsWhitespace(s[i])
    ensures k < |s| ==> !IsWhitespace(s[|s| - k - 1])
  {
    if s == [] || !IsWhitespace(s[|s| - 1]) then 0 else 1 + TrailingWhitespace(s[..|s| - 1])
  }

  /** `s.trim()`: the longest slice with no whitespace at either end. */
  function Trim(s: string): (r: string)
    ensures r == [] <==> forall i :: 0 <= i < |s| ==> IsWhitespace(s[i])
    ensures r != [] ==> !IsWhitespace(r[0]) && !IsWhitespace(r[|r| - 1])
    ensures var a := LeadingWhitespace(s);
      && a + |r| <= |s| && s[a..a + |r|] == r
      && (forall i :: 0 <= i < a ==> IsWhitespace(s[i]))
      && (forall i :: a + |r| <= i < |s| ==> IsWhitespace(s[i]))
  {
    TrimSlice(s);
    TrimEmpty(s);
    TrimEnds(s);
    Stripped(s)
  }

  /** The leading whitespace removed, then the trailing whitespace of what remains. */
  function Stripped(s: string): string {
    var t := s[LeadingWhitespace(s)..];
    t[..|t| - TrailingWhitespace(t)]
  }

  lemma TrimSlice(s: string)
    ensures var a := LeadingWhitespace(s); var r := Stripped(s);
      && a + |r| <= |s| && s[a..a + |r|] == r
      && (forall i :: a + |r| <= i < |s| ==> IsWhitespace(s[i]))
  {
    var a := LeadingWhitespace(s);
    var t := s[a..];
    var m := |t| - TrailingWhitespace(t);
    SliceOfSuffix(s, a, m);
    TrimTail(s, a, t, m);
  }

  lemma TrimTail(s: string, a: nat, t: string, m: nat)
    requires a <= |s| && t == s[a..] && m == |t| - TrailingWhitespace(t)
    ensures forall i :: a + m <= i < |s| ==> IsWhitespace(s[i])
  {
    forall i | a + m <= i < |s|
      ensures IsWhitespace(s[i])
    {
      assert s[i] == t[i - a];
    }
  }

  lemma TrimEmpty(s: string)
    ensures Stripped(s) == [] <==> forall i :: 0 <= i < |s| ==> IsWhitespace(s[i])
  {
    var a := LeadingWhitespace(s);
    var t := s[a..];
    if a < |s| {
      assert !IsWhitespace(t[0]);
      assert TrailingWhitespace(t) < |t|;
    }
  }

  lemma TrimEnds(s: string)
    ensures Stripped(s) != [] ==> !IsWhitespace(Stripped(s)[0]) && !IsWhitespace(Stripped(s)[|Stripped(s)| - 1])
  {
    var a := LeadingWhitespace(s);
    var t := s[a..];
    var r := Stripped(s);
    if r != [] {
      assert r[0] == s[a];
      assert r[|r| - 1] == t[|t| - TrailingWhitespace(t) - 1];
    }
  }
}

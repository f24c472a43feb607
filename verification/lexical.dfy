/**
  The local lexical filter shared by the content script (`applyBasicFilter`)
  and the text backend (`applyBasicTextFilter`).

  Each listed word is matched by the JavaScript pattern `\bword\b` with the
  flags `gi` and every match is replaced by `'*'` repeated to the word's length.
  Without the `u` flag a word character is `[A-Za-z0-9_]` and case-insensitive
  comparison folds ASCII letters only, so `Fold` lower-cases `A`..`Z` and
  nothing else. Strings here are sequences of Unicode scalar values while the
  pattern sees UTF-16 code units; a character outside the Basic Multilingual
  Plane is a surrogate pair whose halves are neither word characters nor
  letters, so matching and masking are the same on either view. Where the
  code compares a length, `Page.Utf16Len` counts code units.
 */
module Lexical {

  /** The fixed word list, in the order the filters apply it. */
  const ExplicitWords: seq<string> := ["explicit", "offensive", "profane", "vulgar", "obscene"]

  /** The replacement character. */
  const Mask: char := '*'

  /** A character that `\b` treats as part of a word. */
  predicate IsWordChar(c: char) {
    ('a' <= c <= 'z') || ('A' <= c <= 'Z') || ('0' <= c <= '9') || c == '_'
  }

  /** ASCII-only case folding, as the `i` flag applies it to these patterns. */
  function Fold(c: char): char {
    if 'A' <= c <= 'Z' then (c as int + 32) as char else c
  }

  /** A term whose pattern `\bterm\b` has no metacharacters: word characters only. */
  predicate PlainWord(w: string) {
    forall k :: 0 <= k < |w| ==> IsWordChar(w[k])
  }

  /** A non-empty plain word already in folded form, like every entry of `ExplicitWords`. */
  predicate CanonicalWord(w: string) {
    0 < |w| && forall k :: 0 <= k < |w| ==> IsWordChar(w[k]) && Fold(w[k]) == w[k]
  }

  /** No two entries of a list are the same word. */
  predicate Distinct(ws: seq<string>) {
    forall a, b :: 0 <= a < b < |ws| ==> ws[a] != ws[b]
  }

  predicate CanonicalList(ws: seq<string>) {
    (forall a :: 0 <= a < |ws| ==> CanonicalWord(ws[a])) && Distinct(ws)
  }

  /**
    `\bw\b` (case-insensitive) matches `s` at position `i`. For a plain word
    the boundary before the first character holds exactly when the preceding
    character is not a word character, and likewise after the last one.
   */
  predicate MatchAt(s: string, w: string, i: int) {
    && 0 < |w| && 0 <= i && i + |w| <= |s|
    && (forall k :: 0 <= k < |w| ==> Fold(s[i + k]) == Fold(w[k]))
    && (i == 0 || !IsWordChar(s[i - 1]))
    && (i + |w| == |s| || !IsWordChar(s[i + |w|]))
  }

  /** Position `k` lies inside some match of `w` starting at or after `i`. */
  predicate HitFrom(s: string, w: string, i: int, k: int) {
    exists j | i <= j <= k :: MatchAt(s, w, j) && k < j + |w|
  }

  /** Position `k` lies inside some whole-word match of `w`. */
  predicate Hit(s: string, w: string, k: int) {
    HitFrom(s, w, 0, k)
  }

  /** Position `k` lies inside a match of some word of `ws`. */
  predicate HitAny(s: string, ws: seq<string>, k: int) {
    exists a | 0 <= a < |ws| :: Hit(s, ws[a], k)
  }

  /** `w` occurs in `s` as a whole word. */
  predicate Occurs(s: string, w: string) {
    exists j | 0 <= j <= |s| :: MatchAt(s, w, j)
  }

  /** `t` is `s` with exactly the positions covered by matches of `ws` masked. */
  predicate MaskedBy(s: string, t: string, ws: seq<string>) {
    |t| == |s| && forall k | 0 <= k < |s| :: t[k] == (if HitAny(s, ws, k) then Mask else s[k])
  }

  function Stars(n: nat): (r: string)
    ensures |r| == n
    ensures forall k :: 0 <= k < n ==> r[k] == Mask
  {
    if n == 0 then [] else [Mask] + Stars(n - 1)
  }

  /**
    One global `replace` of `\bw\b`: the scan tries a match at each position,
    and after a match resumes just past it, as the regular-expression engine
    does. An empty `w` never matches, which is also what replacing the empty
    pattern by the empty string amounts to.
   */
  function ReplaceFrom(s: string, w: string, i: nat): (r: string)
    requires i <= |s|
    ensures |r| == |s| - i
    decreases |s| - i
  {
    if i == |s| then []
    else if MatchAt(s, w, i) then Stars(|w|) + ReplaceFrom(s, w, i + |w|)
    else [s[i]] + ReplaceFrom(s, w, i + 1)
  }

  function ReplaceWord(s: string, w: string): (r: string)
    ensures |r| == |s|
  {
    ReplaceFrom(s, w, 0)
  }

  /** The words of `ws` applied one after another, first word first. */
  function MaskWords(s: string, ws: seq<string>): (r: string)
    ensures |r| == |s|
  {
    if ws == [] then s else ReplaceWord(MaskWords(s, ws[..|ws| - 1]), ws[|ws| - 1])
  }

  /** `applyBasicFilter` of the content script. */
  function ApplyBasicFilter(text: string): string {
    MaskWords(text, ExplicitWords)
  }

  // ---------------------------------------------------------------------------
  // Matching facts

  lemma FoldKeepsWordChar(c: char, d: char)
    requires Fold(c) == Fold(d) && IsWordChar(d)
    ensures IsWordChar(c) && c != Mask
  {
  }

  lemma ExplicitWordsCanonical()
    ensures CanonicalList(ExplicitWords)
  {
  }

  /** Every character inside a match of a plain word is a word character. */
  lemma MatchIsWordChars(s: string, w: string, j: int, k: int)
    requires PlainWord(w) && MatchAt(s, w, j) && j <= k < j + |w|
    ensures IsWordChar(s[k]) && s[k] != Mask
  {
    FoldKeepsWordChar(s[k], w[k - j]);
  }

  /** A match of a plain word cannot start strictly inside another match. */
  lemma NoStartInside(s: string, w1: string, w2: string, i: int, j: int)
    requires PlainWord(w1) && MatchAt(s, w1, i) && i < j < i + |w1|
    ensures !MatchAt(s, w2, j)
  {
    MatchIsWordChars(s, w1, i, j - 1);
  }

  /** Matches of two canonical words that share a position are matches of the same word. */
  lemma Disjoint(s: string, w1: string, w2: string, m: int, j: int, k: int)
    requires CanonicalWord(w1) && CanonicalWord(w2)
    requires MatchAt(s, w1, m) && m <= k < m + |w1|
    requires MatchAt(s, w2, j) && j <= k < j + |w2|
    ensures w1 == w2
  {
    if m < j {
      NoStartInside(s, w1, w2, m, j);
    } else if j < m {
      NoStartInside(s, w2, w1, j, m);
    } else if |w1| < |w2| {
      MatchIsWordChars(s, w2, j, m + |w1|);
    } else if |w2| < |w1| {
      MatchIsWordChars(s, w1, m, j + |w2|);
    } else {
      forall q | 0 <= q < |w1|
        ensures w1[q] == w2[q]
      {
        assert Fold(s[m + q]) == Fold(w1[q]) == w1[q];
        assert Fold(s[m + q]) == Fold(w2[q]) == w2[q];
      }
    }
  }

  // ---------------------------------------------------------------------------
  // One global replace

  lemma HitFromAdvance(s: string, w: string, i: int, k: int)
    requires i < k && !MatchAt(s, w, i)
    ensures HitFrom(s, w, i, k) == HitFrom(s, w, i + 1, k)
  {
    if HitFrom(s, w, i, k) {
      var j :| i <= j <= k && MatchAt(s, w, j) && k < j + |w|;
      assert i + 1 <= j;
    }
  }

  lemma HitFromSkip(s: string, w: string, i: int, k: int)
    requires PlainWord(w) && MatchAt(s, w, i) && i + |w| <= k
    ensures HitFrom(s, w, i, k) == HitFrom(s, w, i + |w|, k)
  {
    if HitFrom(s, w, i, k) {
      var j :| i <= j <= k && MatchAt(s, w, j) && k < j + |w|;
      if j < i + |w| {
        NoStartInside(s, w, w, i, j);
      }
    }
  }

  /** What the scan leaves at each position: a mask inside a match, the input elsewhere. */
  lemma {:induction false} ReplaceFromAt(s: string, w: string, i: nat, k: int)
    requires PlainWord(w) && i <= k < |s|
    ensures ReplaceFrom(s, w, i)[k - i] == (if HitFrom(s, w, i, k) then Mask else s[k])
    decreases |s| - i
  {
    var r := ReplaceFrom(s, w, i);
    if MatchAt(s, w, i) {
      var rest := ReplaceFrom(s, w, i + |w|);
      assert r == Stars(|w|) + rest;
      if k < i + |w| {
        assert r[k - i] == Mask;
        assert HitFrom(s, w, i, k);
      } else {
        ReplaceFromAt(s, w, i + |w|, k);
        HitFromSkip(s, w, i, k);
        assert r[k - i] == rest[k - (i + |w|)];
      }
    } else {
      var rest := ReplaceFrom(s, w, i + 1);
      assert r == [s[i]] + rest;
      if k == i {
        assert !HitFrom(s, w, i, k);
      } else {
        ReplaceFromAt(s, w, i + 1, k);
        HitFromAdvance(s, w, i, k);
        assert r[k - i] == rest[k - (i + 1)];
      }
    }
  }

  lemma HitAnySingleton(s: string, w: string, k: int)
    ensures HitAny(s, [w], k) == Hit(s, w, k)
  {
    assert [w][0] == w;
  }

  /** A single global replace masks exactly the positions covered by matches. */
  lemma ReplaceWordMasks(s: string, w: string)
    requires CanonicalWord(w)
    ensures MaskedBy(s, ReplaceWord(s, w), [w])
  {
    forall k | 0 <= k < |s|
      ensures ReplaceWord(s, w)[k] == (if HitAny(s, [w], k) then Mask else s[k])
    {
      ReplaceFromAt(s, w, 0, k);
      HitAnySingleton(s, w, k);
    }
  }

  /** A replace with any plain term changes characters only into masks. */
  lemma ReplaceWordOnlyMasks(s: string, w: string)
    requires PlainWord(w)
    ensures forall k :: 0 <= k < |s| ==> ReplaceWord(s, w)[k] in {s[k], Mask}
    ensures forall k :: 0 <= k < |s| && s[k] == Mask ==> ReplaceWord(s, w)[k] == Mask
    ensures !Occurs(s, w) ==> ReplaceWord(s, w) == s
  {
    forall k | 0 <= k < |s|
      ensures ReplaceWord(s, w)[k] == (if Hit(s, w, k) then Mask else s[k])
    {
      ReplaceFromAt(s, w, 0, k);
    }
    if !Occurs(s, w) {
      assert forall k | 0 <= k < |s| :: ReplaceWord(s, w)[k] == s[k];
    }
  }

  /**
    Replacing any list of plain terms one after another only turns characters
    into masks, and never unmasks a character.
   */
  lemma {:induction false} MaskWordsOnlyMasks(s: string, ws: seq<string>)
    requires forall a :: 0 <= a < |ws| ==> PlainWord(ws[a])
    ensures forall k :: 0 <= k < |s| ==> MaskWords(s, ws)[k] in {s[k], Mask}
    ensures forall k :: 0 <= k < |s| && s[k] == Mask ==> MaskWords(s, ws)[k] == Mask
  {
    if ws != [] {
      var u := MaskWords(s, ws[..|ws| - 1]);
      MaskWordsOnlyMasks(s, ws[..|ws| - 1]);
      ReplaceWordOnlyMasks(u, ws[|ws| - 1]);
    }
  }

  // ---------------------------------------------------------------------------
  // Masking keeps the matches of the words it did not mask

  /** A masked position of `MaskedBy` and the match that covers it. */
  lemma PickHit(s: string, t: string, ws: seq<string>, k: int) returns (a: int, m: int)
    requires MaskedBy(s, t, ws) && 0 <= k < |s| && t[k] != s[k]
    ensures 0 <= a < |ws| && MatchAt(s, ws[a], m) && m <= k < m + |ws[a]|
  {
    assert HitAny(s, ws, k);
    a :| 0 <= a < |ws| && Hit(s, ws[a], k);
    m :| 0 <= m <= k && MatchAt(s, ws[a], m) && k < m + |ws[a]|;
  }

  /** Inside a match found after masking, nothing was masked. */
  lemma MaskedMatchInterior(s: string, t: string, ws: seq<string>, w: string, j: int)
    requires MaskedBy(s, t, ws) && CanonicalWord(w) && MatchAt(t, w, j)
    ensures forall k | j <= k < j + |w| :: t[k] == s[k] && !HitAny(s, ws, k)
  {
    forall k | j <= k < j + |w|
      ensures t[k] == s[k] && !HitAny(s, ws, k)
    {
      MatchIsWordChars(t, w, j, k);
    }
  }

  /** A word character of the masked text is the original character. */
  lemma MaskedWordChar(s: string, t: string, ws: seq<string>, k: int)
    requires MaskedBy(s, t, ws) && 0 <= k < |s| && IsWordChar(t[k])
    ensures t[k] == s[k] && !HitAny(s, ws, k)
  {
  }

  /** Masking never creates the boundary in front of a match. */
  lemma MaskedMatchStart(s: string, t: string, ws: seq<string>, w: string, j: int)
    requires MaskedBy(s, t, ws) && CanonicalWord(w)
    requires MatchAt(t, w, j) && j > 0
    ensures t[j - 1] == s[j - 1]
  {
    if t[j - 1] != s[j - 1] {
      var a, m := PickHit(s, t, ws, j - 1);
      MatchIsWordChars(t, w, j, j);
      MaskedWordChar(s, t, ws, j);
    }
  }

  /** Masking never creates the boundary after a match. */
  lemma MaskedMatchEnd(s: string, t: string, ws: seq<string>, w: string, j: int)
    requires MaskedBy(s, t, ws) && CanonicalWord(w)
    requires MatchAt(t, w, j) && j + |w| < |t|
    ensures t[j + |w|] == s[j + |w|]
  {
    var e := j + |w|;
    if t[e] != s[e] {
      var a, m := PickHit(s, t, ws, e);
      MatchIsWordChars(t, w, j, e - 1);
      MaskedWordChar(s, t, ws, e - 1);
    }
  }

  /** A match found after masking was already a match before it. */
  lemma MaskedMatchIsOriginal(s: string, t: string, ws: seq<string>, w: string, j: int)
    requires MaskedBy(s, t, ws) && CanonicalList(ws) && CanonicalWord(w)
    requires MatchAt(t, w, j)
    ensures MatchAt(s, w, j)
  {
    MaskedMatchInterior(s, t, ws, w, j);
    if j > 0 {
      MaskedMatchStart(s, t, ws, w, j);
    }
    if j + |w| < |t| {
      MaskedMatchEnd(s, t, ws, w, j);
    }
  }

  /** A match of a word outside `ws` survives masking by `ws`. */
  lemma {:induction false} OriginalMatchSurvives(s: string, t: string, ws: seq<string>, w: string, j: int)
    requires MaskedBy(s, t, ws) && CanonicalList(ws) && CanonicalWord(w) && w !in ws
    requires MatchAt(s, w, j)
    ensures MatchAt(t, w, j)
  {
    forall k | j <= k < j + |w|
      ensures t[k] == s[k]
    {
      if HitAny(s, ws, k) {
        var a :| 0 <= a < |ws| && Hit(s, ws[a], k);
        var m :| 0 <= m <= k && MatchAt(s, ws[a], m) && k < m + |ws[a]|;
        Disjoint(s, ws[a], w, m, j, k);
      }
    }
  }

  lemma HitUnchanged(s: string, t: string, ws: seq<string>, w: string, k: int)
    requires MaskedBy(s, t, ws) && CanonicalList(ws) && CanonicalWord(w) && w !in ws
    ensures Hit(t, w, k) <==> Hit(s, w, k)
  {
    if Hit(t, w, k) {
      var j :| 0 <= j <= k && MatchAt(t, w, j) && k < j + |w|;
      MaskedMatchIsOriginal(s, t, ws, w, j);
    }
    if Hit(s, w, k) {
      var j :| 0 <= j <= k && MatchAt(s, w, j) && k < j + |w|;
      OriginalMatchSurvives(s, t, ws, w, j);
    }
  }

  lemma OccursUnchanged(s: string, t: string, ws: seq<string>, w: string)
    requires MaskedBy(s, t, ws) && CanonicalList(ws) && CanonicalWord(w) && w !in ws
    ensures Occurs(t, w) <==> Occurs(s, w)
  {
    if Occurs(t, w) {
      var j :| 0 <= j <= |t| && MatchAt(t, w, j);
      MaskedMatchIsOriginal(s, t, ws, w, j);
    }
    if Occurs(s, w) {
      var j :| 0 <= j <= |s| && MatchAt(s, w, j);
      OriginalMatchSurvives(s, t, ws, w, j);
    }
  }

  // ---------------------------------------------------------------------------
  // The whole word list

  /**
    Applying the words one after another masks exactly the positions covered
    by a whole-word occurrence, in the ORIGINAL text, of some listed word.
   */
  lemma {:induction false} MaskWordsMasks(s: string, ws: seq<string>)
    requires CanonicalList(ws)
    ensures MaskedBy(s, MaskWords(s, ws), ws)
  {
    if ws != [] {
      var init, w := ws[..|ws| - 1], ws[|ws| - 1];
      var u := MaskWords(s, init);
      assert CanonicalList(init);
      MaskWordsMasks(s, init);
      assert w !in init;
      ReplaceWordMasks(u, w);
      forall k | 0 <= k < |s|
        ensures MaskWords(s, ws)[k] == (if HitAny(s, ws, k) then Mask else s[k])
      {
        HitUnchanged(s, u, init, w, k);
        HitAnySingleton(u, w, k);
        if HitAny(s, init, k) {
          var a :| 0 <= a < |init| && Hit(s, init[a], k);
          assert Hit(s, ws[a], k);
        }
        if Hit(s, w, k) {
          assert Hit(s, ws[|ws| - 1], k);
        }
        if HitAny(s, ws, k) {
          var a :| 0 <= a < |ws| && Hit(s, ws[a], k);
          if a < |ws| - 1 {
            assert Hit(s, init[a], k);
          }
        }
      }
    }
  }

  /** `applyBasicFilter` masks exactly the whole-word occurrences of the listed words. */
  lemma BasicFilterMasks(text: string)
    ensures MaskedBy(text, ApplyBasicFilter(text), ExplicitWords)
  {
    ExplicitWordsCanonical();
    MaskWordsMasks(text, ExplicitWords);
  }

  /** Some listed word occurs in `s` as a whole word. */
  predicate AnyOccurs(s: string, ws: seq<string>) {
    exists a | 0 <= a < |ws| :: Occurs(s, ws[a])
  }

  /** A masking pass leaves its input unchanged exactly when none of its words occurs. */
  lemma MaskedIdentity(s: string, t: string, ws: seq<string>)
    requires MaskedBy(s, t, ws) && CanonicalList(ws)
    ensures t == s <==> !AnyOccurs(s, ws)
  {
    if AnyOccurs(s, ws) {
      var a :| 0 <= a < |ws| && Occurs(s, ws[a]);
      var j :| 0 <= j <= |s| && MatchAt(s, ws[a], j);
      assert Hit(s, ws[a], j);
      assert HitAny(s, ws, j);
      MatchIsWordChars(s, ws[a], j, j);
      assert t[j] != s[j];
    } else {
      assert forall k | 0 <= k < |s| :: t[k] == s[k];
    }
  }

  /** A masked text contains none of the words that were masked. */
  lemma MaskedHasNoOccurrence(s: string, t: string, ws: seq<string>)
    requires MaskedBy(s, t, ws) && CanonicalList(ws)
    ensures !AnyOccurs(t, ws)
  {
    if AnyOccurs(t, ws) {
      var a :| 0 <= a < |ws| && Occurs(t, ws[a]);
      var j :| 0 <= j <= |t| && MatchAt(t, ws[a], j);
      MaskedMatchIsOriginal(s, t, ws, ws[a], j);
      assert Hit(s, ws[a], j);
      assert HitAny(s, ws, j);
      MatchIsWordChars(t, ws[a], j, j);
      assert false;
    }
  }

  /** A text without word characters holds none of the listed words. */
  lemma NoWordCharNoWord(text: string)
    requires forall k :: 0 <= k < |text| ==> !IsWordChar(text[k])
    ensures !AnyOccurs(text, ExplicitWords)
  {
    if AnyOccurs(text, ExplicitWords) {
      var a :| 0 <= a < |ExplicitWords| && Occurs(text, ExplicitWords[a]);
      var j :| 0 <= j <= |text| && MatchAt(text, ExplicitWords[a], j);
      ExplicitWordsCanonical();
      MatchIsWordChars(text, ExplicitWords[a], j, j);
      assert false;
    }
  }

  /** The word "explicit" on its own is masked whole. */
  lemma ExplicitIsMasked()
    ensures AnyOccurs("explicit", ExplicitWords)
    ensures ApplyBasicFilter("explicit") == "********"
  {
    var text := "explicit";
    assert MatchAt(text, ExplicitWords[0], 0);
    assert Occurs(text, ExplicitWords[0]);
    var f := ApplyBasicFilter(text);
    BasicFilterMasks(text);
    forall k | 0 <= k < |text|
      ensures f[k] == Mask
    {
      assert HitFrom(text, ExplicitWords[0], 0, k);
      assert HitAny(text, ExplicitWords, k);
    }
  }

  /**
    The content script's only local-match signal, `filteredText !== text`,
    holds exactly when some listed word occurs as a whole word.
   */
  lemma BasicFilterIdentity(text: string)
    ensures ApplyBasicFilter(text) == text <==> !AnyOccurs(text, ExplicitWords)
  {
    ExplicitWordsCanonical();
    BasicFilterMasks(text);
    MaskedIdentity(text, ApplyBasicFilter(text), ExplicitWords);
  }

  /** The mask keeps the length, and every character is kept or masked. */
  lemma BasicFilterShape(text: string)
    ensures |ApplyBasicFilter(text)| == |text|
    ensures forall k :: 0 <= k < |text| ==> ApplyBasicFilter(text)[k] in {text[k], Mask}
  {
    BasicFilterMasks(text);
  }

  /** Filtering an already filtered text changes nothing. */
  lemma BasicFilterIdempotent(text: string)
    ensures ApplyBasicFilter(ApplyBasicFilter(text)) == ApplyBasicFilter(text)
  {
    var r := ApplyBasicFilter(text);
    ExplicitWordsCanonical();
    BasicFilterMasks(text);
    MaskedHasNoOccurrence(text, r, ExplicitWords);
    BasicFilterIdentity(r);
  }
}

/**
  Which occurrence a search returns (`_find_span` of llm_extraction.py) when there are several:
  the readings of the needle are tried one after the other, and of the first reading that
  occurs at all the leftmost place wins.
 */
module SpanChoice {
  import opened Text
  import opened CaseFolding
  import opened SpanSearch

  /** The word stands alone at `lo`, letter by letter or up to case. */
  ghost predicate WordAt(cs: Casing, text: string, word: string, exact: bool, lo: nat) {
    && word != "" && lo + |word| <= |text| && StandsAlone(text, lo, lo + |word|, word)
    && if exact then OccursAt(text, word, lo) else Lower(cs, text[lo..lo + |word|]) == Lower(cs, word)
  }

  ghost predicate HasWord(cs: Casing, text: string, word: string, exact: bool) {
    exists lo: nat :: WordAt(cs, text, word, exact, lo)
  }

  ghost predicate IsFirstWord(cs: Casing, text: string, word: string, exact: bool, r: Search) {
    && r.Found? && r.hi == r.lo + |word| && WordAt(cs, text, word, exact, r.lo)
    && forall lo: nat :: WordAt(cs, text, word, exact, lo) ==> r.lo <= lo
  }

  ghost predicate HasMention(cs: Casing, text: string, word: string) {
    exists lo, hi :: Mentions(cs, text, lo, hi, word)
  }

  ghost predicate IsFirstMention(cs: Casing, text: string, word: string, r: Search) {
    && r.Found? && Mentions(cs, text, r.lo, r.hi, word)
    && forall lo, hi :: Mentions(cs, text, lo, hi, word) ==> r.lo < lo || (r.lo == lo && r.hi == hi)
  }

  /**
    The leftmost place of the first reading that has one: the stripped needle verbatim, then up
    to case, then the needle with its blanks collapsed in the same two ways, then any place that
    mentions the search key.
   */
  ghost predicate IsChosen(cs: Casing, text: string, needle: string, r: Search) {
    var s := Strip(needle);
    var c := Collapse(s, false);
    if HasWord(cs, text, s, true) then IsFirstWord(cs, text, s, true, r)
    else if HasWord(cs, text, s, false) then IsFirstWord(cs, text, s, false, r)
    else if HasWord(cs, text, c, true) then IsFirstWord(cs, text, c, true, r)
    else if HasWord(cs, text, c, false) then IsFirstWord(cs, text, c, false, r)
    else if HasMention(cs, text, SearchKey(needle)) then IsFirstMention(cs, text, SearchKey(needle), r)
    else r == Missing
  }

  // ---- one scan

  /** What a scan finds is the first match that is not passed over. */
  lemma {:induction false} ScanFirst(text: string, needle: string, haystack: string, target: string,
                                     offsets: Option<seq<nat>>, from: nat)
    returns (index: nat)
    requires needle != "" && Scan(text, needle, haystack, target, offsets, from) != Missing
    ensures from <= index && OccursAt(haystack, target, index)
    ensures Judge(text, needle, offsets, index) == Some(Scan(text, needle, haystack, target, offsets, from))
    ensures forall j :: from <= j < index && OccursAt(haystack, target, j) ==> Judge(text, needle, offsets, j).None?
    decreases |haystack| + 1 - from
  {
    hide Judge, FindFrom, OccursAt;
    var first := FindFrom(haystack, target, from).value;
    index := first;
    if Judge(text, needle, offsets, first).None? {
      index := ScanFirst(text, needle, haystack, target, offsets, first + 1);
    }
  }

  // ---- the direct search

  /** A match of the direct search, seen in the raw text: it is the answer if it stands alone. */
  lemma DirectMatch(cs: Casing, text: string, word: string, exact: bool, i: nat)
    requires ValidCasing(cs) && KeepsLength(cs, text) && KeepsLength(cs, word) && Trimmed(word)
    ensures var haystack := if exact then text else Lower(cs, text);
      var target := if exact then word else Lower(cs, word);
      && (OccursAt(haystack, target, i) && Judge(text, word, None, i) == Some(Found(i, i + |word|)) <==>
            WordAt(cs, text, word, exact, i))
      && (OccursAt(haystack, target, i) && !WordAt(cs, text, word, exact, i) ==> Judge(text, word, None, i).None?)
  {
    hide IsSpace, TokenBoundaries, IsTokenChar, Lower, ValidCasing, KeepsLength, StandsAlone;
    LowerLength(cs, text);
    LowerLength(cs, word);
    if i + |word| <= |text| {
      LowerSlice(cs, text, i, i + |word|);
      BoundariesMeanStandsAlone(text, i, i + |word|, word);
    }
  }

  /** The direct search returns the leftmost place where the word stands alone. */
  lemma DirectIsFirst(cs: Casing, text: string, word: string, exact: bool)
    requires ValidCasing(cs) && KeepsLength(cs, text) && KeepsLength(cs, word) && Trimmed(word)
    ensures var r := DirectSpan(cs, text, word, exact);
      if HasWord(cs, text, word, exact) then IsFirstWord(cs, text, word, exact, r) else r == Missing
  {
    var haystack := if exact then text else Lower(cs, text);
    var target := if exact then word else Lower(cs, word);
    var r := DirectSpan(cs, text, word, exact);
    assert r == Scan(text, word, haystack, target, None, 0);
    hide *;
    if r == Missing {
      forall lo: nat ensures !WordAt(cs, text, word, exact, lo) {
        DirectMatch(cs, text, word, exact, lo);
        if OccursAt(haystack, target, lo) {
          ScanMissing(text, word, haystack, target, None, 0, lo);
        }
      }
      NoWord(cs, text, word, exact);
    } else {
      var i := ScanFirst(text, word, haystack, target, None, 0);
      DirectMatch(cs, text, word, exact, i);
      forall lo: nat | WordAt(cs, text, word, exact, lo) ensures i <= lo {
        DirectMatch(cs, text, word, exact, lo);
      }
      FirstWord(cs, text, word, exact, i);
    }
  }

  lemma NoWord(cs: Casing, text: string, word: string, exact: bool)
    requires forall lo: nat :: !WordAt(cs, text, word, exact, lo)
    ensures !HasWord(cs, text, word, exact)
  {}

  lemma FirstWord(cs: Casing, text: string, word: string, exact: bool, i: nat)
    requires WordAt(cs, text, word, exact, i) && forall lo: nat :: WordAt(cs, text, word, exact, lo) ==> i <= lo
    ensures HasWord(cs, text, word, exact) && IsFirstWord(cs, text, word, exact, Found(i, i + |word|))
  {
    hide WordAt;
  }

  // ---- the search in the normalised text

  /** It returns the leftmost mention of the search key. */
  lemma NormalizedIsFirst(cs: Casing, text: string, needle: string)
    requires ValidCasing(cs) && KeepsLength(cs, text) && KeepsLength(cs, needle)
    ensures var r := NormalizedSpan(cs, text, Collapse(Strip(needle), false));
      if HasMention(cs, text, SearchKey(needle)) then IsFirstMention(cs, text, SearchKey(needle), r) else r == Missing
  {
    var key, offsets := SearchKey(needle), NormalizedOffsets(text);
    var r := NormalizedSpan(cs, text, Collapse(Strip(needle), false));
    hide IsSpace, Collapse, Strip, Denul, KeepsLength, ValidCasing, Scan, Lower, TokenBoundaries, NormalizedText,
         NormalizedOffsets, NormalizedLength, IsTokenChar, IsBlank, Mentions, Judge, SearchKey;
    NormalizedSound(cs, text, needle);
    if r != Missing {
      assert Mentions(cs, text, r.lo, r.hi, key);
      forall lo, hi | Mentions(cs, text, lo, hi, key) ensures r.lo < lo || (r.lo == lo && r.hi == hi) {
        NotBefore(cs, text, needle, lo, hi);
      }
    } else {
      forall lo, hi ensures !Mentions(cs, text, lo, hi, key) {
        if Mentions(cs, text, lo, hi, key) {
          NormalizedComplete(cs, text, needle, lo, hi);
        }
      }
    }
  }

  lemma NotBefore(cs: Casing, text: string, needle: string, lo: nat, hi: nat)
    requires ValidCasing(cs) && KeepsLength(cs, text) && KeepsLength(cs, needle)
    requires Mentions(cs, text, lo, hi, SearchKey(needle))
    requires NormalizedSpan(cs, text, Collapse(Strip(needle), false)).Found?
    ensures var r := NormalizedSpan(cs, text, Collapse(Strip(needle), false));
      r.lo < lo || (r.lo == lo && r.hi == hi)
  {
    var key, nt, offsets := SearchKey(needle), NormalizedText(text), NormalizedOffsets(text);
    var r := NormalizedSpan(cs, text, Collapse(Strip(needle), false));
    assert key == Strip(Collapse(Denul(Collapse(Strip(needle), false)), false));
    var h, t := Lower(cs, nt), Lower(cs, key);
    assert r == Scan(text, key, h, t, Some(offsets), 0);
    var j := MentionIsWindow(cs, text, needle, lo, hi);
    hide IsSpace, Collapse, Strip, Denul, KeepsLength, ValidCasing, Scan, Lower, TokenBoundaries, NormalizedText,
         NormalizedOffsets, NormalizedLength, IsTokenChar, IsBlank, Mentions, SearchKey, NormalizedSpan, OccursAt;
    var i := ScanFirst(text, key, h, t, Some(offsets), 0);
    if i < j {
      OffsetsIncrease(text, i, j);
    }
  }

  lemma OffsetsIncrease(text: string, i: nat, j: nat)
    requires i < j < |NormalizedOffsets(text)|
    ensures NormalizedOffsets(text)[i] < NormalizedOffsets(text)[j]
  {
    hide IsSpace, Collapse, Kept;
    KeptIncreases(Denul(text), true, i, j);
  }

  // ---- the whole search

  /** Where lowering keeps lengths, `_find_span` returns the leftmost place of the first reading that occurs. */
  lemma SpanIsFirst(cs: Casing, text: string, needle: string)
    requires ValidCasing(cs) && KeepsLength(cs, text) && KeepsLength(cs, needle)
    ensures IsChosen(cs, text, needle, Span(cs, text, needle))
  {
    var s := Strip(needle);
    var c := Collapse(s, false);
    var a, b := StripSplit(needle);
    KeyKeepsLength(cs, needle);
    NormalizedIsFirst(cs, text, needle);
    if s == "" {
      EmptyNeedle(cs, text, needle);
    } else {
      TrimmedReadings(needle);
      DirectIsFirst(cs, text, s, true);
      DirectIsFirst(cs, text, s, false);
      DirectIsFirst(cs, text, c, true);
      DirectIsFirst(cs, text, c, false);
      hide DirectSpan, NormalizedSpan, HasWord, IsFirstWord, HasMention, IsFirstMention, Strip, Collapse, SearchKey;
    }
  }

  lemma TrimmedReadings(needle: string)
    requires Strip(needle) != ""
    ensures Trimmed(Strip(needle)) && Trimmed(Collapse(Strip(needle), false))
  {
    hide IsSpace, Collapse;
    var a, b := StripSplit(needle);
    CollapseEnds(Strip(needle), false);
  }

  lemma EmptyNeedle(cs: Casing, text: string, needle: string)
    requires Strip(needle) == ""
    ensures Collapse(Strip(needle), false) == "" && SearchKey(needle) == ""
    ensures !HasWord(cs, text, "", true) && !HasWord(cs, text, "", false) && !HasMention(cs, text, "")
  {}

  ghost predicate InBounds(text: string, lo: nat, hi: nat) {
    lo < hi <= |text|
  }

  lemma ChosenUnique(cs: Casing, text: string, needle: string, a: Search, b: Search)
    requires IsChosen(cs, text, needle, a) && IsChosen(cs, text, needle, b)
    ensures a == b
  {
    hide WordAt, Mentions, HasWord, HasMention, Strip, Collapse, SearchKey;
  }

  /** The place the predicate describes is the place returned. */
  lemma ChosenIsSpan(cs: Casing, text: string, needle: string, r: Search)
    requires ValidCasing(cs) && KeepsLength(cs, text) && KeepsLength(cs, needle)
    ensures IsChosen(cs, text, needle, r) <==> r == Span(cs, text, needle)
  {
    hide IsChosen, Span;
    SpanIsFirst(cs, text, needle);
    if IsChosen(cs, text, needle, r) {
      ChosenUnique(cs, text, needle, r, Span(cs, text, needle));
    }
  }
}

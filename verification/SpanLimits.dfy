/**
  When `_find_span` keeps its promise: exactly when lowering replaces every character by
  one. The code adds indices found in the lowered text to lengths of the raw needle, so a
  text or a needle with a character that lowers to more than one gets a wrong answer.
 */
module SpanLimits {
  import opened Text
  import opened CaseFolding
  import opened SpanSearch

  lemma BlankIsNoToken(c: char)
    requires IsBlank(c)
    ensures !IsTokenChar(c)
  {}

  /** The part of `text` between its first and its last visible character. */
  lemma VisibleCore(cs: Casing, text: string) returns (lo: nat, hi: nat)
    requires ValidCasing(cs) && !KeepsLength(cs, text)
    ensures lo < hi <= |text| && !IsBlank(text[lo]) && !IsBlank(text[hi - 1])
    ensures forall i :: 0 <= i < lo || hi <= i < |text| ==> IsBlank(text[i])
    ensures !KeepsLength(cs, text[lo..hi])
  {
    var d := Denul(text);
    lo, hi := StripSplit(d);
    var k :| 0 <= k < |text| && |cs.lower(text[k])| != 1;
    assert WellLowered(cs, text[k]);
    assert IsSpace(' ');
    hide IsSpace;
    assert forall i :: 0 <= i < |text| && IsSpace(d[i]) ==> IsBlank(text[i]);
    forall i | 0 <= i < lo ensures IsSpace(d[i]) { assert d[..lo][i] == d[i]; }
    forall i | hi <= i < |text| ensures IsSpace(d[i]) { assert d[hi..][i - hi] == d[i]; }
    assert lo <= k < hi;
    assert d[lo..hi][0] == d[lo] && d[lo..hi][hi - lo - 1] == d[hi - 1];
    assert text[lo..hi][k - lo] == text[k];
  }

  lemma LowerBlanks(cs: Casing, s: string)
    requires ValidCasing(cs) && forall i :: 0 <= i < |s| ==> IsBlank(s[i])
    ensures Lower(cs, s) == s
  {
    hide IsSpace;
    forall i | 0 <= i < |s| ensures cs.lower(s[i]) == [s[i]] { assert WellLowered(cs, s[i]); }
    LowerFixed(cs, s);
  }

  /** Where the lowered text holds the lowered core: just behind the leading blanks. */
  lemma CoreOccurs(cs: Casing, text: string, lo: nat, hi: nat)
    requires ValidCasing(cs) && lo < hi <= |text| && !IsBlank(text[lo])
    requires forall i :: 0 <= i < lo ==> IsBlank(text[i])
    ensures FindFrom(Lower(cs, text), Lower(cs, text[lo..hi]), 0) == Some(lo)
  {
    hide IsSpace, FindFrom, Lower;
    assert text == text[..lo] + text[lo..hi] + text[hi..];
    LowerConcat(cs, text[..lo] + text[lo..hi], text[hi..]);
    LowerConcat(cs, text[..lo], text[lo..hi]);
    LowerBlanks(cs, text[..lo]);
    var core, h := Lower(cs, text[lo..hi]), Lower(cs, text);
    LowerEnds(cs, text[lo..hi]);
    assert h[lo..lo + |core|] == core;
    forall i | 0 <= i < lo ensures !OccursAt(h, core, i) {
      assert h[i] == text[i];
      assert i + |core| <= |h| ==> h[i..i + |core|][0] == h[i];
    }
    assert OccursAt(h, core, lo);
    assert FindFrom(h, core, 0).Some?;
  }

  /** The lowered core is longer than the core, so the text does not hold it verbatim. */
  lemma CoreNotVerbatim(cs: Casing, text: string, lo: nat, hi: nat, i: int)
    requires ValidCasing(cs) && lo < hi <= |text| && !IsBlank(text[lo]) && !IsBlank(text[hi - 1])
    requires forall k :: 0 <= k < lo || hi <= k < |text| ==> IsBlank(text[k])
    requires !KeepsLength(cs, text[lo..hi])
    ensures !OccursAt(text, Lower(cs, text[lo..hi]), i)
  {
    hide IsSpace, Lower;
    var core := Lower(cs, text[lo..hi]);
    LowerLength(cs, text[lo..hi]);
    LowerEnds(cs, text[lo..hi]);
    if 0 <= i && i + |core| <= |text| {
      assert text[i] == text[i..i + |core|][0];
      assert text[i + |core| - 1] == text[i..i + |core|][|core| - 1];
    }
  }

  lemma TrimmedByEnds(s: string)
    requires s != "" && !IsBlank(s[0]) && !IsBlank(s[|s| - 1])
    ensures Trimmed(s) && Strip(s) == s && Trimmed(Denul(s)) && Trimmed(SearchKey(s))
  {
    hide IsSpace;
    StripTrimmed(s);
    CollapseEnds(s, false);
    var c := Collapse(s, false);
    assert Trimmed(Denul(c));
    CollapseEnds(Denul(c), false);
    StripTrimmed(Collapse(Denul(c), false));
  }

  /** A slice that ends in a blank does not fold like a word that ends visibly. */
  lemma BlankEndDiffers(cs: Casing, slice: string, word: string)
    requires ValidCasing(cs) && slice != "" && IsBlank(slice[|slice| - 1]) && Trimmed(Denul(word))
    ensures Fold(cs, slice) != Fold(cs, word)
  {
    assert IsSpace(' ');
    hide IsSpace, ValidCasing, Lower, Collapse;
    CollapseLast(Denul(slice), false);
    CollapseEnds(Denul(word), false);
    LowerEnds(cs, Collapse(Denul(slice), false));
    LowerEnds(cs, Collapse(Denul(word), false));
    var w := Collapse(Denul(word), false);
    assert w[|w| - 1] == Denul(word)[|word| - 1] != '\0';
  }

  /** The token check accepts the lowered core behind the leading blanks. */
  lemma CoreStandsAlone(text: string, lo: nat, hi: nat, needle: string)
    requires lo < hi <= |text| && |needle| > hi - lo && Strip(needle) == needle
    requires forall i :: 0 <= i < lo || hi <= i < |text| ==> IsBlank(text[i])
    ensures TokenBoundaries(text, lo, lo + |needle|, needle) == Passes
  {
    hide IsTokenChar, Strip, IsBlank;
    if lo > 0 {
      BlankIsNoToken(text[lo - 1]);
    }
    if lo + |needle| < |text| {
      BlankIsNoToken(text[lo + |needle|]);
    }
  }

  /** What the code answers for the lowered core of a text with an expanding character. */
  lemma CoreSpan(cs: Casing, text: string, lo: nat, hi: nat)
    requires ValidCasing(cs) && lo < hi <= |text| && !IsBlank(text[lo]) && !IsBlank(text[hi - 1])
    requires forall i :: 0 <= i < lo || hi <= i < |text| ==> IsBlank(text[i])
    requires !KeepsLength(cs, text[lo..hi])
    ensures var needle := Lower(cs, text[lo..hi]);
      Span(cs, text, needle) == Found(lo, lo + |needle|) && |needle| > hi - lo
  {
    var needle := Lower(cs, text[lo..hi]);
    assert Strip(needle) == needle && |needle| > hi - lo by {
      hide IsSpace, Lower, Strip;
      LowerLength(cs, text[lo..hi]);
      LowerEnds(cs, text[lo..hi]);
      TrimmedByEnds(needle);
    }
    hide IsSpace, Lower, Scan, TokenBoundaries, Strip, NormalizedSpan, Collapse, IsBlank, ValidCasing, KeepsLength,
         FindFrom;
    if DirectSpan(cs, text, needle, true) != Missing {
      var i := ScanFound(text, needle, text, needle, None, 0);
      CoreNotVerbatim(cs, text, lo, hi, i);
    }
    CoreLowered(cs, text, lo, hi);
  }

  lemma CoreLowered(cs: Casing, text: string, lo: nat, hi: nat)
    requires ValidCasing(cs) && lo < hi <= |text| && !IsBlank(text[lo])
    requires forall i :: 0 <= i < lo || hi <= i < |text| ==> IsBlank(text[i])
    requires var needle := Lower(cs, text[lo..hi]); Strip(needle) == needle && |needle| > hi - lo
    ensures var needle := Lower(cs, text[lo..hi]);
      DirectSpan(cs, text, needle, false) == Found(lo, lo + |needle|)
  {
    var needle := Lower(cs, text[lo..hi]);
    hide IsSpace, Lower, TokenBoundaries, Strip, IsBlank, FindFrom;
    CoreOccurs(cs, text, lo, hi);
    LowerIsLower(cs, text[lo..hi]);
    LowerFixed(cs, needle);
    CoreStandsAlone(text, lo, hi, needle);
  }

  /** A text with an expanding character has a needle, free of such characters, that is answered wrongly. */
  lemma TextMustKeepLength(cs: Casing, text: string) returns (needle: string)
    requires ValidCasing(cs) && !KeepsLength(cs, text)
    ensures KeepsLength(cs, needle) && !MeetsPromise(cs, text, needle, Span(cs, text, needle))
    ensures Span(cs, text, needle).Found? && ('\0' !in text ==> '\0' !in needle)
  {
    hide IsSpace, Lower, Span, Collapse, Strip, Denul, IsBlank, IsTokenChar;
    var lo, hi := VisibleCore(cs, text);
    needle := Lower(cs, text[lo..hi]);
    CoreSpan(cs, text, lo, hi);
    LowerIsLower(cs, text[lo..hi]);
    LowerEnds(cs, text[lo..hi]);
    TrimmedByEnds(needle);
    if '\0' !in text {
      LowerNoNul(cs, text[lo..hi]);
    }
    var end := lo + |needle|;
    if end <= |text| {
      var slice := text[lo..end];
      assert slice[|slice| - 1] == text[end - 1];
      BlankEndDiffers(cs, slice, needle);
      SearchKeyShape(needle);
      DenulNoNul(SearchKey(needle));
      BlankEndDiffers(cs, slice, SearchKey(needle));
    }
  }

  // ---- the same on the needle's side

  lemma {:induction false} CollapseKeepsLengthOnly(cs: Casing, s: string, pending: bool)
    requires ValidCasing(cs) && KeepsLength(cs, Collapse(s, pending))
    ensures KeepsLength(cs, s)
  {
    hide IsSpace;
    if s != "" {
      var head := if IsSpace(s[0]) then (if pending then "" else " ") else [s[0]];
      var rest := Collapse(s[1..], IsSpace(s[0]));
      assert Collapse(s, pending) == head + rest;
      assert forall i :: 0 <= i < |rest| ==> rest[i] == (head + rest)[|head| + i];
      assert !IsSpace(s[0]) ==> (head + rest)[0] == s[0];
      CollapseKeepsLengthOnly(cs, s[1..], IsSpace(s[0]));
      assert WellLowered(cs, s[0]);
      assert s == [s[0]] + s[1..];
    }
  }

  lemma StripKeepsLengthOnly(cs: Casing, s: string)
    requires ValidCasing(cs) && KeepsLength(cs, Strip(s))
    ensures KeepsLength(cs, s)
  {
    hide IsSpace;
    var lo, hi := StripSplit(s);
    forall i | 0 <= i < |s| ensures |cs.lower(s[i])| == 1 {
      assert WellLowered(cs, s[i]);
      if i < lo {
        assert s[..lo][i] == s[i];
      } else if i < hi {
        assert Strip(s)[i - lo] == s[i];
      } else {
        assert s[hi..][i - hi] == s[i];
      }
    }
  }

  lemma DenulKeepsLengthOnly(cs: Casing, s: string)
    requires ValidCasing(cs) && KeepsLength(cs, Denul(s))
    ensures KeepsLength(cs, s)
  {
    hide IsSpace;
    forall i | 0 <= i < |s| ensures |cs.lower(s[i])| == 1 {
      assert WellLowered(cs, s[i]);
      assert |cs.lower(Denul(s)[i])| == 1;
    }
  }

  /** None of the three forms in which the needle is searched loses its expanding characters. */
  lemma NeedleFormsExpand(cs: Casing, needle: string)
    requires ValidCasing(cs) && !KeepsLength(cs, needle)
    ensures !KeepsLength(cs, Strip(needle)) && !KeepsLength(cs, Collapse(Strip(needle), false))
    ensures !KeepsLength(cs, SearchKey(needle))
  {
    hide IsSpace, Strip, Collapse, Denul, KeepsLength, ValidCasing;
    var s := Strip(needle);
    var c := Collapse(s, false);
    if KeepsLength(cs, s) {
      StripKeepsLengthOnly(cs, needle);
    }
    if KeepsLength(cs, c) {
      CollapseKeepsLengthOnly(cs, s, false);
    }
    if KeepsLength(cs, SearchKey(needle)) {
      StripKeepsLengthOnly(cs, Collapse(Denul(c), false));
      CollapseKeepsLengthOnly(cs, Denul(c), false);
      DenulKeepsLengthOnly(cs, c);
    }
  }

  lemma {:induction false} LowerIsCollapsed(cs: Casing, s: string)
    requires ValidCasing(cs) && Collapsed(s)
    ensures Collapsed(Lower(cs, s))
  {
    hide IsSpace;
    if s != "" {
      var t := s[1..];
      assert forall i :: 0 <= i < |t| ==> t[i] == s[i + 1];
      LowerIsCollapsed(cs, t);
      var head, rest := cs.lower(s[0]), Lower(cs, t);
      assert WellLowered(cs, s[0]);
      if t != "" {
        LowerEnds(cs, t);
        assert IsSpace(s[0]) ==> !IsSpace(t[0]);
        assert t[0] != '\0' && rest[0] != '\0';
      }
      var w := head + rest;
      assert s[0] != '\0';
      assert forall i :: 0 <= i < |head| ==> w[i] == head[i] && !(w[i] == '\0' && !IsSpace(w[i]));
      assert forall i :: 0 <= i < |rest| ==> w[|head| + i] == rest[i];
      forall i | 0 <= i < |w| ensures w[i] != '\0' && (IsSpace(w[i]) ==> w[i] == ' ') {
        if i >= |head| {
          assert w[i] == rest[i - |head|];
        }
      }
      forall i | 0 < i < |w| && IsSpace(w[i]) ensures !IsSpace(w[i - 1]) {
        if i > |head| {
          assert w[i] == rest[i - |head|] && w[i - 1] == rest[i - |head| - 1];
        }
      }
    }
  }

  lemma LowerShrinks(cs: Casing, s: string, lo: nat, hi: nat)
    requires lo <= hi <= |s|
    ensures |Lower(cs, s[lo..hi])| <= |Lower(cs, s)|
  {
    LowerConcat(cs, s[..lo], s[lo..hi]);
    LowerConcat(cs, s[..hi], s[hi..]);
    assert s[..lo] + s[lo..hi] == s[..hi] && s[..hi] + s[hi..] == s;
  }

  /** Neither reading of the needle folds to less than the lowered key. */
  lemma FoldAtLeastKey(cs: Casing, needle: string)
    ensures |Fold(cs, Strip(needle))| >= |Lower(cs, SearchKey(needle))|
    ensures |Fold(cs, SearchKey(needle))| == |Lower(cs, SearchKey(needle))|
  {
    hide IsSpace, Lower, Collapse, Denul, Strip;
    KeyFold(cs, needle);
    var s := Strip(needle);
    CollapseAbsorbs(s, false, false);
    var c := Collapse(Denul(Collapse(s, false)), false);
    var lo, hi := StripSplit(c);
    LowerShrinks(cs, c, lo, hi);
  }

  lemma {:induction false} CollapseIsLower(cs: Casing, s: string, pending: bool)
    requires cs.lower(' ') == " " && IsLower(cs, s)
    ensures IsLower(cs, Collapse(s, pending))
  {
    hide IsSpace;
    if s != "" {
      CollapseIsLower(cs, s[1..], IsSpace(s[0]));
      assert cs.lower(s[0]) == [s[0]];
    }
  }

  /** Folding a lower-case string does not lengthen it. */
  lemma FoldNoLonger(cs: Casing, s: string)
    requires ValidCasing(cs) && IsLower(cs, s)
    ensures |Fold(cs, s)| <= |s|
  {
    hide IsSpace, Lower, Collapse;
    BlankKeepsLength(cs);
    CollapseIsLower(cs, Denul(s), false);
    LowerFixed(cs, Collapse(Denul(s), false));
    CollapseShrinks(Denul(s), false);
  }

  /** A proper slice of a lower-case text is too short to be an occurrence of the needle. */
  lemma ProperSliceIsNone(cs: Casing, needle: string, text: string, lo: nat, hi: nat)
    requires ValidCasing(cs) && IsLower(cs, text)
    requires |text| == |Lower(cs, SearchKey(needle))| && lo <= hi && hi - lo < |text|
    ensures !Occurrence(cs, text, lo, hi, needle)
  {
    if hi <= |text| {
      hide IsSpace, Lower, Collapse, Strip, SearchKey, StandsAlone, Fold, ValidCasing;
      FoldNoLonger(cs, text[lo..hi]);
      FoldAtLeastKey(cs, needle);
    }
  }

  /** A verbatim or lower-cased hit in the lowered key is shorter than the lowered key. */
  lemma DirectHitTooShort(cs: Casing, text: string, needle: string, caseSensitive: bool)
    requires ValidCasing(cs) && IsLower(cs, text) && needle != "" && !KeepsLength(cs, needle)
    requires DirectSpan(cs, text, needle, caseSensitive).Found?
    ensures var r := DirectSpan(cs, text, needle, caseSensitive);
      r.lo <= r.hi && r.hi - r.lo < |text|
  {
    hide IsSpace, Lower, ValidCasing, Scan, TokenBoundaries;
    LowerFixed(cs, text);
    LowerLength(cs, needle);
    if caseSensitive {
      var i := ScanFound(text, needle, text, needle, None, 0);
      assert forall k :: 0 <= k < |needle| ==> needle[k] == text[i + k];
    } else {
      var i := ScanFound(text, needle, Lower(cs, text), Lower(cs, needle), None, 0);
    }
  }

  lemma {:induction false} KeptOfCollapsed(s: string, pending: bool, base: nat, k: nat)
    requires Collapsed(s) && (pending && s != "" ==> !IsSpace(s[0])) && k < |s|
    ensures |Kept(s, pending, base)| == |s| && Kept(s, pending, base)[k] == base + k
  {
    CollapsedFixed(s, pending);
    hide IsSpace, Collapse;
    var t := s[1..];
    assert forall i :: 0 <= i < |t| ==> t[i] == s[i + 1];
    KeptStep(s, pending, base);
    if t == "" {
      assert Kept(t, IsSpace(s[0]), base + 1) == [];
    } else {
      assert IsSpace(s[0]) ==> !IsSpace(t[0]);
      hide Kept;
      KeptOfCollapsed(t, IsSpace(s[0]), base + 1, if k == 0 then 0 else k - 1);
    }
  }

  /** In a text that is already normalised every offset is the index itself. */
  lemma OffsetsAreIndices(text: string, k: nat)
    requires Collapsed(text) && Trimmed(text) && k < |text|
    ensures NormalizedText(text) == text && NormalizedOffsets(text)[k] == k
  {
    assert IsSpace(' ');
    CollapsedFixed(text, true);
    KeptOfCollapsed(text, true, 0, k);
    hide IsSpace, Collapse, Kept, Denul, Collapsed;
    assert NormalizedLength(text) == |text|;
    assert Collapse(Denul(text), true) == text;
    hide NormalizedLength;
  }

  lemma NormalizedHitTooShort(cs: Casing, text: string, needle: string)
    requires ValidCasing(cs) && Collapsed(text) && Trimmed(text)
    requires |SearchKey(needle)| < |text|
    requires NormalizedSpan(cs, text, Collapse(Strip(needle), false)).Found?
    ensures var r := NormalizedSpan(cs, text, Collapse(Strip(needle), false));
      r.lo <= r.hi && r.hi - r.lo < |text|
  {
    hide IsSpace, Lower, ValidCasing, Scan, TokenBoundaries, Strip, Collapse, NormalizedText, NormalizedOffsets;
    var key := SearchKey(needle);
    var i := ScanFound(text, key, Lower(cs, NormalizedText(text)), Lower(cs, key), Some(NormalizedOffsets(text)), 0);
    OffsetsAreIndices(text, 0);
    OffsetsAreIndices(text, i);
    OffsetsAreIndices(text, i + |key| - 1);
  }

  /** The lowered key is a text that mentions the needle from end to end. */
  lemma LoweredKeyMentions(cs: Casing, needle: string)
    requires ValidCasing(cs) && SearchKey(needle) != ""
    ensures var text := Lower(cs, SearchKey(needle));
      && IsLower(cs, text) && Collapsed(text) && Trimmed(text)
      && Mentions(cs, text, 0, |text|, SearchKey(needle))
  {
    hide IsSpace, Lower, ValidCasing, SearchKey, Collapse, Denul;
    var key := SearchKey(needle);
    var text := Lower(cs, key);
    SearchKeyShape(needle);
    LowerIsLower(cs, key);
    LowerIsCollapsed(cs, key);
    LowerEnds(cs, key);
    KeyFold(cs, needle);
    CollapsedFixed(text, false);
    LowerFixed(cs, text);
    assert text[0..|text|] == text;
  }

  /** A needle with an expanding character has a text, free of such characters, that is answered wrongly. */
  lemma NeedleMustKeepLength(cs: Casing, needle: string) returns (text: string)
    requires ValidCasing(cs) && !KeepsLength(cs, needle)
    ensures KeepsLength(cs, text) && !MeetsPromise(cs, text, needle, Span(cs, text, needle))
  {
    NeedleFormsExpand(cs, needle);
    var s, key := Strip(needle), SearchKey(needle);
    var c := Collapse(s, false);
    text := Lower(cs, key);
    assert s != "" && key != "" && c != "";
    hide IsSpace, Lower, ValidCasing, SearchKey, Collapse, Denul, Strip, KeepsLength, DirectSpan, NormalizedSpan,
         Mentions, Collapsed, Trimmed;
    LoweredKeyMentions(cs, needle);
    assert KeepsLength(cs, text) by { KeepsLengthIfLower(cs, text); }
    LowerLength(cs, key);
    var r := Span(cs, text, needle);
    if r.Found? {
      if r == DirectSpan(cs, text, s, true) {
        DirectHitTooShort(cs, text, s, true);
      } else if r == DirectSpan(cs, text, s, false) {
        DirectHitTooShort(cs, text, s, false);
      } else if r == DirectSpan(cs, text, c, true) {
        DirectHitTooShort(cs, text, c, true);
      } else if r == DirectSpan(cs, text, c, false) {
        DirectHitTooShort(cs, text, c, false);
      } else {
        NormalizedHitTooShort(cs, text, needle);
      }
      ProperSliceIsNone(cs, needle, text, r.lo, r.hi);
    }
  }

  lemma KeepsLengthIfLower(cs: Casing, s: string)
    requires IsLower(cs, s)
    ensures KeepsLength(cs, s)
  {}

  // ---- the exact condition

  /** A text is safe to search if and only if lowering it keeps its length. */
  lemma SafeTexts(cs: Casing, text: string)
    requires ValidCasing(cs)
    ensures KeepsLength(cs, text) <==>
            forall needle | KeepsLength(cs, needle) :: MeetsPromise(cs, text, needle, Span(cs, text, needle))
  {
    hide KeepsLength, MeetsPromise, Span, ValidCasing;
    if KeepsLength(cs, text) {
      forall needle | KeepsLength(cs, needle) ensures MeetsPromise(cs, text, needle, Span(cs, text, needle)) {
        SpanMeetsPromise(cs, text, needle);
      }
    } else {
      var needle := TextMustKeepLength(cs, text);
    }
  }

  /** A needle is safe to search for if and only if lowering it keeps its length. */
  lemma SafeNeedles(cs: Casing, needle: string)
    requires ValidCasing(cs)
    ensures KeepsLength(cs, needle) <==>
            forall text | KeepsLength(cs, text) :: MeetsPromise(cs, text, needle, Span(cs, text, needle))
  {
    hide KeepsLength, MeetsPromise, Span, ValidCasing;
    if KeepsLength(cs, needle) {
      forall text | KeepsLength(cs, text) ensures MeetsPromise(cs, text, needle, Span(cs, text, needle)) {
        SpanMeetsPromise(cs, text, needle);
      }
    } else {
      var text := NeedleMustKeepLength(cs, needle);
    }
  }

  // ---- a character that really behaves so

  /** U+0130, the dotted capital I, lowers to 'i' and U+0307; the ASCII capitals lower as usual. */
  function DottedLower(c: char): string {
    if c == '\U{130}' then "i\U{307}"
    else if 'A' <= c <= 'Z' then [c + ' ']
    else [c]
  }

  lemma DottedIsValid()
    ensures ValidCasing(Casing(DottedLower))
  {
    var cs := Casing(DottedLower);
    forall c: char ensures WellLowered(cs, c) {
      assert cs.lower(c) == DottedLower(c);
      assert forall d: char :: cs.lower(d) == DottedLower(d);
    }
  }

  /** In the one-character text U+0130 the needle "i\u0307" is reported at (0, 2), past the end. */
  lemma DottedCapitalOverruns()
    ensures Span(Casing(DottedLower), "\U{130}", "i\U{307}") == Found(0, 2)
  {
    var cs := Casing(DottedLower);
    var text := "\U{130}";
    DottedIsValid();
    hide IsSpace, Span, Lower, ValidCasing, IsTokenChar, Collapse, Strip;
    assert !IsBlank('\U{130}') by { DottedVisible(); }
    assert cs.lower(text[0]) == "i\U{307}";
    LowerOne(cs, text[0]);
    assert text[0..1] == text == [text[0]];
    CoreSpan(cs, text, 0, 1);
  }

  lemma DottedVisible()
    ensures !IsBlank('\U{130}')
  {}
}

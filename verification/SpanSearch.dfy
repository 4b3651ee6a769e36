/**
  Locating an LLM's quotation in a chunk (`_find_span` of llm_extraction.py).

  The search tries the stripped needle, then the needle with its whitespace collapsed,
  each first verbatim and then lower-cased, and finally searches a whitespace-normalised
  copy of the text through a map back to the raw offsets.
 */
module SpanSearch {
  import opened Text
  import opened CaseFolding

  // ---- what counts as an occurrence

  /** An ASCII letter or digit, or an underscore. */
  predicate IsTokenChar(c: char) {
    '0' <= c <= '9' || 'A' <= c <= 'Z' || 'a' <= c <= 'z' || c == '_'
  }

  /** An end of `word` that is a token character is not glued to another one in the text. */
  ghost predicate StandsAlone(text: string, lo: nat, hi: nat, word: string)
    requires lo <= hi <= |text| && word != ""
  {
    && (IsTokenChar(word[0]) && lo > 0 ==> !IsTokenChar(text[lo - 1]))
    && (IsTokenChar(word[|word| - 1]) && hi < |text| ==> !IsTokenChar(text[hi]))
  }

  /** `text[lo..hi]` is `word` up to blanks and case, and stands alone. */
  ghost predicate Mentions(cs: Casing, text: string, lo: nat, hi: nat, word: string) {
    && lo < hi <= |text| && word != ""
    && Fold(cs, text[lo..hi]) == Fold(cs, word)
    && StandsAlone(text, lo, hi, word)
  }

  /** The needle as the normalised search uses it. */
  function SearchKey(needle: string): string {
    Strip(Collapse(Denul(Collapse(Strip(needle), false)), false))
  }

  ghost predicate Occurrence(cs: Casing, text: string, lo: nat, hi: nat, needle: string) {
    Mentions(cs, text, lo, hi, Strip(needle)) || Mentions(cs, text, lo, hi, SearchKey(needle))
  }

  lemma SearchKeyShape(needle: string)
    ensures Collapsed(SearchKey(needle))
    ensures SearchKey(needle) == "" || Trimmed(SearchKey(needle))
  {
    hide IsSpace;
    var c := Collapse(Denul(Collapse(Strip(needle), false)), false);
    CollapseIsCollapsed(Denul(Collapse(Strip(needle), false)), false);
    var lo, hi := StripSplit(c);
    assert forall i :: 0 <= i < hi - lo ==> c[lo..hi][i] == c[lo + i];
  }

  /** For a needle without NUL the two readings of the needle agree. */
  lemma NulFreeKey(cs: Casing, needle: string)
    requires '\0' !in needle
    ensures SearchKey(needle) == Collapse(Strip(needle), false)
    ensures Fold(cs, SearchKey(needle)) == Fold(cs, Strip(needle))
    ensures Strip(needle) == "" <==> SearchKey(needle) == ""
    ensures Strip(needle) != "" ==> Trimmed(Strip(needle)) && SearchKey(needle)[0] == Strip(needle)[0]
    ensures Strip(needle) != "" ==>
              SearchKey(needle)[|SearchKey(needle)| - 1] == Strip(needle)[|Strip(needle)| - 1]
  {
    hide IsSpace, Lower;
    var lo, hi := StripSplit(needle);
    var s := Strip(needle);
    assert '\0' !in s;
    var c := Collapse(s, false);
    CollapseIsCollapsed(s, false);
    CollapsedFixed(c, false);
    DenulNoNul(s);
    if s != "" {
      CollapseEnds(s, false);
      StripTrimmed(c);
    }
  }

  lemma NulFreeMentions(cs: Casing, text: string, lo: nat, hi: nat, needle: string)
    requires '\0' !in needle
    ensures Mentions(cs, text, lo, hi, Strip(needle)) <==> Mentions(cs, text, lo, hi, SearchKey(needle))
  {
    hide IsSpace, Collapse, Lower, Strip, SearchKey, IsTokenChar;
    NulFreeKey(cs, needle);
  }

  // ---- the search, as a function

  datatype Search = Found(lo: nat, hi: nat) | Missing | Raised

  datatype Check = Passes | Fails | OutOfRange

  /** `_span_has_token_boundaries`; OutOfRange is the IndexError of looking beside a span past the end. */
  function TokenBoundaries(text: string, lo: nat, hi: nat, needle: string): Check {
    var s := Strip(needle);
    if s == "" then Fails
    else if IsTokenChar(s[0]) && lo > 0 && lo - 1 >= |text| then OutOfRange
    else if IsTokenChar(s[0]) && lo > 0 && IsTokenChar(text[lo - 1]) then Fails
    else if IsTokenChar(s[|s| - 1]) && hi < |text| && IsTokenChar(text[hi]) then Fails
    else Passes
  }

  lemma BoundariesMeanStandsAlone(text: string, lo: nat, hi: nat, word: string)
    requires lo <= hi <= |text| && Trimmed(word)
    ensures TokenBoundaries(text, lo, hi, word) != OutOfRange
    ensures TokenBoundaries(text, lo, hi, word) == Passes <==> StandsAlone(text, lo, hi, word)
  {
    StripTrimmed(word);
    hide IsSpace, Strip, IsTokenChar;
  }

  /** The raw span of a match at `index`: directly, or through the offsets (None is an IndexError). */
  function SpanAt(offsets: Option<seq<nat>>, index: nat, length: nat): Option<(nat, nat)>
    requires length > 0
  {
    match offsets
    case None => Some((index, index + length))
    case Some(o) => if index + length - 1 < |o| then Some((o[index], o[index + length - 1] + 1)) else None
  }

  /** What a match at `index` leads to: an answer, an exception, or None to search on. */
  function Judge(text: string, needle: string, offsets: Option<seq<nat>>, index: nat): (r: Option<Search>)
    requires needle != ""
    ensures r != Some(Missing)
  {
    match SpanAt(offsets, index, |needle|)
    case None => Some(Raised)
    case Some(span) =>
      match TokenBoundaries(text, span.0, span.1, needle)
      case Passes => Some(Found(span.0, span.1))
      case OutOfRange => Some(Raised)
      case Fails => None
  }

  /** The scan both searches share: the first match from `from` on whose span stands alone. */
  function Scan(text: string, needle: string, haystack: string, target: string, offsets: Option<seq<nat>>,
                from: nat): Search
    requires needle != ""
    decreases |haystack| + 1 - from
  {
    match FindFrom(haystack, target, from)
    case None => Missing
    case Some(index) =>
      match Judge(text, needle, offsets, index)
      case Some(answer) => answer
      case None => Scan(text, needle, haystack, target, offsets, index + 1)
  }

  function DirectSpan(cs: Casing, text: string, needle: string, caseSensitive: bool): Search
    requires needle != ""
  {
    if caseSensitive then Scan(text, needle, text, needle, None, 0)
    else Scan(text, needle, Lower(cs, text), Lower(cs, needle), None, 0)
  }

  /** The raw offset of each character that collapsing keeps. */
  function Kept(s: string, pending: bool, base: nat): (r: seq<nat>)
    ensures |r| == |Collapse(s, pending)|
  {
    if s == "" then []
    else if IsSpace(s[0]) then (if pending then [] else [base]) + Kept(s[1..], true, base + 1)
    else [base] + Kept(s[1..], false, base + 1)
  }

  /** The length of the normalised text: a blank at the end is dropped. */
  function NormalizedLength(text: string): (n: nat)
    ensures n <= |Collapse(Denul(text), true)|
  {
    var c := Collapse(Denul(text), true);
    if c != "" && c[|c| - 1] == ' ' then |c| - 1 else |c|
  }

  function NormalizedText(text: string): string {
    Collapse(Denul(text), true)[..NormalizedLength(text)]
  }

  /** No blank at the start, none at the end and no two in a row. */
  lemma {:induction false} NormalizedIsTidy(text: string)
    ensures var n := NormalizedText(text);
      && (n != "" ==> !IsSpace(n[0]) && !IsSpace(n[|n| - 1]))
      && (forall i :: 0 <= i < |n| - 1 ==> !(IsSpace(n[i]) && IsSpace(n[i + 1])))
  {
    CollapseIsTidy(Denul(text), true);
    var c, n := Collapse(Denul(text), true), NormalizedText(text);
    assert IsSpace(' ');
    hide IsSpace, Collapse;
    assert forall i :: 0 <= i < |n| ==> n[i] == c[i];
    forall i | 0 <= i < |n| - 1 ensures !(IsSpace(n[i]) && IsSpace(n[i + 1])) {
      assert !(IsSpace(c[i + 1 - 1]) && IsSpace(c[i + 1]));
    }
    if |n| < |c| && n != "" {
      assert c[|n|] == ' ';
    }
  }

  ghost predicate Tidy(c: string) {
    && (forall i :: 0 < i < |c| ==> !(IsSpace(c[i - 1]) && IsSpace(c[i])))
    && (forall i :: 0 <= i < |c| && IsSpace(c[i]) ==> c[i] == ' ')
  }

  lemma {:induction false} TidyMore(c: char, rest: string)
    requires Tidy(rest) && (IsSpace(c) ==> c == ' ' && (rest != "" ==> !IsSpace(rest[0])))
    ensures Tidy([c] + rest)
  {
    hide IsSpace;
    var all := [c] + rest;
    forall i | 0 < i < |all| ensures !(IsSpace(all[i - 1]) && IsSpace(all[i])) {
      assert all[i] == rest[i - 1] && (i > 1 ==> all[i - 1] == rest[i - 2]);
      assert i > 1 ==> !(IsSpace(rest[i - 1 - 1]) && IsSpace(rest[i - 1]));
    }
    forall i | 0 <= i < |all| && IsSpace(all[i]) ensures all[i] == ' ' {
      assert i > 0 ==> all[i] == rest[i - 1];
    }
  }

  lemma {:induction false} CollapseIsTidy(s: string, pending: bool)
    ensures Tidy(Collapse(s, pending))
    ensures pending && Collapse(s, pending) != "" ==> !IsSpace(Collapse(s, pending)[0])
  {
    assert IsSpace(' ');
    hide IsSpace, Tidy;
    if s == "" {
      assert Tidy("") by { NothingIsTidy(); }
    } else {
      var rest := Collapse(s[1..], IsSpace(s[0]));
      CollapseIsTidy(s[1..], IsSpace(s[0]));
      if !IsSpace(s[0]) {
        TidyMore(s[0], rest);
      } else if !pending {
        TidyMore(' ', rest);
        assert " " == [' '];
      } else {
        assert Collapse(s, pending) == rest;
      }
    }
  }

  lemma NothingIsTidy()
    ensures Tidy("")
  {}

  function NormalizedOffsets(text: string): (r: seq<nat>)
    ensures |r| == |NormalizedText(text)|
  {
    Kept(Denul(text), true, 0)[..NormalizedLength(text)]
  }

  function NormalizedSpan(cs: Casing, text: string, needle: string): Search {
    var key := Strip(Collapse(Denul(needle), false));
    if NormalizedText(text) == "" || key == "" then Missing
    else Scan(text, key, Lower(cs, NormalizedText(text)), Lower(cs, key), Some(NormalizedOffsets(text)), 0)
  }

  function OrElse(first: Search, second: Search): Search {
    if first.Missing? then second else first
  }

  /** The verbatim and the lower-cased search for one candidate. */
  function EitherCase(cs: Casing, text: string, needle: string): Search
    requires needle != ""
  {
    OrElse(DirectSpan(cs, text, needle, true), DirectSpan(cs, text, needle, false))
  }

  function Span(cs: Casing, text: string, needle: string): Search {
    var s := Strip(needle);
    if s == "" then Missing
    else
      var c := Collapse(s, false);
      OrElse(EitherCase(cs, text, s),
             OrElse(if c == "" then Missing else EitherCase(cs, text, c), NormalizedSpan(cs, text, c)))
  }

  // ---- the search, as the source runs it

  method FindDirectSpan(cs: Casing, text: string, needle: string, caseSensitive: bool) returns (r: Search)
    requires needle != ""
    ensures r == DirectSpan(cs, text, needle, caseSensitive)
  {
    hide TokenBoundaries, Lower, FindFrom, OccursAt;
    var haystack := if caseSensitive then text else Lower(cs, text);
    var target := if caseSensitive then needle else Lower(cs, needle);
    var from: nat := 0;
    var found := FindFrom(haystack, target, 0);
    while found.Some?
      invariant found == FindFrom(haystack, target, from)
      invariant DirectSpan(cs, text, needle, caseSensitive) == Scan(text, needle, haystack, target, None, from)
      decreases if found.Some? then |haystack| + 1 - found.value else 0
    {
      var index := found.value;
      var verdict := TokenBoundaries(text, index, index + |needle|, needle);
      if verdict == Passes {
        return Found(index, index + |needle|);
      }
      if verdict == OutOfRange {
        return Raised;
      }
      from := index + 1;
      found := FindFrom(haystack, target, from);
    }
    r := Missing;
  }

  method NormalizedTextWithOffsets(value: string) returns (chars: string, offsets: seq<nat>)
    ensures chars == NormalizedText(value) && offsets == NormalizedOffsets(value)
  {
    hide IsSpace, Collapse, Kept;
    var s := Denul(value);
    chars, offsets := "", [];
    var inWhitespace := false;
    CollapseEmpty(true);
    for index := 0 to |s|
      invariant chars == Collapse(s[..index], true)
      invariant offsets == Kept(s[..index], true, 0)
      invariant inWhitespace == (index > 0 && IsSpace(s[index - 1]))
      invariant index > 0 && !inWhitespace ==> chars != ""
    {
      KeepsOneMore(s, index);
      if IsSpace(s[index]) {
        if chars != "" && !inWhitespace {
          chars := chars + " ";
          offsets := offsets + [index];
        }
        inWhitespace := true;
        continue;
      }
      chars := chars + [s[index]];
      offsets := offsets + [index];
      inWhitespace := false;
    }
    assert s[..|s|] == s;
    if chars != "" && chars[|chars| - 1] == ' ' {
      chars := chars[..|chars| - 1];
      offsets := offsets[..|offsets| - 1];
    }
  }

  /** How the next character extends the collapsed prefix and its offsets. */
  lemma KeepsOneMore(s: string, index: nat)
    requires index < |s|
    ensures var before, c := Collapse(s[..index], true), s[index];
      var blank := index == 0 || IsSpace(s[index - 1]);
      var skip := IsSpace(c) && blank;
      && Collapse(s[..index + 1], true) == before + (if skip then "" else if IsSpace(c) then " " else [c])
      && Kept(s[..index + 1], true, 0) == Kept(s[..index], true, 0) + (if skip then [] else [index])
  {
    hide IsSpace;
    var c := s[index];
    assert s[..index + 1] == s[..index] + [c];
    CollapseConcat(s[..index], [c], true);
    KeptConcat(s[..index], [c], true, 0);
    var blank := EndsInSpace(s[..index], true);
    assert Collapse([c], blank) == if IsSpace(c) then (if blank then "" else " ") else [c];
    assert Kept([c], blank, index) == if IsSpace(c) && blank then [] else [index];
  }

  method FindNormalizedSpan(cs: Casing, text: string, needle: string) returns (r: Search)
    ensures r == NormalizedSpan(cs, text, needle)
  {
    hide TokenBoundaries, Lower, FindFrom, Strip, Collapse, NormalizedText, NormalizedOffsets;
    var normalized, offsets := NormalizedTextWithOffsets(text);
    var key := Strip(Collapse(Denul(needle), false));
    if normalized == "" || key == "" {
      return Missing;
    }
    var haystack, target := Lower(cs, normalized), Lower(cs, key);
    var from: nat := 0;
    var found := FindFrom(haystack, target, 0);
    while found.Some?
      invariant found == FindFrom(haystack, target, from)
      invariant NormalizedSpan(cs, text, needle) == Scan(text, key, haystack, target, Some(offsets), from)
      decreases if found.Some? then |haystack| + 1 - found.value else 0
    {
      var index := found.value;
      var endIndex := index + |key| - 1;
      if endIndex >= |offsets| {
        return Raised;
      }
      var lo, hi := offsets[index], offsets[endIndex] + 1;
      var verdict := TokenBoundaries(text, lo, hi, key);
      if verdict == Passes {
        return Found(lo, hi);
      }
      if verdict == OutOfRange {
        return Raised;
      }
      from := index + 1;
      found := FindFrom(haystack, target, from);
    }
    r := Missing;
  }

  /** `_find_span`. `dict.fromkeys` drops the second candidate when it equals the first. */
  method FindSpan(cs: Casing, text: string, needle: string) returns (r: Search)
    ensures r == Span(cs, text, needle)
    ensures ValidCasing(cs) && KeepsLength(cs, text) && KeepsLength(cs, needle) ==> MeetsPromise(cs, text, needle, r)
  {
    hide IsSpace, Strip, Collapse, DirectSpan, NormalizedSpan, KeepsLength, ValidCasing, MeetsPromise;
    if ValidCasing(cs) && KeepsLength(cs, text) && KeepsLength(cs, needle) {
      SpanMeetsPromise(cs, text, needle);
    }
    var normalized := Strip(needle);
    if normalized == "" {
      return Missing;
    }
    var collapsed := Collapse(normalized, false);
    assert collapsed != "" by {
      var lo, hi := StripSplit(needle);
      CollapseEnds(normalized, false);
    }
    var candidates := if collapsed == normalized then [normalized] else [normalized, collapsed];
    for i := 0 to |candidates|
      invariant i >= 1 ==> EitherCase(cs, text, normalized).Missing?
      invariant i >= 2 ==> EitherCase(cs, text, collapsed).Missing?
    {
      r := FindDirectSpan(cs, text, candidates[i], true);
      if !r.Missing? {
        return;
      }
      r := FindDirectSpan(cs, text, candidates[i], false);
      if !r.Missing? {
        return;
      }
    }
    r := FindNormalizedSpan(cs, text, collapsed);
  }

  // ---- the offset map

  lemma {:induction false} KeptConcat(s: string, t: string, pending: bool, base: nat)
    ensures Kept(s + t, pending, base) == Kept(s, pending, base) + Kept(t, EndsInSpace(s, pending), base + |s|)
  {
    hide IsSpace, Collapse;
    if s == "" {
      assert s + t == t;
    } else {
      assert (s + t)[1..] == s[1..] + t;
      KeptConcat(s[1..], t, IsSpace(s[0]), base + 1);
      KeptStep(s, pending, base);
      KeptStep(s + t, pending, base);
      assert EndsInSpace(s, pending) == EndsInSpace(s[1..], IsSpace(s[0]));
      hide Kept, EndsInSpace;
      var head := if IsSpace(s[0]) && pending then [] else [base];
      var more, rest := Kept(s[1..], IsSpace(s[0]), base + 1), Kept(t, EndsInSpace(s, pending), base + |s|);
      assert head + (more + rest) == (head + more) + rest;
    }
  }

  lemma KeptStep(s: string, pending: bool, base: nat)
    requires s != ""
    ensures Kept(s, pending, base) ==
            (if IsSpace(s[0]) && pending then [] else [base]) + Kept(s[1..], IsSpace(s[0]), base + 1)
  {
    hide IsSpace, Collapse;
  }

  /** The k-th kept character sits at offset `Kept[k]`, with k kept characters before it. */
  lemma {:induction false} KeptAt(s: string, pending: bool, base: nat, k: nat)
    requires k < |Kept(s, pending, base)|
    ensures var o := Kept(s, pending, base)[k] - base;
      && 0 <= o < |s|
      && |Collapse(s[..o], pending)| == k
      && Collapse(s, pending)[k] == (if IsSpace(s[o]) then ' ' else s[o])
  {
    hide IsSpace;
    var head := if IsSpace(s[0]) && pending then [] else [base];
    KeptStep(s, pending, base);
    hide Kept;
    if k >= |head| {
      KeptAt(s[1..], IsSpace(s[0]), base + 1, k - |head|);
      var o := Kept(s, pending, base)[k] - base;
      assert s[..o] == [s[0]] + s[1..][..o - 1];
      assert s[..o][1..] == s[1..][..o - 1];
    }
  }

  /** The offsets strictly increase. */
  lemma KeptIncreases(s: string, pending: bool, j: nat, k: nat)
    requires j < k < |Kept(s, pending, 0)|
    ensures Kept(s, pending, 0)[j] < Kept(s, pending, 0)[k]
  {
    hide IsSpace, Collapse, Kept;
    KeptAt(s, pending, 0, j);
    KeptAt(s, pending, 0, k);
    var a, b := Kept(s, pending, 0)[j], Kept(s, pending, 0)[k];
    if b <= a {
      assert s[..b] + s[b..a] == s[..a];
      CollapseConcat(s[..b], s[b..a], pending);
    }
  }

  // ---- facts about one scan

  lemma {:induction false} ScanFound(text: string, needle: string, haystack: string, target: string,
                                     offsets: Option<seq<nat>>, from: nat)
    returns (index: nat)
    requires needle != "" && Scan(text, needle, haystack, target, offsets, from) != Missing
    ensures OccursAt(haystack, target, index)
    ensures Judge(text, needle, offsets, index) == Some(Scan(text, needle, haystack, target, offsets, from))
    decreases |haystack| + 1 - from
  {
    hide Judge, FindFrom;
    index := FindFrom(haystack, target, from).value;
    if Judge(text, needle, offsets, index).None? {
      index := ScanFound(text, needle, haystack, target, offsets, index + 1);
    }
  }

  lemma {:induction false} ScanMissing(text: string, needle: string, haystack: string, target: string,
                                       offsets: Option<seq<nat>>, from: nat, index: nat)
    requires needle != "" && Scan(text, needle, haystack, target, offsets, from) == Missing
    requires from <= index && OccursAt(haystack, target, index)
    ensures Judge(text, needle, offsets, index) != Some(Raised)
    ensures forall lo, hi :: Judge(text, needle, offsets, index) != Some(Found(lo, hi))
    decreases |haystack| + 1 - from
  {
    hide Judge, FindFrom;
    var first := FindFrom(haystack, target, from).value;
    if first < index {
      ScanMissing(text, needle, haystack, target, offsets, first + 1, index);
    }
  }

  // ---- soundness and completeness

  /**
    What `_find_span` is for: a span is an occurrence of the needle, no answer means that
    the text has none, and nothing is raised.
   */
  ghost predicate MeetsPromise(cs: Casing, text: string, needle: string, r: Search) {
    match r
    case Found(lo, hi) => Occurrence(cs, text, lo, hi, needle)
    case Missing => forall lo, hi :: !Mentions(cs, text, lo, hi, SearchKey(needle))
    case Raised => false
  }

  /** A direct hit is the needle up to case. */
  lemma DirectSound(cs: Casing, text: string, needle: string, caseSensitive: bool)
    requires ValidCasing(cs) && KeepsLength(cs, text) && KeepsLength(cs, needle) && Trimmed(needle)
    ensures var r := DirectSpan(cs, text, needle, caseSensitive);
      !r.Raised? && (r.Found? ==> Mentions(cs, text, r.lo, r.hi, needle))
  {
    hide IsSpace, TokenBoundaries, IsTokenChar, Scan, Lower, ValidCasing, KeepsLength, Fold;
    var r := DirectSpan(cs, text, needle, caseSensitive);
    if r != Missing {
      LowerLength(cs, text);
      LowerLength(cs, needle);
      var i: nat;
      if caseSensitive {
        i := ScanFound(text, needle, text, needle, None, 0);
      } else {
        i := ScanFound(text, needle, Lower(cs, text), Lower(cs, needle), None, 0);
      }
      var j := i + |needle|;
      LowerSlice(cs, text, i, j);
      SliceKeepsLength(cs, text, i, j);
      SameLowerSameFold(cs, text[i..j], needle);
      BoundariesMeanStandsAlone(text, i, j, needle);
    }
  }

  lemma NormalizedKeepsLength(cs: Casing, text: string)
    requires ValidCasing(cs) && KeepsLength(cs, text)
    ensures KeepsLength(cs, NormalizedText(text))
    ensures |Lower(cs, NormalizedText(text))| == |NormalizedText(text)|
  {
    hide IsSpace, Collapse, Lower, ValidCasing, NormalizedLength;
    DenulKeepsLength(cs, text);
    CollapseKeepsLength(cs, Denul(text), true);
    SliceKeepsLength(cs, Collapse(Denul(text), true), 0, NormalizedLength(text));
    LowerLength(cs, NormalizedText(text));
  }

  /** Cutting a text at two places cuts its collapsed form and its offsets too. */
  lemma CutAt(t: string, lo: nat, hi: nat)
    requires lo <= hi <= |t|
    ensures var i, j := |Collapse(t[..lo], true)|, |Collapse(t[..hi], true)|;
      var pending := EndsInSpace(t[..lo], true);
      && i <= j <= |Collapse(t, true)|
      && Collapse(t, true)[i..j] == Collapse(t[lo..hi], pending)
      && Kept(t, true, 0)[i..j] == Kept(t[lo..hi], pending, lo)
  {
    hide IsSpace, Collapse, Kept;
    assert t[..lo] + t[lo..hi] == t[..hi] && t[..hi] + t[hi..] == t;
    CollapseConcat(t[..lo], t[lo..hi], true);
    CollapseConcat(t[..hi], t[hi..], true);
    KeptConcat(t[..lo], t[lo..hi], true, 0);
    KeptConcat(t[..hi], t[hi..], true, 0);
  }

  lemma KeptEnds(s: string, pending: bool, base: nat)
    requires Trimmed(s)
    ensures var k := Kept(s, pending, base);
      |k| > 0 && k[0] == base && k[|k| - 1] == base + |s| - 1
  {
    hide IsSpace;
    var n := |s| - 1;
    assert s == s[..n] + [s[n]];
    KeptConcat(s[..n], [s[n]], pending, base);
  }

  /** The raw ends of a window of the collapsed text that has visible ends. */
  lemma WindowBounds(t: string, i: nat, m: nat)
    requires m > 0 && i + m <= |Collapse(t, true)|
    requires !IsSpace(Collapse(t, true)[i]) && !IsSpace(Collapse(t, true)[i + m - 1])
    ensures var lo, hi := Kept(t, true, 0)[i], Kept(t, true, 0)[i + m - 1] + 1;
      && lo < hi <= |t| && Trimmed(t[lo..hi])
      && |Collapse(t[..lo], true)| == i && |Collapse(t[..hi], true)| == i + m
  {
    hide IsSpace, Collapse, Kept;
    KeptVisible(t, i);
    KeptVisible(t, i + m - 1);
    if m > 1 {
      KeptIncreases(t, true, i, i + m - 1);
    }
  }

  /**
    Every window of the collapsed text with visible ends comes from one raw slice, and that
    slice collapses to exactly the window.
   */
  lemma WindowPullsBack(t: string, i: nat, m: nat)
    requires m > 0 && i + m <= |Collapse(t, true)| && Trimmed(Collapse(t, true)[i..i + m])
    ensures var lo, hi := Kept(t, true, 0)[i], Kept(t, true, 0)[i + m - 1] + 1;
      && lo < hi <= |t|
      && Collapse(t[lo..hi], false) == Collapse(t, true)[i..i + m]
  {
    hide IsSpace, Collapse, Kept, EndsInSpace;
    var c := Collapse(t, true);
    assert c[i..i + m][0] == c[i] && c[i..i + m][m - 1] == c[i + m - 1];
    WindowBounds(t, i, m);
    var lo, hi := Kept(t, true, 0)[i], Kept(t, true, 0)[i + m - 1] + 1;
    CutAt(t, lo, hi);
    CollapseEnds(t[lo..hi], EndsInSpace(t[..lo], true));
  }

  lemma KeptVisible(t: string, k: nat)
    requires k < |Collapse(t, true)| && !IsSpace(Collapse(t, true)[k])
    ensures var o := Kept(t, true, 0)[k];
      o < |t| && !IsSpace(t[o]) && |Collapse(t[..o], true)| == k && |Collapse(t[..o + 1], true)| == k + 1
  {
    assert IsSpace(' ');
    hide IsSpace, Collapse, Kept;
    KeptAt(t, true, 0, k);
    KeepsOneMore(t, Kept(t, true, 0)[k]);
  }

  /** The converse: a raw slice with visible ends is a window of the collapsed text. */
  lemma SlicePushesForward(t: string, lo: nat, hi: nat) returns (i: nat)
    requires lo < hi <= |t| && Trimmed(t[lo..hi])
    ensures var w := Collapse(t[lo..hi], false);
      && Trimmed(w) && i + |w| <= |Collapse(t, true)|
      && Collapse(t, true)[i..i + |w|] == w
      && Kept(t, true, 0)[i] == lo && Kept(t, true, 0)[i + |w| - 1] == hi - 1
  {
    hide IsSpace, Collapse, Kept;
    i := |Collapse(t[..lo], true)|;
    CutAt(t, lo, hi);
    CollapseEnds(t[lo..hi], false);
    KeptEnds(t[lo..hi], EndsInSpace(t[..lo], true), lo);
    var j := |Collapse(t[..hi], true)|;
    var k := Kept(t, true, 0)[i..j];
    assert k[0] == Kept(t, true, 0)[i] && k[|k| - 1] == Kept(t, true, 0)[j - 1];
  }

  lemma NormalizedIsPrefix(text: string)
    ensures var t := Denul(text);
      && |NormalizedText(text)| <= |Collapse(t, true)|
      && NormalizedText(text) == Collapse(t, true)[..|NormalizedText(text)|]
      && NormalizedOffsets(text) == Kept(t, true, 0)[..|NormalizedText(text)|]
      && '\0' !in NormalizedText(text)
      && forall j :: 0 <= j < |Collapse(t, true)| && !IsSpace(Collapse(t, true)[j]) ==> j < |NormalizedText(text)|
  {
    assert IsSpace(' ');
    hide IsSpace, Collapse, Kept;
    CollapseNoNul(Denul(text), true);
  }

  lemma KeyFold(cs: Casing, needle: string)
    ensures Fold(cs, SearchKey(needle)) == Lower(cs, SearchKey(needle))
  {
    hide Collapse, Denul, Lower, Strip, IsSpace;
    SearchKeyShape(needle);
    CollapsedFixed(SearchKey(needle), false);
  }

  lemma KeyKeepsLength(cs: Casing, needle: string)
    requires ValidCasing(cs) && KeepsLength(cs, needle)
    ensures KeepsLength(cs, Strip(needle)) && KeepsLength(cs, SearchKey(needle))
    ensures KeepsLength(cs, Collapse(Strip(needle), false))
  {
    hide IsSpace, Collapse, Strip, KeepsLength, ValidCasing;
    var lo, hi := StripSplit(needle);
    SliceKeepsLength(cs, needle, lo, hi);
    var s := Collapse(Strip(needle), false);
    CollapseKeepsLength(cs, Strip(needle), false);
    DenulKeepsLength(cs, s);
    CollapseKeepsLength(cs, Denul(s), false);
    var c := Collapse(Denul(s), false);
    var a, b := StripSplit(c);
    SliceKeepsLength(cs, c, a, b);
  }

  /** A hit in the normalised text is the needle up to blanks and case. */
  lemma NormalizedSound(cs: Casing, text: string, needle: string)
    requires ValidCasing(cs) && KeepsLength(cs, text) && KeepsLength(cs, needle)
    ensures var r := NormalizedSpan(cs, text, Collapse(Strip(needle), false));
      !r.Raised? && (r.Found? ==> Mentions(cs, text, r.lo, r.hi, SearchKey(needle)))
  {
    hide IsSpace, Collapse, Strip, Denul, KeepsLength, ValidCasing, Scan, Lower, TokenBoundaries, NormalizedText,
         NormalizedOffsets, NormalizedLength, IsTokenChar, IsBlank;
    var key := SearchKey(needle);
    var r := NormalizedSpan(cs, text, Collapse(Strip(needle), false));
    var nt, offsets := NormalizedText(text), NormalizedOffsets(text);
    if r != Missing {
      NormalizedKeepsLength(cs, text);
      KeyKeepsLength(cs, needle);
      SearchKeyShape(needle);
      LowerLength(cs, key);
      var i := ScanFound(text, key, Lower(cs, nt), Lower(cs, key), Some(offsets), 0);
      WindowMatches(cs, text, needle, i);
      BoundariesMeanStandsAlone(text, offsets[i], offsets[i + |key| - 1] + 1, key);
    }
  }

  /** A match in the lowered normalised text is a raw slice with the key's fold. */
  lemma WindowMatches(cs: Casing, text: string, needle: string, i: nat)
    requires ValidCasing(cs) && KeepsLength(cs, text) && KeepsLength(cs, needle) && SearchKey(needle) != ""
    requires OccursAt(Lower(cs, NormalizedText(text)), Lower(cs, SearchKey(needle)), i)
    ensures var m := |SearchKey(needle)|;
      && i + m <= |NormalizedOffsets(text)|
      && var lo, hi := NormalizedOffsets(text)[i], NormalizedOffsets(text)[i + m - 1] + 1;
      && lo < hi <= |text|
      && Fold(cs, text[lo..hi]) == Fold(cs, SearchKey(needle))
  {
    var key, nt := SearchKey(needle), NormalizedText(text);
    var m := |key|;
    hide IsSpace, Collapse, Denul, Kept, Lower, ValidCasing, NormalizedText, NormalizedOffsets, SearchKey, KeepsLength;
    NormalizedIsPrefix(text);
    NormalizedKeepsLength(cs, text);
    KeyKeepsLength(cs, needle);
    SearchKeyShape(needle);
    LowerLength(cs, key);
    LowerSlice(cs, nt, i, i + m);
    SliceKeepsLength(cs, nt, i, i + m);
    SameLowerTrimmed(cs, nt[i..i + m], key);
    assert nt[i..i + m] == Collapse(Denul(text), true)[i..i + m];
    WindowPullsBack(Denul(text), i, m);
    DenulSlice(text, NormalizedOffsets(text)[i], NormalizedOffsets(text)[i + m - 1] + 1);
    KeyFold(cs, needle);
  }

  lemma SameLowerTrimmed(cs: Casing, w: string, key: string)
    requires ValidCasing(cs) && Lower(cs, w) == Lower(cs, key) && w != "" && key != ""
    requires Trimmed(key) && Collapsed(key) && '\0' !in w
    ensures Trimmed(w)
  {
    hide IsSpace, Lower, ValidCasing;
    LowerEnds(cs, w);
    LowerEnds(cs, key);
  }

  /** Every mention of the search key is a match in the lowered normalised text. */
  lemma MentionIsWindow(cs: Casing, text: string, needle: string, lo: nat, hi: nat) returns (i: nat)
    requires ValidCasing(cs) && KeepsLength(cs, text) && KeepsLength(cs, needle)
    requires Mentions(cs, text, lo, hi, SearchKey(needle))
    ensures NormalizedText(text) != ""
    ensures OccursAt(Lower(cs, NormalizedText(text)), Lower(cs, SearchKey(needle)), i)
    ensures i < |NormalizedOffsets(text)| && NormalizedOffsets(text)[i] == lo
    ensures Judge(text, SearchKey(needle), Some(NormalizedOffsets(text)), i) == Some(Found(lo, hi))
  {
    var key, nt, offsets := SearchKey(needle), NormalizedText(text), NormalizedOffsets(text);
    hide IsSpace, Collapse, Kept, Strip, Denul, KeepsLength, ValidCasing, Scan, Lower, TokenBoundaries, NormalizedText,
         NormalizedOffsets, NormalizedLength, IsTokenChar, IsBlank;
    SearchKeyShape(needle);
    KeyFold(cs, needle);
    FoldEnds(cs, text[lo..hi], key);
    DenulSlice(text, lo, hi);
    i := SlicePushesForward(Denul(text), lo, hi);
    var w := Collapse(Denul(text[lo..hi]), false);
    NormalizedIsPrefix(text);
    assert Collapse(Denul(text), true)[i + |w| - 1] == w[|w| - 1];
    assert nt[i..i + |w|] == w;
    NormalizedKeepsLength(cs, text);
    KeyKeepsLength(cs, needle);
    LowerLength(cs, key);
    LowerSlice(cs, nt, i, i + |w|);
    SliceKeepsLength(cs, nt, i, i + |w|);
    LowerLength(cs, w);
    assert OccursAt(Lower(cs, nt), Lower(cs, key), i);
    BoundariesMeanStandsAlone(text, lo, hi, key);
  }

  /** If the text mentions the needle, the normalised search does not come back empty. */
  lemma NormalizedComplete(cs: Casing, text: string, needle: string, lo: nat, hi: nat)
    requires ValidCasing(cs) && KeepsLength(cs, text) && KeepsLength(cs, needle)
    requires Mentions(cs, text, lo, hi, SearchKey(needle))
    ensures NormalizedSpan(cs, text, Collapse(Strip(needle), false)) != Missing
  {
    var key, nt, offsets := SearchKey(needle), NormalizedText(text), NormalizedOffsets(text);
    hide IsSpace, Collapse, Strip, Denul, Scan, Lower, TokenBoundaries, NormalizedText, NormalizedOffsets;
    var i := MentionIsWindow(cs, text, needle, lo, hi);
    if NormalizedSpan(cs, text, Collapse(Strip(needle), false)) == Missing {
      ScanMissing(text, key, Lower(cs, nt), Lower(cs, key), Some(offsets), 0, i);
    }
  }

  /** A slice that folds like a trimmed, collapsed key has visible ends itself. */
  lemma FoldEnds(cs: Casing, slice: string, key: string)
    requires ValidCasing(cs) && slice != "" && Trimmed(key) && Collapsed(key)
    requires Fold(cs, slice) == Lower(cs, key)
    ensures Trimmed(Denul(slice))
  {
    var d := Denul(slice);
    var c := Collapse(d, false);
    CollapseFirst(d);
    CollapseLast(d, false);
    assert IsBlank(' ');
    hide IsSpace, ValidCasing, Collapse, Lower;
    LowerEnds(cs, key);
    LowerEnds(cs, c);
  }

  lemma CollapseFirst(s: string)
    requires s != ""
    ensures Collapse(s, false) != "" && Collapse(s, false)[0] == (if IsSpace(s[0]) then ' ' else s[0])
  {}

  /** Collapsing a string that ends in whitespace leaves one blank there. */
  lemma {:induction false} CollapseLast(s: string, pending: bool)
    requires s != "" && (pending ==> !IsSpace(s[0]))
    ensures Collapse(s, pending) != ""
    ensures IsSpace(s[|s| - 1]) ==> Collapse(s, pending)[|Collapse(s, pending)| - 1] == ' '
  {
    hide IsSpace;
    var t := s[1..];
    var sp := IsSpace(s[0]);
    assert Collapse(s, pending) == (if sp then " " else [s[0]]) + Collapse(t, sp);
    if t != "" {
      if sp && IsSpace(t[0]) {
        assert Collapse(t, true) == "" + Collapse(t[1..], true);
        CollapseLast(t, false);
        assert Collapse(t, false) == " " + Collapse(t[1..], true);
      } else {
        CollapseLast(t, sp);
      }
    }
  }

  /** Where lowering keeps lengths, `_find_span` is sound, complete and raises nothing. */
  lemma SpanMeetsPromise(cs: Casing, text: string, needle: string)
    requires ValidCasing(cs) && KeepsLength(cs, text) && KeepsLength(cs, needle)
    ensures MeetsPromise(cs, text, needle, Span(cs, text, needle))
  {
    var s := Strip(needle);
    var c := Collapse(s, false);
    assert s == "" ==> SearchKey(needle) == "";
    hide IsSpace, Collapse, Strip, Denul, KeepsLength, ValidCasing, DirectSpan, NormalizedSpan, Lower, SearchKey,
         StandsAlone;
    var a, b := StripSplit(needle);
    KeyKeepsLength(cs, needle);
    NormalizedSound(cs, text, needle);
    forall lo, hi | Mentions(cs, text, lo, hi, SearchKey(needle))
      ensures NormalizedSpan(cs, text, c) != Missing
    {
      NormalizedComplete(cs, text, needle, lo, hi);
    }
    if s != "" {
      CollapseEnds(s, false);
      DirectSound(cs, text, s, true);
      DirectSound(cs, text, s, false);
      DirectSound(cs, text, c, true);
      DirectSound(cs, text, c, false);
      CollapsedMentions(cs, text, s);
    }
  }

  lemma CollapsedMentions(cs: Casing, text: string, s: string)
    requires Trimmed(s)
    ensures forall lo, hi :: Mentions(cs, text, lo, hi, Collapse(s, false)) ==> Mentions(cs, text, lo, hi, s)
  {
    hide IsSpace, Lower, Collapse, Denul, IsTokenChar;
    CollapseEnds(s, false);
    CollapseAbsorbs(s, false, false);
  }

  /**
    The exact form for the needles the extractor passes, which `_text_value` has freed of
    NUL: a span comes back if and only if the text mentions the needle somewhere.
   */
  lemma SpanExact(cs: Casing, text: string, needle: string)
    requires ValidCasing(cs) && KeepsLength(cs, text) && KeepsLength(cs, needle) && '\0' !in needle
    ensures Span(cs, text, needle).Found? <==> exists lo, hi :: Mentions(cs, text, lo, hi, Strip(needle))
    ensures Span(cs, text, needle).Found? ==>
              Mentions(cs, text, Span(cs, text, needle).lo, Span(cs, text, needle).hi, Strip(needle))
  {
    hide Mentions, Span, Strip, SearchKey, KeepsLength, ValidCasing;
    SpanMeetsPromise(cs, text, needle);
    forall lo, hi
      ensures Mentions(cs, text, lo, hi, Strip(needle)) <==> Mentions(cs, text, lo, hi, SearchKey(needle))
    {
      NulFreeMentions(cs, text, lo, hi, needle);
    }
  }
}

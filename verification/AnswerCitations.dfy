/**
  From the generator's raw text to the cited search items: packing the context, parsing the
  answer and checking its citations, one after the other, as the evaluation service does.

  What decides can be read off the raw text and the packed context alone.
 */
module AnswerCitations {
  import opened Text
  import opened Words
  import opened Citations
  import opened ContextPacking

  // ---- text outside the markers

  /** Nothing but blanks and markers. */
  ghost predicate OnlyMarked(d: Digits, s: string) {
    !SaysSomething(d, s)
  }

  ghost predicate AllMarked(d: Digits, words: seq<string>) {
    forall w :: w in words ==> OnlyMarked(d, w)
  }

  lemma SpaceConcat(a: string, b: string)
    ensures AllSpace(a + b) <==> AllSpace(a) && AllSpace(b)
  {
    hide IsSpace;
    if AllSpace(a + b) {
      forall i | 0 <= i < |a| ensures IsSpace(a[i]) {
        assert (a + b)[i] == a[i];
      }
      forall i | 0 <= i < |b| ensures IsSpace(b[i]) {
        assert (a + b)[|a| + i] == b[i];
      }
    }
  }

  lemma {:induction false} WithoutMarkersConcat(d: Digits, a: string, b: string)
    requires ValidDigits(d) && (b == "" || IsSpace(b[0]))
    ensures WithoutMarkers(d, a + b) == WithoutMarkers(d, a) + WithoutMarkers(d, b)
    decreases |a|
  {
    hide IsSpace, MarkerLength, ValidDigits;
    if a == "" {
      assert a + b == b;
    } else {
      MarkerLengthOfConcat(d, a, b);
      var n := MarkerLength(d, a);
      var k := if n > 0 then n else 1;
      assert (a + b)[k..] == a[k..] + b;
      WithoutMarkersConcat(d, a[k..], b);
    }
  }

  lemma FirstWordMarked(d: Digits, word: string, words: seq<string>)
    ensures AllMarked(d, [word] + words) <==> OnlyMarked(d, word) && AllMarked(d, words)
  {
    hide OnlyMarked;
    assert word in [word] + words;
    forall w | w in words ensures w in [word] + words {}
  }

  /** Markers lie within words, so each word can be looked at by itself. */
  lemma {:induction false} MarkedByWords(d: Digits, s: string)
    requires ValidDigits(d)
    ensures OnlyMarked(d, s) <==> AllMarked(d, WordsOf(s))
    decreases |s|
  {
    if s != "" {
      assert !IsSpace('[');
      hide IsSpace, RunLength, AllSpace, AllMarked;
      if IsSpace(s[0]) {
        SpaceCons(s[0], WithoutMarkers(d, s[1..]));
        MarkedByWords(d, s[1..]);
      } else {
        var n := RunLength(s);
        RunStarts(s);
        assert s == s[..n] + s[n..];
        WithoutMarkersConcat(d, s[..n], s[n..]);
        SpaceConcat(WithoutMarkers(d, s[..n]), WithoutMarkers(d, s[n..]));
        MarkedByWords(d, s[n..]);
        FirstWordMarked(d, s[..n], WordsOf(s[n..]));
      }
    }
  }

  /** A character that is neither blank nor NUL, outside all markers. */
  ghost predicate HasText(d: Digits, content: string) {
    exists i :: 0 <= i < |content| && Visible(content[i]) && !InMarker(d, content, i)
  }

  predicate Visible(c: char) {
    !IsSpace(c) && c != '\0'
  }

  lemma MarkerLengthOfDenul(d: Digits, s: string)
    requires ValidDigits(d)
    ensures MarkerLength(d, Denul(s)) == MarkerLength(d, s)
  {
    if s != "" {
      assert !IsSpace('[') && IsSpace(' ');
      hide IsSpace;
      DigitRunOfDenul(d, s[1..]);
      assert Denul(s)[1..] == Denul(s[1..]);
    }
  }

  /** The normalised answer says something exactly when the raw text does. */
  lemma NormalizeKeepsText(d: Digits, content: string)
    requires ValidDigits(d)
    ensures SaysSomething(d, NormalizeAnswer(content)) <==> HasText(d, content)
  {
    var raw := Denul(content);
    NormalizeKeepsWords(content);
    MarkedByWords(d, NormalizeAnswer(content));
    MarkedByWords(d, raw);
    TextOutsideMarkers(d, raw);
    assert IsSpace(' ');
    hide NormalizeAnswer, WordsOf, IsSpace, MarkerLength, ValidDigits, WithoutMarkers, InMarker;
    forall i | 0 <= i < |content|
      ensures (IsSpace(raw[i]) <==> !Visible(content[i])) && (InMarker(d, raw, i) <==> InMarker(d, content, i))
    {
      MarkedAlike(d, content, i);
    }
  }

  /** NULs do not change what lies in a marker. */
  lemma MarkedAlike(d: Digits, content: string, i: nat)
    requires ValidDigits(d) && i < |content|
    ensures InMarker(d, Denul(content), i) <==> InMarker(d, content, i)
  {
    var raw := Denul(content);
    hide IsSpace, MarkerLength, ValidDigits, InMarker;
    CoveredIsInMarker(d, raw, i);
    CoveredIsInMarker(d, content, i);
    forall j | 0 <= j <= i ensures MarkerLength(d, raw[j..]) == MarkerLength(d, content[j..]) {
      assert raw[j..] == Denul(content[j..]);
      MarkerLengthOfDenul(d, content[j..]);
    }
  }

  // ---- the numbers of the markers

  /** What stands between the brackets. */
  function Inner(marker: string): string {
    if |marker| < 2 then "" else marker[1..|marker| - 1]
  }

  /** The numbers that the markers of the raw text stand for, in order. */
  function RawNumbers(d: Digits, content: string): (r: seq<nat>)
    ensures |r| == |MarkersOf(d, content)|
    ensures forall i :: 0 <= i < |r| ==> r[i] == PlaceValue(d, Inner(MarkersOf(d, content)[i]))
  {
    var markers := MarkersOf(d, content);
    seq(|markers|, i requires 0 <= i < |markers| => PlaceValue(d, Inner(markers[i])))
  }

  ghost predicate HasLongMarker(d: Digits, content: string) {
    exists i :: 0 <= i < |MarkersOf(d, content)| && |Inner(MarkersOf(d, content)[i])| > 6
  }

  lemma InnerIsDigits(answer: string, m: Match)
    requires m.start + 2 <= m.end <= |answer|
    ensures DigitsAt(answer, m) == Inner(answer[m.start..m.end])
  {}

  /** What the parser's matches denote, in terms of the raw text. */
  lemma ParsedNumbers(d: Digits, content: string, answer: string, ms: seq<Match>, markers: seq<string>)
    requires ValidDigits(d)
    requires answer == NormalizeAnswer(content) && ms == Matches(d, answer, 0) && markers == MarkersOf(d, content)
    ensures |ms| == |markers|
    ensures forall i :: 0 <= i < |ms| ==>
              ms[i].start + 2 <= ms[i].end <= |answer| && DigitsAt(answer, ms[i]) == Inner(markers[i])
  {
    ParsedMarkersAreRaw(d, content);
    MatchesInBounds(d, answer, ms);
    hide *;
    forall i | 0 <= i < |ms| ensures DigitsAt(answer, ms[i]) == Inner(markers[i]) {
      InnerIsDigits(answer, ms[i]);
    }
  }

  lemma SomeTooLong(answer: string, ms: seq<Match>, markers: seq<string>)
    requires |ms| == |markers|
    requires forall i :: 0 <= i < |ms| ==>
               ms[i].start + 2 <= ms[i].end <= |answer| && DigitsAt(answer, ms[i]) == Inner(markers[i])
    ensures (exists m :: m in ms && IsTooLong(answer, m)) <==>
            exists i :: 0 <= i < |markers| && |Inner(markers[i])| > 6
  {
    hide DigitsAt, Inner;
    if i :| 0 <= i < |markers| && |Inner(markers[i])| > 6 {
      assert ms[i] in ms && IsTooLong(answer, ms[i]);
    }
  }

  /** What parsing reports, in terms of the raw text. */
  lemma ParsedIsRaw(d: Digits, content: string, r: Parsed)
    requires ValidDigits(d) && IsParsed(d, content, r)
    ensures r.ParseInvalid? <==> HasLongMarker(d, content)
    ensures r.ParsedOutput? ==>
      && r.answer == NormalizeAnswer(content)
      && |r.markers| == |RawNumbers(d, content)| && r.uniqueIds == UniqueInOrder(RawNumbers(d, content))
  {
    var answer, markers := NormalizeAnswer(content), MarkersOf(d, content);
    var ms := Matches(d, answer, 0);
    ParsedNumbers(d, content, answer, ms, markers);
    hide NormalizeAnswer, Matches, MarkersOf, ValidDigits, Inner, PlaceValue, UniqueInOrder, DigitsAt, AreMarkers;
    if r.ParsedOutput? {
      assert IdsOf(r.markers) == RawNumbers(d, content);
    }
    SomeTooLong(answer, ms, markers);
  }

  // ---- the sources

  lemma {:induction false} IncludedFrom(sources: seq<CitationSource>, ids: set<nat>)
    ensures forall s :: s in Included(sources, ids) ==> s in sources
  {
    if sources != [] {
      IncludedFrom(sources[1..], ids);
    }
  }

  lemma {:induction false} SourcesAre(items: seq<SearchItem>, next: nat, s: CitationSource)
    requires s in SourcesFor(items, next)
    ensures next <= s.localId < next + |items| && s == SourceFor(s.localId, items[s.localId - next])
  {
    if s != SourceFor(next, items[0]) {
      SourcesAre(items[1..], next + 1, s);
    }
  }

  /** Number `n` stands for the search item with that number, counted from 1. */
  ghost predicate CitesItem(items: seq<SearchItem>, n: int, s: Source) {
    1 <= n <= |items| && s == Source(n, items[n - 1].runItemId)
  }

  lemma SourceCitesItem(items: seq<SearchItem>, packed: seq<ContextItem>, s: Source)
    requires s in AsSources(PromptSources(packed, SourcesFor(items, 1)))
    ensures CitesItem(items, s.localId, s)
  {
    var sources := PromptSources(packed, SourcesFor(items, 1));
    IncludedFrom(SourcesFor(items, 1), IncludedIds(packed));
    hide SourcesFor, PromptSources;
    var k :| 0 <= k < |sources| && AsSources(sources)[k] == s;
    assert sources[k] in sources;
    SourcesAre(items, 1, sources[k]);
  }

  // ---- the whole way

  datatype Answer =
    | Answered(text: string, cited: seq<Source>)
    | NoContext
    | MarkerTooLong
    | NotCited(code: RefusalCode)

  /** Every number is that of a packed item. */
  ghost predicate AllPacked(numbers: seq<nat>, packed: seq<ContextItem>) {
    forall i :: 0 <= i < |numbers| ==> HasId(packed, numbers[i])
  }

  lemma UniquePacked(numbers: seq<nat>, packed: seq<ContextItem>, sources: seq<Source>)
    requires forall id :: Mapped(sources, id) <==> HasId(packed, id)
    ensures AllMapped(UniqueInOrder(numbers), sources) <==> AllPacked(numbers, packed)
  {
    UniqueExact(numbers);
    hide UniqueInOrder, FirstIndex, Mapped, HasId;
    var u := UniqueInOrder(numbers);
    if AllMapped(u, sources) {
      forall i | 0 <= i < |numbers| ensures HasId(packed, numbers[i]) {
        assert numbers[i] in numbers;
        var k :| 0 <= k < |u| && u[k] == numbers[i];
      }
    }
    if AllPacked(numbers, packed) {
      forall k | 0 <= k < |u| ensures Mapped(sources, u[k]) {
        assert u[k] in u && u[k] in numbers;
        var i :| 0 <= i < |numbers| && numbers[i] == u[k];
      }
    }
  }

  ghost predicate AllCited(items: seq<SearchItem>, ids: seq<nat>, cited: seq<Source>) {
    |cited| == |ids| && forall i :: 0 <= i < |ids| ==> CitesItem(items, ids[i], cited[i])
  }

  lemma CitedAreItems(items: seq<SearchItem>, packed: seq<ContextItem>, ids: seq<nat>, cited: seq<Source>)
    requires AreCited(ids, AsSources(PromptSources(packed, SourcesFor(items, 1))), cited)
    ensures AllCited(items, ids, cited)
  {
    hide PromptSources, SourcesFor, CitesItem;
    forall i | 0 <= i < |ids| ensures CitesItem(items, ids[i], cited[i]) {
      SourceCitesItem(items, packed, cited[i]);
    }
  }

  /**
    An answer is accepted exactly when something was packed, the raw text has markers, none of
    them too long and all with the number of a packed item, and text besides. It then cites the
    search items with these numbers, each once, in the order in which the raw text names them.
   */
  method AnswerFrom(d: Digits, content: string, items: seq<SearchItem>, chunks: map<int, string>, maxContextChars: int)
    returns (r: Answer)
    requires ValidDigits(d)
    ensures var packed, numbers := Pack(items, chunks, maxContextChars, 1), RawNumbers(d, content);
      && (r.NoContext? <==> packed == [])
      && (r.MarkerTooLong? <==> packed != [] && HasLongMarker(d, content))
      && (r.Answered? <==>
            && packed != [] && numbers != [] && !HasLongMarker(d, content)
            && HasText(d, content) && AllPacked(numbers, packed))
      && (r.Answered? ==>
            r.text == NormalizeAnswer(content) && AllCited(items, UniqueInOrder(numbers), r.cited))
  {
    ghost var numbers := RawNumbers(d, content);
    var packed := ContextItemsFromSearchItems(items, chunks, maxContextChars);
    var sources := AsSources(PromptSources(packed, SourcesFor(items, 1)));
    PromptSourcesAgree(items, chunks, maxContextChars);
    PromptSourcesAreUsable(items, chunks, maxContextChars);
    assert |packed| == |sources|;
    UniquePacked(numbers, packed, sources);
    NormalizeKeepsText(d, content);
    hide *;
    if packed == [] || sources == [] {
      return NoContext;
    }
    var parsed := ParseGenerationOutput(d, content);
    ParsedIsRaw(d, content, parsed);
    if parsed.ParseInvalid? {
      return MarkerTooLong;
    }
    var validation := ValidateGenerationCitations(d, parsed.answer, parsed.markers, parsed.uniqueIds, sources);
    match validation {
      case Cited(cited) =>
        CitedAreItems(items, packed, parsed.uniqueIds, cited);
        r := Answered(parsed.answer, cited);
      case Refused(code) =>
        r := NotCited(code);
    }
  }
}

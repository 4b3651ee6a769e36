/**
  Citation markers in a generated answer (`parse_generation_output`,
  `validate_generation_citations`, `_unique_in_order`, `_normalize_answer_text` of
  citations.py).

  `\d` matches every decimal digit of Unicode and `int` reads it; both are a parameter.
 */
module Citations {
  import opened Text
  import opened Words

  /** The value of a decimal digit, None for any other character. */
  type Digits = char -> Option<nat>

  /** Digits are neither blanks nor brackets. */
  ghost predicate ValidDigits(d: Digits) {
    forall c :: d(c).Some? ==> !IsSpace(c) && c != '\0' && c != '[' && c != ']'
  }

  const MAX_MARKER_DIGITS: nat := 6

  // ---- normalisation

  /** The words of every line joined by single blanks; blank lines are dropped. */
  function CleanLines(lines: seq<string>): seq<string> {
    if lines == [] then []
    else
      var line := Join(WordsOf(lines[0]), ' ');
      (if line == "" then [] else [line]) + CleanLines(lines[1..])
  }

  /** `_normalize_answer_text` */
  function NormalizeAnswer(content: string): string {
    Join(CleanLines(SplitLines(Denul(content))), '\n')
  }

  /** A line of a normalised answer: words with single blanks between them. */
  ghost predicate IsCleanLine(line: string) {
    line != "" && exists ws :: AreWords(ws) && line == Join(ws, ' ')
  }

  lemma {:induction false} CleanLinesAreClean(lines: seq<string>)
    ensures forall i :: 0 <= i < |CleanLines(lines)| ==> IsCleanLine(CleanLines(lines)[i])
  {
    hide WordsOf, IsWord;
    if lines != [] {
      CleanLinesAreClean(lines[1..]);
      WordsAreWords(lines[0]);
    }
  }

  lemma JoinedWords(ws: seq<string>)
    requires AreWords(ws)
    ensures WordsOf(Join(ws, ' ')) == ws
  {
    assert IsSpace(' ');
    hide WordsOf, IsSpace, IsWord;
    WordsOfJoin(ws, ' ');
    WordsOfWords(ws);
  }

  lemma {:induction false} CleanLinesFixed(lines: seq<string>)
    requires forall i :: 0 <= i < |lines| ==> IsCleanLine(lines[i])
    ensures CleanLines(lines) == lines
  {
    hide WordsOf, IsWord;
    if lines != [] {
      var ws :| AreWords(ws) && lines[0] == Join(ws, ' ');
      JoinedWords(ws);
      CleanLinesFixed(lines[1..]);
    }
  }

  lemma {:induction false} JoinAvoids(parts: seq<string>, sep: char, c: char)
    requires c != sep && forall i :: 0 <= i < |parts| ==> c !in parts[i]
    ensures c !in Join(parts, sep)
  {
    if |parts| > 1 {
      JoinAvoids(parts[1..], sep, c);
    }
  }

  /** A clean line has no line break and no NUL if its words have none. */
  lemma CleanLineHasNoBreak(line: string, c: char)
    requires IsCleanLine(line) && IsLineBreak(c)
    ensures c !in line
  {
    LineBreakIsSpace(c);
    assert !IsLineBreak(' ');
    hide IsSpace, IsLineBreak;
    var ws :| AreWords(ws) && line == Join(ws, ' ');
    forall i | 0 <= i < |ws| ensures c !in ws[i] {
      assert IsWord(ws[i]);
    }
    JoinAvoids(ws, ' ', c);
  }

  ghost predicate Unbroken(line: string) {
    forall i :: 0 <= i < |line| ==> !IsLineBreak(line[i])
  }

  lemma {:induction false} LineLengthOf(line: string, rest: string)
    requires Unbroken(line) && (rest == "" || IsLineBreak(rest[0]))
    ensures LineLength(line + rest) == |line|
  {
    hide IsLineBreak;
    if line == "" {
      assert line + rest == rest;
    } else {
      assert (line + rest)[1..] == line[1..] + rest;
      LineLengthOf(line[1..], rest);
    }
  }

  /** Lines joined by newlines split back into the same lines. */
  lemma {:induction false} LinesSplitBack(lines: seq<string>)
    requires forall i :: 0 <= i < |lines| ==> lines[i] != "" && Unbroken(lines[i])
    ensures SplitLines(Join(lines, '\n')) == lines
  {
    assert IsLineBreak('\n');
    hide IsLineBreak;
    if lines != [] {
      var line := lines[0];
      if |lines| == 1 {
        LineLengthOf(line, "");
        assert line + "" == line;
      } else {
        var rest := Join(lines[1..], '\n');
        var s := Join(lines, '\n');
        LinesSplitBack(lines[1..]);
        assert s == line + (['\n'] + rest);
        LineLengthOf(line, ['\n'] + rest);
        assert s[..|line|] == line && s[|line|] == '\n' && s[|line| + 1..] == rest;
      }
    }
  }

  lemma {:induction false} CleanLinesNoNul(lines: seq<string>)
    requires forall i :: 0 <= i < |lines| ==> '\0' !in lines[i]
    ensures forall i :: 0 <= i < |CleanLines(lines)| ==> '\0' !in CleanLines(lines)[i]
  {
    hide WordsOf;
    if lines != [] {
      WordsNoNul(lines[0]);
      JoinAvoids(WordsOf(lines[0]), ' ', '\0');
      CleanLinesNoNul(lines[1..]);
    }
  }

  lemma {:induction false} WordsNoNul(s: string)
    requires '\0' !in s
    ensures forall i :: 0 <= i < |WordsOf(s)| ==> '\0' !in WordsOf(s)[i]
    decreases |s|
  {
    hide IsSpace, RunLength;
    if s != "" {
      if IsSpace(s[0]) {
        WordsNoNul(s[1..]);
      } else {
        assert RunLength(s) > 0 by { RunStarts(s); }
        WordsNoNul(s[RunLength(s)..]);
      }
    }
  }

  lemma RunStarts(s: string)
    requires s != "" && !IsSpace(s[0])
    ensures RunLength(s) > 0
  {}

  lemma {:induction false} LinesNoNul(s: string)
    requires '\0' !in s
    ensures forall i :: 0 <= i < |SplitLines(s)| ==> '\0' !in SplitLines(s)[i]
    decreases |s|
  {
    hide IsLineBreak;
    if s != "" && LineLength(s) < |s| {
      LinesNoNul(s[LineLength(s) + BreakLength(s, LineLength(s))..]);
    }
  }

  lemma NormalizedHasNoNul(content: string)
    ensures '\0' !in NormalizeAnswer(content)
  {
    hide SplitLines, CleanLines, Join;
    assert '\0' !in Denul(content);
    LinesNoNul(Denul(content));
    CleanLinesNoNul(SplitLines(Denul(content)));
    JoinAvoids(CleanLines(SplitLines(Denul(content))), '\n', '\0');
  }

  /** Normalising a normalised answer changes nothing. */
  lemma NormalizeIdempotent(content: string)
    ensures NormalizeAnswer(NormalizeAnswer(content)) == NormalizeAnswer(content)
  {
    hide SplitLines, CleanLines, Join, IsLineBreak, IsCleanLine;
    var lines := CleanLines(SplitLines(Denul(content)));
    NormalizedHasNoNul(content);
    DenulNoNul(NormalizeAnswer(content));
    CleanLinesAreClean(SplitLines(Denul(content)));
    forall i | 0 <= i < |lines| ensures lines[i] != "" && Unbroken(lines[i]) {
      CleanLineIsLine(lines[i]);
    }
    LinesSplitBack(lines);
    CleanLinesFixed(lines);
  }

  lemma CleanLineIsLine(line: string)
    requires IsCleanLine(line)
    ensures line != "" && Unbroken(line)
  {
    hide IsLineBreak;
    forall i | 0 <= i < |line| ensures !IsLineBreak(line[i]) {
      if IsLineBreak(line[i]) {
        CleanLineHasNoBreak(line, line[i]);
      }
    }
  }

  // ---- markers

  /** The number of digits `s` starts with. */
  function DigitRun(d: Digits, s: string): (n: nat)
    ensures n <= |s|
  {
    if s == "" || d(s[0]).None? then 0 else 1 + DigitRun(d, s[1..])
  }

  /** The length of the `[digits]` that `s` starts with, or 0. */
  function MarkerLength(d: Digits, s: string): (n: nat)
    ensures n <= |s|
    ensures n == 0 || n >= 3
  {
    if s == "" || s[0] != '[' then 0
    else
      var k := DigitRun(d, s[1..]);
      if k >= 1 && 1 + k < |s| && s[1 + k] == ']' then k + 2 else 0
  }

  /** `\[(\d+)\]`, the whole string. */
  ghost predicate IsMarker(d: Digits, s: string) {
    && |s| >= 3 && s[0] == '[' && s[|s| - 1] == ']'
    && forall i :: 0 < i < |s| - 1 ==> d(s[i]).Some?
  }

  lemma {:induction false} RunIsLongest(d: Digits, s: string, k: nat)
    requires k < |s| && d(s[k]).None? && forall i :: 0 <= i < k ==> d(s[i]).Some?
    ensures DigitRun(d, s) == k
  {
    if k > 0 {
      RunIsLongest(d, s[1..], k - 1);
    }
  }

  /** The length found is that of the one marker the string starts with, if there is one. */
  lemma MarkerExact(d: Digits, s: string, n: nat)
    requires ValidDigits(d) && 0 < n <= |s|
    ensures MarkerLength(d, s) == n <==> IsMarker(d, s[..n])
  {
    hide IsSpace;
    var inner := s[1..];
    if MarkerLength(d, s) == n {
      forall i | 0 < i < n - 1 ensures d(s[i]).Some? {
        DigitsInRun(d, inner, i - 1);
        assert inner[i - 1] == s[i];
      }
    } else if IsMarker(d, s[..n]) {
      assert inner[n - 2] == s[..n][n - 1] == ']';
      forall i | 0 <= i < n - 2 ensures d(inner[i]).Some? {
        assert inner[i] == s[..n][i + 1];
      }
      RunIsLongest(d, inner, n - 2);
      assert false;
    }
  }

  datatype Match = Match(start: nat, end: nat)

  /** The length of the marker at a position, or 0. */
  function MarkerAt(d: Digits, text: string, p: nat): (n: nat)
    ensures p <= |text| ==> p + n <= |text|
    ensures n == 0 || n >= 3
  {
    if p >= |text| then 0 else MarkerLength(d, text[p..])
  }

  /** `MARKER_RE.finditer`, from a position on. */
  function Matches(d: Digits, text: string, from: nat): seq<Match>
    decreases |text| - from
  {
    if from >= |text| then []
    else
      var n := MarkerAt(d, text, from);
      if n > 0 then [Match(from, from + n)] + Matches(d, text, from + n) else Matches(d, text, from + 1)
  }

  lemma {:induction false} DigitsInRun(d: Digits, s: string, i: nat)
    requires i < DigitRun(d, s)
    ensures d(s[i]).Some?
  {
    if i > 0 {
      DigitsInRun(d, s[1..], i - 1);
    }
  }

  /** No marker starts inside another one. */
  lemma NoMarkerInside(d: Digits, s: string, j: nat)
    requires ValidDigits(d) && 0 < j < MarkerLength(d, s)
    ensures MarkerLength(d, s[j..]) == 0
  {
    hide IsSpace;
    var k := DigitRun(d, s[1..]);
    if j <= k {
      DigitsInRun(d, s[1..], j - 1);
      assert s[1..][j - 1] == s[j];
    }
    assert s[j] != '[';
  }

  /**
    The matches lie from a position on, in order and disjoint, and they are exactly the places
    where a marker starts.
   */
  ghost predicate AreMatches(d: Digits, text: string, from: nat, ms: seq<Match>) {
    && (forall i :: 0 <= i < |ms| ==>
          from <= ms[i].start < ms[i].end <= |text| && ms[i].end - ms[i].start == MarkerAt(d, text, ms[i].start))
    && (forall i, j :: 0 <= i < j < |ms| ==> ms[i].end <= ms[j].start)
    && (forall p: nat :: from <= p < |text| && MarkerAt(d, text, p) > 0 ==> StartsAt(ms, p))
  }

  ghost predicate StartsAt(ms: seq<Match>, p: nat) {
    exists i :: 0 <= i < |ms| && ms[i].start == p
  }

  lemma NoMatchHere(d: Digits, text: string, from: nat, ms: seq<Match>)
    requires from < |text| && MarkerAt(d, text, from) == 0 && AreMatches(d, text, from + 1, ms)
    ensures AreMatches(d, text, from, ms)
  {
    hide MarkerAt, StartsAt;
  }

  lemma NoMarkerWithin(d: Digits, text: string, from: nat, p: nat)
    requires ValidDigits(d) && from < p < from + MarkerAt(d, text, from)
    ensures MarkerAt(d, text, p) == 0
  {
    hide ValidDigits, MarkerLength;
    NoMarkerInside(d, text[from..], p - from);
    assert text[from..][p - from..] == text[p..];
  }

  lemma StartsWith(m: Match, ms: seq<Match>, p: nat)
    ensures StartsAt([m] + ms, p) <==> m.start == p || StartsAt(ms, p)
  {
    if m.start == p {
      assert ([m] + ms)[0].start == p;
    }
    if StartsAt(ms, p) {
      var i :| 0 <= i < |ms| && ms[i].start == p;
      assert ([m] + ms)[i + 1].start == p;
    }
  }

  lemma MatchHere(d: Digits, text: string, from: nat, ms: seq<Match>)
    requires ValidDigits(d) && from < |text| && MarkerAt(d, text, from) > 0
    requires AreMatches(d, text, from + MarkerAt(d, text, from), ms)
    ensures AreMatches(d, text, from, [Match(from, from + MarkerAt(d, text, from))] + ms)
  {
    hide MarkerAt, ValidDigits, StartsAt;
    var m := Match(from, from + MarkerAt(d, text, from));
    var all := [m] + ms;
    assert forall i :: 0 < i < |all| ==> all[i] == ms[i - 1];
    forall p: nat | from <= p < |text| && MarkerAt(d, text, p) > 0 ensures StartsAt(all, p) {
      StartsWith(m, ms, p);
      if from < p < m.end {
        NoMarkerWithin(d, text, from, p);
      }
    }
  }

  lemma {:induction false} MatchesFrom(d: Digits, text: string, from: nat)
    requires ValidDigits(d) && from <= |text|
    ensures AreMatches(d, text, from, Matches(d, text, from))
    decreases |text| - from
  {
    hide MarkerAt, AreMatches, ValidDigits;
    if from == |text| {
      NoMatchLeft(d, text);
    } else if MarkerAt(d, text, from) > 0 {
      MatchesFrom(d, text, from + MarkerAt(d, text, from));
      MatchHere(d, text, from, Matches(d, text, from + MarkerAt(d, text, from)));
    } else {
      MatchesFrom(d, text, from + 1);
      NoMatchHere(d, text, from, Matches(d, text, from + 1));
    }
  }

  lemma NoMatchLeft(d: Digits, text: string)
    ensures AreMatches(d, text, |text|, [])
  {
    hide MarkerAt, StartsAt;
  }

  /** The matches are the markers in the text, all of them, in order and disjoint. */
  ghost predicate AreMarkers(d: Digits, text: string, ms: seq<Match>) {
    && (forall i :: 0 <= i < |ms| ==>
          ms[i].start < ms[i].end <= |text| && IsMarker(d, text[ms[i].start..ms[i].end]))
    && (forall i, j :: 0 <= i < j < |ms| ==> ms[i].end <= ms[j].start)
    && (forall lo, hi :: 0 <= lo < hi <= |text| && IsMarker(d, text[lo..hi]) ==> Match(lo, hi) in ms)
  }

  lemma MarkerAtExact(d: Digits, text: string, lo: nat, hi: nat)
    requires ValidDigits(d) && lo < hi <= |text|
    ensures MarkerAt(d, text, lo) == hi - lo <==> IsMarker(d, text[lo..hi])
  {
    hide ValidDigits, IsMarker, MarkerLength;
    MarkerExact(d, text[lo..], hi - lo);
    assert text[lo..][..hi - lo] == text[lo..hi];
  }

  lemma MatchesExact(d: Digits, text: string)
    requires ValidDigits(d)
    ensures AreMarkers(d, text, Matches(d, text, 0))
  {
    MatchesFrom(d, text, 0);
    var ms := Matches(d, text, 0);
    hide Matches, ValidDigits, MarkerAt, IsMarker, StartsAt;
    forall i | 0 <= i < |ms| ensures IsMarker(d, text[ms[i].start..ms[i].end]) {
      MarkerAtExact(d, text, ms[i].start, ms[i].end);
    }
    forall lo, hi | 0 <= lo < hi <= |text| && IsMarker(d, text[lo..hi]) ensures Match(lo, hi) in ms {
      MarkerIsMatched(d, text, ms, lo, hi);
    }
  }

  lemma MarkerIsMatched(d: Digits, text: string, ms: seq<Match>, lo: nat, hi: nat)
    requires ValidDigits(d) && AreMatches(d, text, 0, ms) && lo < hi <= |text| && IsMarker(d, text[lo..hi])
    ensures Match(lo, hi) in ms
  {
    hide ValidDigits, MarkerAt, IsMarker;
    MarkerAtExact(d, text, lo, hi);
    assert StartsAt(ms, lo);
    var i :| 0 <= i < |ms| && ms[i].start == lo;
    assert ms[i] == Match(lo, hi);
  }

  function MarkerTexts(text: string, ms: seq<Match>): (r: seq<string>)
    requires forall i :: 0 <= i < |ms| ==> ms[i].start <= ms[i].end <= |text|
    ensures |r| == |ms|
    ensures forall i :: 0 <= i < |r| ==> r[i] == text[ms[i].start..ms[i].end]
  {
    seq(|ms|, i requires 0 <= i < |ms| => text[ms[i].start..ms[i].end])
  }

  /** The markers of a text, in order, as they are written. */
  function MarkersOf(d: Digits, s: string): seq<string>
    decreases |s|
  {
    if s == "" then []
    else
      var n := MarkerLength(d, s);
      if n > 0 then [s[..n]] + MarkersOf(d, s[n..]) else MarkersOf(d, s[1..])
  }

  /** What the matches cut out of the text are its markers. */
  lemma {:induction false} MatchesAreMarkers(d: Digits, text: string, from: nat)
    requires ValidDigits(d) && from <= |text|
    ensures AreMatches(d, text, from, Matches(d, text, from))
    ensures MarkerTexts(text, Matches(d, text, from)) == MarkersOf(d, text[from..])
    decreases |text| - from
  {
    hide MarkerLength, ValidDigits, StartsAt;
    MatchesFrom(d, text, from);
    if from < |text| {
      var n := MarkerAt(d, text, from);
      var next := if n > 0 then from + n else from + 1;
      MatchesAreMarkers(d, text, next);
      hide AreMatches, Matches;
      assert text[from..][next - from..] == text[next..];
      assert n > 0 ==> text[from..][..n] == text[from..from + n];
      var ms, rest := Matches(d, text, from), Matches(d, text, next);
      assert n > 0 ==> MarkerTexts(text, [Match(from, next)] + rest) == [text[from..next]] + MarkerTexts(text, rest);
    }
  }

  lemma {:induction false} DigitRunOfConcat(d: Digits, a: string, b: string)
    requires b == "" || d(b[0]).None?
    ensures DigitRun(d, a + b) == DigitRun(d, a)
  {
    if a == "" {
      assert a + b == b;
    } else {
      assert (a + b)[1..] == a[1..] + b;
      DigitRunOfConcat(d, a[1..], b);
    }
  }

  lemma MarkerLengthOfConcat(d: Digits, a: string, b: string)
    requires ValidDigits(d) && a != "" && (b == "" || IsSpace(b[0]))
    ensures MarkerLength(d, a + b) == MarkerLength(d, a)
  {
    assert !IsSpace(']');
    hide IsSpace;
    assert (a + b)[1..] == a[1..] + b;
    DigitRunOfConcat(d, a[1..], b);
  }

  /** Whitespace behind a text does not change the markers in it. */
  lemma {:induction false} MarkersOfConcat(d: Digits, a: string, b: string)
    requires ValidDigits(d) && (b == "" || IsSpace(b[0]))
    ensures MarkersOf(d, a + b) == MarkersOf(d, a) + MarkersOf(d, b)
    decreases |a|
  {
    hide IsSpace, MarkerLength, ValidDigits;
    if a == "" {
      assert a + b == b;
    } else {
      MarkerLengthOfConcat(d, a, b);
      var n := MarkerLength(d, a);
      var k := if n > 0 then n else 1;
      assert (a + b)[..n] == a[..n] && (a + b)[k..] == a[k..] + b;
      MarkersOfConcat(d, a[k..], b);
    }
  }

  function MarkersOfAll(d: Digits, words: seq<string>): seq<string> {
    if words == [] then [] else MarkersOf(d, words[0]) + MarkersOfAll(d, words[1..])
  }

  /** Markers lie within words. */
  lemma {:induction false} MarkersInWords(d: Digits, s: string)
    requires ValidDigits(d)
    ensures MarkersOf(d, s) == MarkersOfAll(d, WordsOf(s))
    decreases |s|
  {
    if s != "" {
      assert !IsSpace('[');
      hide IsSpace, RunLength;
      if IsSpace(s[0]) {
        MarkersInWords(d, s[1..]);
      } else {
        var n := RunLength(s);
        RunStarts(s);
        assert s == s[..n] + s[n..];
        MarkersOfConcat(d, s[..n], s[n..]);
        MarkersInWords(d, s[n..]);
      }
    }
  }

  lemma {:induction false} MarkersOfDenul(d: Digits, s: string)
    requires ValidDigits(d)
    ensures MarkersOf(d, Denul(s)) == MarkersOf(d, s)
    decreases |s|
  {
    if s != "" {
      assert !IsSpace('[') && IsSpace(' ');
      hide IsSpace;
      DigitRunOfDenul(d, s[1..]);
      DenulSlice(s, 1, |s|);
      assert s[1..|s|] == s[1..] && Denul(s)[1..|s|] == Denul(s)[1..];
      var n := MarkerLength(d, s);
      assert MarkerLength(d, Denul(s)) == n;
      if n > 0 {
        MarkerHasNoNul(d, s);
        DenulSlice(s, 0, n);
        DenulSlice(s, n, |s|);
        assert Denul(s)[..n] == s[..n] && Denul(s)[n..] == Denul(s[n..]);
        MarkersOfDenul(d, s[n..]);
      } else {
        MarkersOfDenul(d, s[1..]);
      }
    }
  }

  lemma {:induction false} DigitRunOfDenul(d: Digits, s: string)
    requires ValidDigits(d)
    ensures DigitRun(d, Denul(s)) == DigitRun(d, s)
  {
    if s != "" {
      assert IsSpace(' ');
      hide IsSpace;
      DigitRunOfDenul(d, s[1..]);
      assert Denul(s)[1..] == Denul(s[1..]);
    }
  }

  lemma MarkerHasNoNul(d: Digits, s: string)
    requires ValidDigits(d)
    ensures '\0' !in s[..MarkerLength(d, s)]
  {
    hide IsSpace;
    var n := MarkerLength(d, s);
    forall i | 0 <= i < n ensures s[i] != '\0' {
      if 0 < i < n - 1 {
        DigitsInRun(d, s[1..], i - 1);
      }
    }
  }

  lemma {:induction false} CleanLinesKeepWords(lines: seq<string>)
    ensures WordsOfAll(CleanLines(lines)) == WordsOfAll(lines)
  {
    hide WordsOf, Join;
    if lines != [] {
      WordsAreWords(lines[0]);
      JoinedWords(WordsOf(lines[0]));
      CleanLinesKeepWords(lines[1..]);
      var line, rest := Join(WordsOf(lines[0]), ' '), CleanLines(lines[1..]);
      assert WordsOf(line) == WordsOf(lines[0]);
      if line == "" {
        SpaceHasNoWords("");
        assert CleanLines(lines) == rest;
      } else {
        assert CleanLines(lines) == [line] + rest;
        assert ([line] + rest)[1..] == rest;
      }
    }
  }

  /** The answer has the words of the raw content. */
  lemma NormalizeKeepsWords(content: string)
    ensures WordsOf(NormalizeAnswer(content)) == WordsOf(Denul(content))
  {
    assert IsSpace('\n');
    hide WordsOf, Join, SplitLines, CleanLines, IsSpace;
    var raw := Denul(content);
    WordsOfJoin(CleanLines(SplitLines(raw)), '\n');
    CleanLinesKeepWords(SplitLines(raw));
    WordsOfLines(raw);
  }

  /** The answer has the markers of the raw content: none lost, none made up, in the same order. */
  lemma NormalizeKeepsMarkers(d: Digits, content: string)
    requires ValidDigits(d)
    ensures MarkersOf(d, NormalizeAnswer(content)) == MarkersOf(d, content)
  {
    hide WordsOf, NormalizeAnswer, MarkersOf;
    MarkersOfDenul(d, content);
    MarkersInWords(d, Denul(content));
    MarkersInWords(d, NormalizeAnswer(content));
    NormalizeKeepsWords(content);
  }

  /** The markers of the raw content, and what the parser's matches cut out of the answer, are the same. */
  lemma ParsedMarkersAreRaw(d: Digits, content: string)
    requires ValidDigits(d)
    ensures var answer := NormalizeAnswer(content);
      && AreMarkers(d, answer, Matches(d, answer, 0)) && AreMarkers(d, content, Matches(d, content, 0))
      && MarkerTexts(answer, Matches(d, answer, 0)) == MarkersOf(d, content)
      && MarkerTexts(content, Matches(d, content, 0)) == MarkersOf(d, content)
  {
    hide NormalizeAnswer, Matches, MarkersOf, ValidDigits, IsMarker;
    var answer := NormalizeAnswer(content);
    MatchesExact(d, answer);
    MatchesExact(d, content);
    MatchesAreMarkers(d, answer, 0);
    MatchesAreMarkers(d, content, 0);
    assert answer[0..] == answer && content[0..] == content;
    NormalizeKeepsMarkers(d, content);
  }

  // ---- parsing

  datatype Marker = Marker(localId: nat, start: nat, end: nat)

  datatype Parsed =
    | ParsedOutput(answer: string, markers: seq<Marker>, uniqueIds: seq<nat>)
    | ParseInvalid

  /** The number that the digits denote. */
  function NumberOf(d: Digits, digits: string): nat {
    if digits == "" then 0
    else
      var last := d(digits[|digits| - 1]);
      10 * NumberOf(d, digits[..|digits| - 1]) + (if last.Some? then last.value else 0)
  }

  function Pow10(k: nat): nat {
    if k == 0 then 1 else 10 * Pow10(k - 1)
  }

  /** The sum of the digits' values, each times the power of ten of its place. */
  function PlaceValue(d: Digits, digits: string): nat {
    if digits == "" then 0
    else (if d(digits[0]).Some? then d(digits[0]).value else 0) * Pow10(|digits| - 1) + PlaceValue(d, digits[1..])
  }

  lemma {:induction false} PlaceValueOfLast(d: Digits, front: string, c: char)
    ensures PlaceValue(d, front + [c]) == 10 * PlaceValue(d, front) + if d(c).Some? then d(c).value else 0
  {
    if front == "" {
      assert front + [c] == [c] && [c][1..] == "";
      assert PlaceValue(d, "") == 0;
    } else {
      PlaceValueOfLast(d, front[1..], c);
      assert (front + [c])[1..] == front[1..] + [c];
      var v := if d(front[0]).Some? then d(front[0]).value else 0;
      assert v * Pow10(|front|) == 10 * (v * Pow10(|front| - 1));
    }
  }

  /** Reading the digits from left to right gives their place value. */
  lemma {:induction false} NumberIsPlaceValue(d: Digits, digits: string)
    ensures NumberOf(d, digits) == PlaceValue(d, digits)
  {
    if digits != "" {
      var n := |digits| - 1;
      NumberIsPlaceValue(d, digits[..n]);
      PlaceValueOfLast(d, digits[..n], digits[n]);
      assert digits == digits[..n] + [digits[n]];
    }
  }

  /** The string writes `n` in decimal, leading zeros allowed. */
  ghost predicate Writes(d: Digits, digits: string, n: nat)
    decreases |digits|
  {
    if digits == "" then n == 0
    else
      && d(digits[|digits| - 1]) == Some(n % 10)
      && Writes(d, digits[..|digits| - 1], n / 10)
  }

  /** A number written in decimal is read back. */
  lemma {:induction false} NumberRoundTrip(d: Digits, digits: string, n: nat)
    requires Writes(d, digits, n)
    ensures NumberOf(d, digits) == n
    decreases |digits|
  {
    if digits != "" {
      NumberRoundTrip(d, digits[..|digits| - 1], n / 10);
    }
  }

  /** The digits of the marker at a match. */
  function DigitsAt(text: string, m: Match): string
    requires m.start + 2 <= m.end <= |text|
  {
    text[m.start + 1..m.end - 1]
  }

  function UniqueInOrder(values: seq<nat>): seq<nat> {
    if values == [] then []
    else
      var before, last := UniqueInOrder(values[..|values| - 1]), values[|values| - 1];
      if last in before then before else before + [last]
  }

  /** `_unique_in_order` */
  method UniqueInOrderOf(values: seq<nat>) returns (unique: seq<nat>)
    ensures unique == UniqueInOrder(values)
  {
    unique := [];
    var seen: set<nat> := {};
    for i := 0 to |values|
      invariant unique == UniqueInOrder(values[..i])
      invariant forall v :: v in seen <==> v in unique
    {
      assert values[..i + 1][..i] == values[..i];
      if values[i] !in seen {
        seen := seen + {values[i]};
        unique := unique + [values[i]];
      }
    }
    assert values[..|values|] == values;
  }

  function FirstIndex(values: seq<nat>, v: nat): (i: nat)
    ensures i <= |values| && v !in values[..i]
    ensures i < |values| ==> values[i] == v
  {
    if values == [] || values[0] == v then 0
    else
      var k := FirstIndex(values[1..], v);
      assert values[..k + 1] == [values[0]] + values[1..][..k];
      k + 1
  }

  /** Each value once, ordered by where it first appears. */
  lemma {:induction false} UniqueExact(values: seq<nat>)
    ensures var u := UniqueInOrder(values);
      && (forall v :: v in u <==> v in values)
      && (forall i, j :: 0 <= i < j < |u| ==> FirstIndex(values, u[i]) < FirstIndex(values, u[j]))
  {
    if values != [] {
      var n := |values| - 1;
      var front, last := values[..n], values[n];
      assert values == front + [last];
      UniqueExact(front);
      var before := UniqueInOrder(front);
      forall v | v in front ensures FirstIndex(values, v) == FirstIndex(front, v) < n {
        var i := FirstIndex(front, v);
        var k := FirstIndex(values, v);
        assert values[i] == v;
        assert values[..k] == front[..k] || k > n;
      }
      forall i | 0 <= i < |before| ensures before[i] in front {
        assert before[i] in before;
      }
      if last !in before {
        assert FirstIndex(values, last) == n;
      }
    }
  }

  function IdsOf(markers: seq<Marker>): (r: seq<nat>)
    ensures |r| == |markers|
    ensures forall i :: 0 <= i < |r| ==> r[i] == markers[i].localId
  {
    seq(|markers|, i requires 0 <= i < |markers| => markers[i].localId)
  }

  /** The markers of the first matches, with their numbers and offsets; none of them is too long. */
  ghost predicate AreRead(d: Digits, answer: string, ms: seq<Match>, markers: seq<Marker>) {
    && |markers| <= |ms|
    && forall i :: 0 <= i < |markers| ==>
         ms[i].start + 2 <= ms[i].end <= |answer| && |DigitsAt(answer, ms[i])| <= 6 &&
         markers[i] == Marker(PlaceValue(d, DigitsAt(answer, ms[i])), ms[i].start, ms[i].end)
  }

  ghost predicate IsTooLong(answer: string, m: Match) {
    m.start + 2 <= m.end <= |answer| && |DigitsAt(answer, m)| > 6
  }

  /** Every match with its number and its offsets, or a failure exactly when one has too many digits. */
  ghost predicate IsParsed(d: Digits, content: string, r: Parsed) {
    var answer := NormalizeAnswer(content);
    var ms := Matches(d, answer, 0);
    && AreMarkers(d, answer, ms)
    && (r.ParseInvalid? <==> exists m :: m in ms && IsTooLong(answer, m))
    && (r.ParsedOutput? ==>
          && r.answer == answer && |r.markers| == |ms| && AreRead(d, answer, ms, r.markers)
          && r.uniqueIds == UniqueInOrder(IdsOf(r.markers)))
  }

  lemma MatchesInBounds(d: Digits, text: string, ms: seq<Match>)
    requires AreMarkers(d, text, ms)
    ensures forall i :: 0 <= i < |ms| ==> ms[i].start + 2 <= ms[i].end <= |text|
  {}

  /**
    `parse_generation_output`: every marker of the normalised answer with its number and its
    offsets, or a failure exactly when one has too many digits.
   */
  method ParseGenerationOutput(d: Digits, content: string) returns (r: Parsed)
    requires ValidDigits(d)
    ensures IsParsed(d, content, r)
  {
    hide NormalizeAnswer, Matches, NumberOf, PlaceValue, ValidDigits, DigitsAt, AreMarkers;
    var answer := NormalizeAnswer(content);
    var ms := Matches(d, answer, 0);
    var markers: seq<Marker> := [];
    MatchesExact(d, answer);
    MatchesInBounds(d, answer, ms);
    for i := 0 to |ms|
      invariant |markers| == i && AreRead(d, answer, ms, markers)
    {
      var m := ms[i];
      var raw := DigitsAt(answer, m);
      if |raw| > MAX_MARKER_DIGITS {
        assert IsTooLong(answer, m);
        return ParseInvalid;
      }
      NumberIsPlaceValue(d, raw);
      markers := markers + [Marker(NumberOf(d, raw), m.start, m.end)];
    }
    var unique := UniqueInOrderOf(IdsOf(markers));
    r := ParsedOutput(answer, markers, unique);
  }

  // ---- validation

  datatype Source = Source(localId: int, item: int)

  datatype Validation = Cited(sources: seq<Source>) | Refused(code: RefusalCode)

  datatype RefusalCode = MarkerMissing | OnlyMarkers | IndexOutOfRange | SourceUnmapped | SourceMissing

  /** The text with its markers removed. */
  function WithoutMarkers(d: Digits, s: string): string
    decreases |s|
  {
    if s == "" then ""
    else
      var n := MarkerLength(d, s);
      if n > 0 then WithoutMarkers(d, s[n..]) else [s[0]] + WithoutMarkers(d, s[1..])
  }

  /** Position `i` belongs to a marker that is found at some place. */
  ghost predicate IsCovered(d: Digits, s: string, i: int) {
    exists j :: 0 <= j <= i < |s| && i < j + MarkerLength(d, s[j..])
  }

  lemma {:induction false} TextOutside(d: Digits, s: string)
    requires ValidDigits(d)
    ensures AllSpace(WithoutMarkers(d, s)) <==> forall i :: 0 <= i < |s| ==> IsSpace(s[i]) || IsCovered(d, s, i)
    decreases |s|
  {
    hide IsSpace, MarkerLength;
    if s != "" {
      var n := MarkerLength(d, s);
      var k := if n > 0 then n else 1;
      var rest := s[k..];
      TextOutside(d, rest);
      forall i | k <= i < |s| ensures IsCovered(d, s, i) <==> IsCovered(d, rest, i - k) {
        ShiftMarker(d, s, k, i);
      }
      forall i | 0 <= i < n ensures IsCovered(d, s, i) {
        assert s[0..] == s;
      }
      assert forall i :: 0 <= i < |rest| ==> rest[i] == s[k + i];
      if n == 0 {
        FirstOutside(d, s);
        assert WithoutMarkers(d, s) == [s[0]] + WithoutMarkers(d, rest);
        SpaceCons(s[0], WithoutMarkers(d, rest));
      }
      if forall i :: 0 <= i < |s| ==> IsSpace(s[i]) || IsCovered(d, s, i) {
        forall i | 0 <= i < |rest| ensures IsSpace(rest[i]) || IsCovered(d, rest, i) {
          assert rest[i] == s[k + i];
          assert IsCovered(d, s, k + i) <==> IsCovered(d, rest, k + i - k);
        }
      }
      if forall i :: 0 <= i < |rest| ==> IsSpace(rest[i]) || IsCovered(d, rest, i) {
        forall i | k <= i < |s| ensures IsSpace(s[i]) || IsCovered(d, s, i) {
          assert rest[i - k] == s[i];
        }
      }
    }
  }

  lemma SpaceCons(c: char, s: string)
    ensures AllSpace([c] + s) <==> IsSpace(c) && AllSpace(s)
  {
    hide IsSpace;
    assert ([c] + s)[0] == c;
    assert forall i :: 0 <= i < |s| ==> ([c] + s)[i + 1] == s[i];
  }

  lemma FirstOutside(d: Digits, s: string)
    requires s != "" && MarkerLength(d, s) == 0
    ensures !IsCovered(d, s, 0)
  {
    assert s[0..] == s;
  }

  lemma ShiftMarker(d: Digits, s: string, k: nat, i: nat)
    requires ValidDigits(d) && s != "" && k == (if MarkerLength(d, s) > 0 then MarkerLength(d, s) else 1)
    requires k <= i < |s|
    ensures IsCovered(d, s, i) <==> IsCovered(d, s[k..], i - k)
  {
    hide MarkerLength, IsSpace;
    var rest := s[k..];
    if IsCovered(d, s, i) {
      var j :| 0 <= j <= i < |s| && i < j + MarkerLength(d, s[j..]);
      assert s[0..] == s;
      if 0 < j < k {
        NoMarkerInside(d, s, j);
      }
      assert j >= k;
      assert rest[j - k..] == s[j..];
      assert 0 <= j - k <= i - k < |rest| && i - k < (j - k) + MarkerLength(d, rest[j - k..]);
    }
    if IsCovered(d, rest, i - k) {
      var j :| 0 <= j <= i - k < |rest| && i - k < j + MarkerLength(d, rest[j..]);
      assert rest[j..] == s[j + k..];
      assert 0 <= j + k <= i < |s| && i < (j + k) + MarkerLength(d, s[j + k..]);
    }
  }

  /** Position `i` belongs to a marker. */
  ghost predicate InMarker(d: Digits, s: string, i: int) {
    exists lo, hi :: 0 <= lo <= i < hi <= |s| && IsMarker(d, s[lo..hi])
  }

  lemma CoveredIsInMarker(d: Digits, s: string, i: int)
    requires ValidDigits(d)
    ensures InMarker(d, s, i) <==> IsCovered(d, s, i)
  {
    hide ValidDigits, IsMarker, MarkerLength;
    if InMarker(d, s, i) {
      var lo, hi :| 0 <= lo <= i < hi <= |s| && IsMarker(d, s[lo..hi]);
      MarkerAtExact(d, s, lo, hi);
    }
    if IsCovered(d, s, i) {
      var lo :| 0 <= lo <= i < |s| && i < lo + MarkerLength(d, s[lo..]);
      var hi := lo + MarkerLength(d, s[lo..]);
      MarkerAtExact(d, s, lo, hi);
      assert IsMarker(d, s[lo..hi]);
    }
  }

  /** Something is left without the markers exactly when a visible character lies outside them. */
  lemma TextOutsideMarkers(d: Digits, s: string)
    requires ValidDigits(d)
    ensures AllSpace(WithoutMarkers(d, s)) <==> forall i :: 0 <= i < |s| ==> IsSpace(s[i]) || InMarker(d, s, i)
  {
    hide ValidDigits, IsSpace, InMarker, IsCovered, WithoutMarkers, AllSpace;
    TextOutside(d, s);
    forall i ensures InMarker(d, s, i) <==> IsCovered(d, s, i) {
      CoveredIsInMarker(d, s, i);
    }
  }

  ghost predicate SourcesUsable(sources: seq<Source>) {
    && (forall i :: 0 <= i < |sources| ==> sources[i].localId >= 1)
    && (forall i, j :: 0 <= i < j < |sources| ==> sources[i].localId != sources[j].localId)
  }

  ghost predicate Mapped(sources: seq<Source>, id: int) {
    exists i :: 0 <= i < |sources| && sources[i].localId == id
  }

  /** The map holds the sources under their ids and nothing else. */
  ghost predicate Indexes(m: map<int, Source>, sources: seq<Source>) {
    && (forall id :: id in m <==> Mapped(sources, id))
    && (forall id :: id in m ==> m[id] in sources && m[id].localId == id)
  }

  ghost predicate IsLargest(maxId: int, sources: seq<Source>) {
    && (forall i :: 0 <= i < |sources| ==> sources[i].localId <= maxId)
    && if sources == [] then maxId == 0 else Mapped(sources, maxId)
  }

  /** The loop of `validate_generation_citations` over the sources: None for an unusable source map. */
  method IndexSources(sourceMap: seq<Source>) returns (byId: Option<map<int, Source>>, maxId: int)
    ensures byId.None? <==> !SourcesUsable(sourceMap)
    ensures byId.Some? ==> Indexes(byId.value, sourceMap) && IsLargest(maxId, sourceMap)
  {
    var sourceByLocalId: map<int, Source> := map[];
    maxId := 0;
    for n := 0 to |sourceMap|
      invariant SourcesUsable(sourceMap[..n])
      invariant Indexes(sourceByLocalId, sourceMap[..n])
      invariant IsLargest(maxId, sourceMap[..n])
    {
      var source := sourceMap[n];
      if source.localId < 1 || source.localId in sourceByLocalId {
        NotUsable(sourceMap, n);
        return None, 0;
      }
      assert sourceMap[..n + 1] == sourceMap[..n] + [source];
      UsableMore(sourceMap[..n], source);
      IndexMore(sourceByLocalId, sourceMap[..n], source);
      LargestMore(maxId, sourceMap[..n], source);
      sourceByLocalId := sourceByLocalId[source.localId := source];
      if source.localId > maxId {
        maxId := source.localId;
      }
    }
    assert sourceMap[..|sourceMap|] == sourceMap;
    byId := Some(sourceByLocalId);
  }

  lemma NotUsable(sources: seq<Source>, n: nat)
    requires n < |sources| && (sources[n].localId < 1 || Mapped(sources[..n], sources[n].localId))
    ensures !SourcesUsable(sources)
  {
    if Mapped(sources[..n], sources[n].localId) {
      var i :| 0 <= i < n && sources[..n][i].localId == sources[n].localId;
      assert sources[i].localId == sources[n].localId;
    }
  }

  lemma MappedMore(sources: seq<Source>, source: Source, id: int)
    ensures Mapped(sources + [source], id) <==> Mapped(sources, id) || id == source.localId
  {
    var more := sources + [source];
    if Mapped(sources, id) {
      var i :| 0 <= i < |sources| && sources[i].localId == id;
      assert more[i] == sources[i];
    }
    assert more[|sources|] == source;
  }

  lemma UsableMore(sources: seq<Source>, source: Source)
    requires SourcesUsable(sources) && source.localId >= 1 && !Mapped(sources, source.localId)
    ensures SourcesUsable(sources + [source])
  {
    var more := sources + [source];
    forall i, j | 0 <= i < j < |more| ensures more[i].localId != more[j].localId {
      assert more[i] == sources[i];
    }
  }

  lemma IndexMore(m: map<int, Source>, sources: seq<Source>, source: Source)
    requires Indexes(m, sources)
    ensures Indexes(m[source.localId := source], sources + [source])
  {
    hide Mapped;
    forall id ensures Mapped(sources + [source], id) <==> Mapped(sources, id) || id == source.localId {
      MappedMore(sources, source, id);
    }
    assert (sources + [source])[|sources|] == source;
  }

  lemma LargestMore(maxId: int, sources: seq<Source>, source: Source)
    requires IsLargest(maxId, sources) && source.localId >= 1
    ensures IsLargest(if source.localId > maxId then source.localId else maxId, sources + [source])
  {
    hide Mapped;
    MappedMore(sources, source, maxId);
    MappedMore(sources, source, source.localId);
  }

  ghost predicate BelowOne(ids: seq<nat>) {
    exists i :: 0 <= i < |ids| && ids[i] < 1
  }

  /** Some marker id exceeds every source id. */
  ghost predicate AboveAll(ids: seq<nat>, sources: seq<Source>) {
    exists i :: 0 <= i < |ids| && forall j :: 0 <= j < |sources| ==> sources[j].localId < ids[i]
  }

  ghost predicate AllMapped(ids: seq<nat>, sources: seq<Source>) {
    forall i :: 0 <= i < |ids| ==> Mapped(sources, ids[i])
  }

  /** The visible part of the answer is more than markers. */
  ghost predicate SaysSomething(d: Digits, answer: string) {
    !AllSpace(WithoutMarkers(d, answer))
  }

  /** When each refusal is given, in the order of the checks. */
  ghost predicate RefusedFor(d: Digits, answer: string, markers: seq<Marker>, ids: seq<nat>, sources: seq<Source>,
                             code: RefusalCode) {
    match code
    case MarkerMissing => markers == []
    case OnlyMarkers => markers != [] && !SaysSomething(d, answer)
    case IndexOutOfRange =>
      && markers != [] && SaysSomething(d, answer)
      && (BelowOne(ids) || (SourcesUsable(sources) && sources != [] && AboveAll(ids, sources)))
    case SourceUnmapped =>
      && markers != [] && SaysSomething(d, answer) && !BelowOne(ids)
      && (!SourcesUsable(sources) || (sources != [] && !AboveAll(ids, sources) && !AllMapped(ids, sources)))
    case SourceMissing =>
      && markers != [] && SaysSomething(d, answer) && !BelowOne(ids) && sources == []
  }

  /** The cited sources, one for each id, in the order of the ids. */
  ghost predicate AreCited(ids: seq<nat>, sources: seq<Source>, cited: seq<Source>) {
    && |cited| == |ids|
    && forall i :: 0 <= i < |ids| ==> cited[i] in sources && cited[i].localId == ids[i]
  }

  /** `validate_generation_citations` */
  method ValidateGenerationCitations(d: Digits, answer: string, markers: seq<Marker>, uniqueIds: seq<nat>,
                                     sourceMap: seq<Source>)
    returns (r: Validation)
    requires ValidDigits(d)
    ensures r.Cited? <==>
            && markers != [] && SaysSomething(d, answer)
            && SourcesUsable(sourceMap) && sourceMap != [] && AllMapped(uniqueIds, sourceMap)
    ensures r.Cited? ==> AreCited(uniqueIds, sourceMap, r.sources)
    ensures r.Refused? ==> RefusedFor(d, answer, markers, uniqueIds, sourceMap, r.code)
  {
    hide IsSpace, WithoutMarkers, ValidDigits, AllSpace, Strip, SourcesUsable, Mapped;
    if markers == [] {
      return Refused(MarkerMissing);
    }
    StripEmptyIfSpace(WithoutMarkers(d, answer));
    if Strip(WithoutMarkers(d, answer)) == "" {
      return Refused(OnlyMarkers);
    }
    if i :| 0 <= i < |uniqueIds| && uniqueIds[i] < 1 {
      UnmappedZero(sourceMap, uniqueIds[i]);
      return Refused(IndexOutOfRange);
    }
    var byId, maxId := IndexSources(sourceMap);
    if byId.None? {
      return Refused(SourceUnmapped);
    }
    if sourceMap == [] {
      return Refused(SourceMissing);
    }
    var sourceByLocalId := byId.value;
    if i :| 0 <= i < |uniqueIds| && uniqueIds[i] > maxId {
      NotMappedAbove(sourceMap, maxId, uniqueIds[i]);
      return Refused(IndexOutOfRange);
    }
    assert !AboveAll(uniqueIds, sourceMap) by {
      MaxNotBelow(sourceMap, maxId);
    }
    if i :| 0 <= i < |uniqueIds| && uniqueIds[i] !in sourceByLocalId {
      return Refused(SourceUnmapped);
    }
    var cited := seq(|uniqueIds|, i requires 0 <= i < |uniqueIds| && uniqueIds[i] in sourceByLocalId =>
                     sourceByLocalId[uniqueIds[i]]);
    r := Cited(cited);
  }

  lemma UnmappedZero(sources: seq<Source>, id: int)
    requires id < 1
    ensures SourcesUsable(sources) ==> !Mapped(sources, id)
  {}

  lemma NotMappedAbove(sources: seq<Source>, maxId: int, id: int)
    requires id > maxId && forall i :: 0 <= i < |sources| ==> sources[i].localId <= maxId
    ensures !Mapped(sources, id)
  {}

  lemma MaxNotBelow(sources: seq<Source>, maxId: int)
    requires Mapped(sources, maxId)
    ensures exists j :: 0 <= j < |sources| && sources[j].localId == maxId
  {}

  /** Validated citations are distinct sources, in the order in which the answer first cites them. */
  lemma CitedInOrder(values: seq<nat>, sources: seq<Source>, cited: seq<Source>)
    requires AreCited(UniqueInOrder(values), sources, cited)
    ensures forall i, j :: 0 <= i < j < |cited| ==>
              cited[i].localId >= 0 && cited[j].localId >= 0 && cited[i] != cited[j] &&
              FirstIndex(values, cited[i].localId) < FirstIndex(values, cited[j].localId)
    ensures forall v :: v in values ==> exists i :: 0 <= i < |cited| && cited[i].localId == v
  {
    UniqueExact(values);
    hide UniqueInOrder, FirstIndex;
    var u := UniqueInOrder(values);
    forall v | v in values ensures exists i :: 0 <= i < |cited| && cited[i].localId == v {
      var i :| 0 <= i < |u| && u[i] == v;
      assert cited[i].localId == v;
    }
  }
}

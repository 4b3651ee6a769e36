/**
  Words and lines: `str.split()` (the same as the `\S+` runs), `str.splitlines()`
  and `str.join`.
 */
module Words {
  import opened Text

  /** The length of the leading run without whitespace. */
  function RunLength(s: string): (n: nat)
    ensures n <= |s| && NoSpace(s[..n])
    ensures n < |s| ==> IsSpace(s[n])
  {
    if s == "" || IsSpace(s[0]) then 0 else 1 + RunLength(s[1..])
  }

  /** The maximal runs without whitespace, in order. */
  function WordsOf(s: string): seq<string>
    decreases |s|
  {
    if s == "" then []
    else if IsSpace(s[0]) then WordsOf(s[1..])
    else [s[..RunLength(s)]] + WordsOf(s[RunLength(s)..])
  }

  ghost predicate IsWord(w: string) {
    w != "" && NoSpace(w)
  }

  ghost predicate AreWords(ws: seq<string>) {
    forall i :: 0 <= i < |ws| ==> IsWord(ws[i])
  }

  lemma {:induction false} WordsAreWords(s: string)
    ensures AreWords(WordsOf(s))
    decreases |s|
  {
    hide IsSpace;
    if s != "" {
      if IsSpace(s[0]) {
        WordsAreWords(s[1..]);
      } else {
        WordsAreWords(s[RunLength(s)..]);
      }
    }
  }

  lemma {:induction false} RunOfConcat(a: string, b: string)
    requires b == "" || IsSpace(b[0]) || RunLength(a) < |a|
    ensures RunLength(a + b) == RunLength(a)
  {
    hide IsSpace;
    if a == "" {
      assert a + b == b;
    } else {
      assert (a + b)[1..] == a[1..] + b;
      if !IsSpace(a[0]) {
        RunOfConcat(a[1..], b);
      }
    }
  }

  /** Words do not run across a place where there is whitespace on one side. */
  lemma {:induction false} WordsOfConcat(a: string, b: string)
    requires a == "" || b == "" || IsSpace(a[|a| - 1]) || IsSpace(b[0])
    ensures WordsOf(a + b) == WordsOf(a) + WordsOf(b)
    decreases |a|
  {
    hide IsSpace;
    if a == "" {
      assert a + b == b;
    } else if IsSpace(a[0]) {
      assert (a + b)[1..] == a[1..] + b;
      WordsOfConcat(a[1..], b);
    } else {
      var n := RunLength(a);
      assert NoSpace(a[..n]) && (n == |a| ==> a[..n] == a);
      RunOfConcat(a, b);
      assert (a + b)[..n] == a[..n] && (a + b)[n..] == a[n..] + b;
      WordsOfConcat(a[n..], b);
    }
  }

  lemma {:induction false} SpaceHasNoWords(s: string)
    requires AllSpace(s)
    ensures WordsOf(s) == []
  {
    if s != "" {
      SpaceHasNoWords(s[1..]);
    }
  }

  lemma WordIsItsWord(w: string)
    requires IsWord(w)
    ensures WordsOf(w) == [w]
  {
    hide IsSpace;
    assert RunLength(w) == |w|;
    assert w[..|w|] == w && w[|w|..] == "";
  }

  lemma WordsOfStrip(s: string)
    ensures WordsOf(Strip(s)) == WordsOf(s)
  {
    hide IsSpace, WordsOf, Strip;
    var lo, hi := StripSplit(s);
    var pre, mid, post := s[..lo], s[lo..hi], s[hi..];
    assert s == (pre + mid) + post;
    SpaceHasNoWords(pre);
    SpaceHasNoWords(post);
    assert pre != "" ==> IsSpace(pre[|pre| - 1]);
    assert post != "" ==> IsSpace(post[0]);
    WordsOfConcat(pre, mid);
    WordsOfConcat(pre + mid, post);
  }

  // ---- join

  /** The parts joined by a one-character separator. */
  function Join(parts: seq<string>, sep: char): string {
    if parts == [] then ""
    else if |parts| == 1 then parts[0]
    else parts[0] + [sep] + Join(parts[1..], sep)
  }

  /** The words of all parts, one part after the other. */
  function WordsOfAll(parts: seq<string>): seq<string> {
    if parts == [] then [] else WordsOf(parts[0]) + WordsOfAll(parts[1..])
  }

  lemma {:induction false} WordsOfJoin(parts: seq<string>, sep: char)
    requires IsSpace(sep)
    ensures WordsOf(Join(parts, sep)) == WordsOfAll(parts)
  {
    hide IsSpace, WordsOf;
    if parts == [] {
      assert WordsOf("") == [] by { SpaceHasNoWords(""); }
    } else if |parts| == 1 {
      assert parts[1..] == [];
    } else {
      WordsOfJoin(parts[1..], sep);
      var rest := Join(parts[1..], sep);
      WordsOfConcat(parts[0] + [sep], rest);
      WordsOfConcat(parts[0], [sep]);
      SpaceHasNoWords([sep]);
    }
  }

  lemma {:induction false} WordsOfWords(ws: seq<string>)
    requires AreWords(ws)
    ensures WordsOfAll(ws) == ws
  {
    hide WordsOf, IsSpace;
    if ws != [] {
      WordIsItsWord(ws[0]);
      WordsOfWords(ws[1..]);
    }
  }

  // ---- lines

  /** The number of characters before the first line break. */
  function LineLength(s: string): (n: nat)
    ensures n <= |s|
    ensures n < |s| ==> IsLineBreak(s[n])
    ensures forall i :: 0 <= i < n ==> !IsLineBreak(s[i])
  {
    if s == "" || IsLineBreak(s[0]) then 0 else 1 + LineLength(s[1..])
  }

  /** The length of the line break that starts at `n`: "\r\n" is one break. */
  function BreakLength(s: string, n: nat): (k: nat)
    requires n < |s|
    ensures 1 <= k && n + k <= |s|
  {
    if s[n] == '\r' && n + 1 < |s| && s[n + 1] == '\n' then 2 else 1
  }

  /** The lines of a text. */
  function SplitLines(s: string): seq<string>
    decreases |s|
  {
    if s == "" then []
    else
      var n := LineLength(s);
      if n == |s| then [s] else [s[..n]] + SplitLines(s[n + BreakLength(s, n)..])
  }

  lemma LineBreakIsSpace(c: char)
    requires IsLineBreak(c)
    ensures IsSpace(c)
  {}

  /** Splitting into lines keeps the words. */
  lemma {:induction false} WordsOfLines(s: string)
    ensures WordsOfAll(SplitLines(s)) == WordsOf(s)
    decreases |s|
  {
    hide IsSpace, WordsOf, IsLineBreak;
    if s == "" {
      SpaceHasNoWords("");
    } else {
      var n := LineLength(s);
      if n == |s| {
        assert [s][1..] == [];
        assert WordsOfAll([s]) == WordsOf(s) + WordsOfAll([]);
      } else {
        var k := BreakLength(s, n);
        var line, brk, rest := s[..n], s[n..n + k], s[n + k..];
        assert s == (line + brk) + rest;
        LineBreakIsSpace(s[n]);
        if k == 2 {
          assert IsLineBreak('\n') by { NewlineBreaks(); }
          LineBreakIsSpace(s[n + 1]);
        }
        assert AllSpace(brk);
        SpaceHasNoWords(brk);
        WordsOfConcat(line, brk);
        WordsOfConcat(line + brk, rest);
        WordsOfLines(rest);
        assert ([line] + SplitLines(rest))[1..] == SplitLines(rest);
      }
    }
  }

  lemma NewlineBreaks()
    ensures IsLineBreak('\n')
  {}
}

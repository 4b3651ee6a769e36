/**
  The Python string operations the backend relies on: `str.isspace`, `str.strip`,
  `str.find`, whitespace collapsing and NUL replacement.

  `\s`, `\S`, `str.split()`, `str.strip()` and `str.isspace()` all use the same
  character class in Python, which is written out in `IsSpace`.
 */
module Text {

  datatype Option<+T> = None | Some(value: T)

  predicate IsSpace(c: char) {
    || '\t' <= c <= '\r'
    || '\U{1C}' <= c <= ' '
    || c == '\U{85}' || c == '\U{A0}' || c == '\U{1680}'
    || '\U{2000}' <= c <= '\U{200A}'
    || c == '\U{2028}' || c == '\U{2029}' || c == '\U{202F}'
    || c == '\U{205F}' || c == '\U{3000}'
  }

  /** The characters `str.splitlines` breaks at. Each one is also whitespace. */
  predicate IsLineBreak(c: char) {
    || '\n' <= c <= '\r'
    || '\U{1C}' <= c <= '\U{1E}'
    || c == '\U{85}' || c == '\U{2028}' || c == '\U{2029}'
  }

  ghost predicate AllSpace(s: string) {
    forall i :: 0 <= i < |s| ==> IsSpace(s[i])
  }

  ghost predicate NoSpace(s: string) {
    forall i :: 0 <= i < |s| ==> !IsSpace(s[i])
  }

  /** `s` is non-empty and both its ends are visible. */
  ghost predicate Trimmed(s: string) {
    s != "" && !IsSpace(s[0]) && !IsSpace(s[|s| - 1])
  }

  // ---- strip

  function StripLeft(s: string): string {
    if s != "" && IsSpace(s[0]) then StripLeft(s[1..]) else s
  }

  function StripRight(s: string): string {
    if s != "" && IsSpace(s[|s| - 1]) then StripRight(s[..|s| - 1]) else s
  }

  function Strip(s: string): string {
    StripRight(StripLeft(s))
  }

  lemma StripLeftSplit(s: string) returns (lo: nat)
    ensures lo <= |s| && StripLeft(s) == s[lo..] && AllSpace(s[..lo])
    ensures lo < |s| ==> !IsSpace(s[lo])
  {
    hide IsSpace;
    if s != "" && IsSpace(s[0]) {
      var k := StripLeftSplit(s[1..]);
      lo := k + 1;
      assert s[..lo] == [s[0]] + s[1..][..k];
    } else {
      lo := 0;
    }
  }

  lemma StripRightSplit(s: string) returns (hi: nat)
    ensures hi <= |s| && StripRight(s) == s[..hi] && AllSpace(s[hi..])
    ensures hi > 0 ==> !IsSpace(s[hi - 1])
  {
    hide IsSpace;
    if s != "" && IsSpace(s[|s| - 1]) {
      var t := s[..|s| - 1];
      hi := StripRightSplit(t);
      assert s[hi..] == t[hi..] + [s[|s| - 1]];
      assert t[..hi] == s[..hi];
    } else {
      hi := |s|;
    }
  }

  /** `Strip` keeps one slice: everything outside is whitespace, its two ends are not. */
  lemma StripSplit(s: string) returns (lo: nat, hi: nat)
    ensures lo <= hi <= |s| && Strip(s) == s[lo..hi]
    ensures AllSpace(s[..lo]) && AllSpace(s[hi..])
    ensures lo < hi ==> Trimmed(s[lo..hi])
  {
    lo := StripLeftSplit(s);
    var t := s[lo..];
    var k := StripRightSplit(t);
    hi := lo + k;
    assert t[..k] == s[lo..hi] && t[k..] == s[hi..];
  }

  lemma StripEmptyIfSpace(s: string)
    ensures Strip(s) == "" <==> AllSpace(s)
  {
    hide IsSpace, Strip;
    var lo, hi := StripSplit(s);
    if lo == hi {
      forall i | 0 <= i < |s| ensures IsSpace(s[i]) {
        assert i < lo ==> s[..lo][i] == s[i];
        assert i >= hi ==> s[hi..][i - hi] == s[i];
      }
    } else {
      assert s[lo..hi][0] == s[lo];
    }
  }

  lemma StripTrimmed(s: string)
    requires s == "" || Trimmed(s)
    ensures Strip(s) == s
  {}

  // ---- find

  predicate OccursAt(haystack: string, target: string, i: int) {
    0 <= i && i + |target| <= |haystack| && haystack[i..i + |target|] == target
  }

  /** The first place from `from` on where the target occurs. */
  function FindFrom(haystack: string, target: string, from: nat): (r: Option<nat>)
    ensures r.Some? ==> from <= r.value && r.value + |target| <= |haystack| && OccursAt(haystack, target, r.value)
    ensures r.Some? ==> forall i :: from <= i < r.value ==> !OccursAt(haystack, target, i)
    ensures r.None? ==> forall i :: from <= i ==> !OccursAt(haystack, target, i)
    decreases |haystack| - from
  {
    if from + |target| > |haystack| then None
    else if haystack[from..from + |target|] == target then Some(from)
    else FindFrom(haystack, target, from + 1)
  }

  // ---- NUL replacement

  /** NUL characters turned into blanks. */
  function Denul(s: string): (r: string)
    ensures |r| == |s|
    ensures forall i :: 0 <= i < |s| ==> r[i] == if s[i] == '\0' then ' ' else s[i]
  {
    seq(|s|, i requires 0 <= i < |s| => if s[i] == '\0' then ' ' else s[i])
  }

  lemma DenulSlice(s: string, a: nat, b: nat)
    requires a <= b <= |s|
    ensures Denul(s)[a..b] == Denul(s[a..b])
  {}

  lemma DenulConcat(s: string, t: string)
    ensures Denul(s + t) == Denul(s) + Denul(t)
  {}

  // ---- whitespace collapsing

  /**
    Every run of whitespace becomes one blank, reading left to right. `pending` says that the character
    before `s` was whitespace and so has already produced its blank.
   */
  function Collapse(s: string, pending: bool): string {
    if s == "" then ""
    else if IsSpace(s[0]) then (if pending then "" else " ") + Collapse(s[1..], true)
    else [s[0]] + Collapse(s[1..], false)
  }

  predicate EndsInSpace(s: string, pending: bool) {
    if s == "" then pending else IsSpace(s[|s| - 1])
  }

  lemma {:induction false} CollapseConcat(s: string, t: string, pending: bool)
    ensures Collapse(s + t, pending) == Collapse(s, pending) + Collapse(t, EndsInSpace(s, pending))
  {
    hide IsSpace;
    if s == "" {
      assert s + t == t;
    } else {
      assert (s + t)[1..] == s[1..] + t;
      CollapseConcat(s[1..], t, IsSpace(s[0]));
      CollapseStep(s, pending);
      CollapseStep(s + t, pending);
      assert EndsInSpace(s, pending) == EndsInSpace(s[1..], IsSpace(s[0]));
      hide Collapse, EndsInSpace;
      var head := CollapsedHead(s[0], pending);
      assert head + (Collapse(s[1..], IsSpace(s[0])) + Collapse(t, EndsInSpace(s, pending)))
          == (head + Collapse(s[1..], IsSpace(s[0]))) + Collapse(t, EndsInSpace(s, pending));
    }
  }

  /** What collapsing makes of one character. */
  function CollapsedHead(c: char, pending: bool): string {
    if IsSpace(c) then (if pending then "" else " ") else [c]
  }

  lemma CollapseStep(s: string, pending: bool)
    requires s != ""
    ensures Collapse(s, pending) == CollapsedHead(s[0], pending) + Collapse(s[1..], IsSpace(s[0]))
  {
    hide IsSpace;
  }

  /** Collapsing twice, with NULs turned into blanks in between, is collapsing once. */
  lemma {:induction false} CollapseAbsorbs(s: string, inner: bool, outer: bool)
    requires inner ==> outer
    ensures Collapse(Denul(Collapse(s, inner)), outer) == Collapse(Denul(s), outer)
  {
    if s == "" {
    } else {
      var sp := IsSpace(s[0]);
      var head := if sp then (if inner then "" else " ") else [s[0]];
      var rest := Collapse(s[1..], sp);
      assert Collapse(s, inner) == head + rest;
      DenulConcat(head, rest);
      DenulConcat([s[0]], s[1..]);
      assert s == [s[0]] + s[1..];
      var blank := IsSpace(Denul(s)[0]);
      CollapseAbsorbs(s[1..], sp, blank);
      assert Denul(s)[1..] == Denul(s[1..]);
      if head == "" {
        assert head + rest == rest;
      } else {
        assert Denul(head + rest)[1..] == Denul(rest);
      }
    }
  }

  lemma DenulNoNul(s: string)
    requires '\0' !in s
    ensures Denul(s) == s
  {}

  lemma {:induction false} CollapseNoNul(s: string, pending: bool)
    requires '\0' !in s
    ensures '\0' !in Collapse(s, pending)
  {
    if s != "" {
      CollapseNoNul(s[1..], IsSpace(s[0]));
    }
  }

  /** Visible ends survive collapsing. */
  lemma {:induction false} CollapseEnds(s: string, pending: bool)
    requires Trimmed(s)
    ensures Trimmed(Collapse(s, pending))
    ensures Collapse(s, pending)[0] == s[0]
    ensures Collapse(s, pending)[|Collapse(s, pending)| - 1] == s[|s| - 1]
    ensures Collapse(s, pending) == Collapse(s, !pending)
  {
    var n := |s| - 1;
    CollapseConcat(s[..n], s[n..], pending);
    assert s[..n] + s[n..] == s;
    assert Collapse(s[n..], EndsInSpace(s[..n], pending)) == [s[n]] + Collapse(s[n..][1..], false);
  }

  lemma {:induction false} CollapseShrinks(s: string, pending: bool)
    ensures |Collapse(s, pending)| <= |s|
  {
    if s != "" {
      CollapseShrinks(s[1..], IsSpace(s[0]));
    }
  }
}

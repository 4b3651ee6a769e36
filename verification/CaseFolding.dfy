/**
  `str.lower`, and the form of a string that ignores case and runs of blanks.

  `str.lower` is a parameter. It maps one character to a string, because in Unicode a
  character may lower to more than one ('\u0130' lowers to two); index arithmetic on the
  lowered text is where that matters.
 */
module CaseFolding {
  import opened Text

  datatype Casing = Casing(lower: char -> string)

  predicate IsBlank(c: char) {
    IsSpace(c) || c == '\0'
  }

  /** `s` is its own lower-case form, character by character. */
  ghost predicate IsLower(cs: Casing, s: string) {
    forall i :: 0 <= i < |s| ==> cs.lower(s[i]) == [s[i]]
  }

  /** One character: it does not disappear, blanks are fixed, nothing else becomes blank. */
  ghost predicate WellLowered(cs: Casing, c: char) {
    && |cs.lower(c)| >= 1
    && (IsBlank(c) ==> cs.lower(c) == [c])
    && (forall i :: 0 <= i < |cs.lower(c)| ==> IsBlank(cs.lower(c)[i]) ==> IsBlank(c))
    && IsLower(cs, cs.lower(c))
  }

  /**
    What is assumed of `str.lower`: no character disappears, whitespace and NUL are fixed,
    nothing else becomes whitespace or NUL, and lowered characters are already lower.
   */
  ghost predicate ValidCasing(cs: Casing) {
    forall c: char :: WellLowered(cs, c)
  }

  function Lower(cs: Casing, s: string): string {
    if s == "" then "" else cs.lower(s[0]) + Lower(cs, s[1..])
  }

  /** Lowering `s` replaces every character by exactly one. */
  ghost predicate KeepsLength(cs: Casing, s: string) {
    forall i :: 0 <= i < |s| ==> |cs.lower(s[i])| == 1
  }

  lemma {:induction false} LowerConcat(cs: Casing, s: string, t: string)
    ensures Lower(cs, s + t) == Lower(cs, s) + Lower(cs, t)
  {
    if s == "" {
      assert s + t == t;
    } else {
      assert (s + t)[1..] == s[1..] + t;
      LowerConcat(cs, s[1..], t);
    }
  }

  lemma LowerOne(cs: Casing, c: char)
    ensures Lower(cs, [c]) == cs.lower(c)
  {
    assert [c][1..] == "";
    assert Lower(cs, "") == "";
  }

  lemma {:induction false} LowerLength(cs: Casing, s: string)
    requires ValidCasing(cs)
    ensures |Lower(cs, s)| >= |s|
    ensures KeepsLength(cs, s) ==> |Lower(cs, s)| == |s|
    ensures !KeepsLength(cs, s) ==> |Lower(cs, s)| > |s|
  {
    hide IsSpace;
    if s != "" {
      LowerLength(cs, s[1..]);
      assert WellLowered(cs, s[0]);
      assert |Lower(cs, s)| == |cs.lower(s[0])| + |Lower(cs, s[1..])|;
      assert s == [s[0]] + s[1..];
      assert KeepsLength(cs, s) <==> |cs.lower(s[0])| == 1 && KeepsLength(cs, s[1..]);
    }
  }

  lemma {:induction false} LowerAt(cs: Casing, s: string, i: nat)
    requires KeepsLength(cs, s) && i < |s|
    ensures |Lower(cs, s)| == |s| && [Lower(cs, s)[i]] == cs.lower(s[i])
  {
    assert |cs.lower(s[0])| == 1;
    if |s| > 1 {
      assert KeepsLength(cs, s[1..]);
      LowerAt(cs, s[1..], if i == 0 then 0 else i - 1);
    } else {
      LowerOne(cs, s[0]);
      assert s == [s[0]];
    }
  }

  lemma LowerSlice(cs: Casing, s: string, a: nat, b: nat)
    requires KeepsLength(cs, s) && a <= b <= |s|
    ensures |Lower(cs, s)| == |s| && Lower(cs, s)[a..b] == Lower(cs, s[a..b])
  {
    var t := s[a..b];
    assert KeepsLength(cs, t);
    if s != "" {
      LowerAt(cs, s, 0);
    }
    if t != "" {
      LowerAt(cs, t, 0);
    }
    forall i | 0 <= i < |t| ensures Lower(cs, s)[a..b][i] == Lower(cs, t)[i] {
      LowerAt(cs, s, a + i);
      LowerAt(cs, t, i);
      assert t[i] == s[a + i];
    }
  }

  lemma {:induction false} LowerFixed(cs: Casing, s: string)
    requires IsLower(cs, s)
    ensures Lower(cs, s) == s
  {
    if s != "" {
      LowerFixed(cs, s[1..]);
      assert cs.lower(s[0]) == [s[0]];
      assert s == [s[0]] + s[1..];
    }
  }

  lemma {:induction false} LowerIsLower(cs: Casing, s: string)
    requires ValidCasing(cs)
    ensures IsLower(cs, Lower(cs, s))
  {
    hide IsSpace;
    if s != "" {
      LowerIsLower(cs, s[1..]);
      assert WellLowered(cs, s[0]);
    }
  }

  /** The first and the last character stay visible, or stay blank, under lowering. */
  lemma LowerEnds(cs: Casing, s: string)
    requires ValidCasing(cs) && s != ""
    ensures Lower(cs, s) != ""
    ensures IsBlank(Lower(cs, s)[0]) <==> IsBlank(s[0])
    ensures IsBlank(Lower(cs, s)[|Lower(cs, s)| - 1]) <==> IsBlank(s[|s| - 1])
  {
    hide IsSpace;
    var n := |s| - 1;
    LowerConcat(cs, s[..n], [s[n]]);
    assert s[..n] + [s[n]] == s;
    LowerOne(cs, s[n]);
    assert WellLowered(cs, s[0]) && WellLowered(cs, s[n]);
  }

  // ---- the whitespace- and case-insensitive form of a string

  /** Equal folds mean: the same up to runs of blanks and to case. */
  function Fold(cs: Casing, s: string): string {
    Lower(cs, Collapse(Denul(s), false))
  }

  lemma BlankKeepsLength(cs: Casing)
    requires ValidCasing(cs)
    ensures cs.lower(' ') == " "
  {
    assert IsBlank(' ');
    assert WellLowered(cs, ' ');
  }

  lemma {:induction false} CollapseKeepsLength(cs: Casing, s: string, pending: bool)
    requires ValidCasing(cs) && KeepsLength(cs, s)
    ensures KeepsLength(cs, Collapse(s, pending))
  {
    if s != "" {
      CollapseKeepsLength(cs, s[1..], IsSpace(s[0]));
      BlankKeepsLength(cs);
      hide IsSpace;
      assert |cs.lower(s[0])| == 1;
    }
  }

  lemma DenulKeepsLength(cs: Casing, s: string)
    requires ValidCasing(cs) && KeepsLength(cs, s)
    ensures KeepsLength(cs, Denul(s))
  {
    BlankKeepsLength(cs);
  }

  lemma SliceKeepsLength(cs: Casing, s: string, a: nat, b: nat)
    requires KeepsLength(cs, s) && a <= b <= |s|
    ensures KeepsLength(cs, s[a..b])
  {}

  lemma BlankStep(c: char, s: string, pending: bool)
    ensures Collapse(Denul([c] + s), pending) ==
            (if IsBlank(c) then (if pending then "" else " ") else [c]) + Collapse(Denul(s), IsBlank(c))
  {
    assert IsSpace(' ');
    hide IsSpace;
    DenulConcat([c], s);
    assert Denul([c] + s)[1..] == Denul(s);
  }

  /** Lowering commutes with NUL replacement and with collapsing. */
  lemma {:induction false} LowerCommutes(cs: Casing, s: string, pending: bool)
    requires ValidCasing(cs) && KeepsLength(cs, s)
    ensures Collapse(Denul(Lower(cs, s)), pending) == Lower(cs, Collapse(Denul(s), pending))
  {
    hide IsSpace, Denul, Collapse;
    if s == "" {
      assert Lower(cs, s) == "" && Denul(s) == "";
      CollapseEmpty(pending);
    } else {
      var c, rest := s[0], s[1..];
      assert WellLowered(cs, c) && |cs.lower(c)| == 1;
      var d := cs.lower(c)[0];
      assert IsBlank(d) ==> IsBlank(c);
      assert IsBlank(c) ==> d == c;
      assert s == [c] + rest && Lower(cs, s) == [d] + Lower(cs, rest);
      BlankStep(c, rest, pending);
      BlankStep(d, Lower(cs, rest), pending);
      LowerCommutes(cs, rest, IsBlank(c));
      BlankKeepsLength(cs);
      var head := if IsBlank(c) then (if pending then "" else " ") else [c];
      LowerConcat(cs, head, Collapse(Denul(rest), IsBlank(c)));
      if head != "" {
        LowerOne(cs, head[0]);
        assert head == [head[0]];
      }
    }
  }

  lemma CollapseEmpty(pending: bool)
    ensures Collapse("", pending) == ""
  {}

  /** Strings with the same lower-case form have the same fold. */
  lemma SameLowerSameFold(cs: Casing, s: string, t: string)
    requires ValidCasing(cs) && KeepsLength(cs, s) && KeepsLength(cs, t)
    requires Lower(cs, s) == Lower(cs, t)
    ensures Fold(cs, s) == Fold(cs, t)
  {
    hide IsSpace, Denul, Collapse, Lower;
    LowerCommutes(cs, s, false);
    LowerCommutes(cs, t, false);
  }

  // ---- collapsed strings

  /** No NUL, single blanks only, and every blank is ' '. */
  ghost predicate Collapsed(s: string) {
    && '\0' !in s
    && (forall i :: 0 <= i < |s| && IsSpace(s[i]) ==> s[i] == ' ')
    && (forall i :: 0 < i < |s| && IsSpace(s[i]) ==> !IsSpace(s[i - 1]))
  }

  lemma {:induction false} CollapseIsCollapsed(s: string, pending: bool)
    requires '\0' !in s
    ensures Collapsed(Collapse(s, pending))
    ensures pending && Collapse(s, pending) != "" ==> !IsSpace(Collapse(s, pending)[0])
  {
    hide IsSpace;
    if s != "" {
      var rest := Collapse(s[1..], IsSpace(s[0]));
      CollapseIsCollapsed(s[1..], IsSpace(s[0]));
      var head := if IsSpace(s[0]) then (if pending then "" else " ") else [s[0]];
      assert Collapse(s, pending) == head + rest;
      if head != "" {
        var c := head + rest;
        assert forall i :: 0 < i < |c| ==> c[i] == rest[i - 1];
      } else {
        assert head + rest == rest;
      }
    }
  }

  lemma {:induction false} CollapsedFixed(s: string, pending: bool)
    requires Collapsed(s) && (pending && s != "" ==> !IsSpace(s[0]))
    ensures Collapse(s, pending) == s && Denul(s) == s
  {
    DenulNoNul(s);
    hide IsSpace;
    if s != "" {
      var t := s[1..];
      assert s == [s[0]] + t;
      assert forall i :: 0 <= i < |t| ==> t[i] == s[i + 1];
      assert IsSpace(s[0]) && t != "" ==> !IsSpace(t[0]);
      CollapsedFixed(t, IsSpace(s[0]));
    }
  }

  lemma {:induction false} LowerNoNul(cs: Casing, s: string)
    requires ValidCasing(cs) && '\0' !in s
    ensures '\0' !in Lower(cs, s)
  {
    hide IsSpace;
    if s != "" {
      LowerNoNul(cs, s[1..]);
      assert WellLowered(cs, s[0]);
      assert IsBlank('\0');
    }
  }
}

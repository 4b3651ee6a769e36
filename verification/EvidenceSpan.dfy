/**
  Where a relation is stated (`_evidence_span` of llm_extraction.py): the quoted evidence
  if the chunk has it, otherwise the sentence around the earlier of the two mentions. Either
  way both endpoints have to be found inside.
 */
module EvidenceSpan {
  import opened Text
  import opened CaseFolding
  import opened SpanSearch

  const MARKERS: seq<char> := ['.', '!', '?', '\U{3002}', '\U{FF01}', '\U{FF1F}', '\n']

  /** One endpoint of a relation: where it was mentioned, and the names it goes by. */
  datatype Endpoint = Endpoint(start: nat, end: nat, refs: seq<string>)

  // ---- the sentence around a position

  /** The last place of a character before `end`, or -1. */
  function RFind(text: string, c: char, end: nat): (r: int)
    ensures -1 <= r < |text| && r < end
    ensures r >= 0 ==> text[r] == c
    ensures forall i :: r < i < end && i < |text| ==> text[i] != c
  {
    if end == 0 then -1
    else if end <= |text| && text[end - 1] == c then end - 1
    else RFind(text, c, end - 1)
  }

  /** The first place of a character from `start` on, or -1. */
  function Find(text: string, c: char, start: nat): (r: int)
    ensures r == -1 || (start <= r < |text| && text[r] == c)
    ensures forall i :: start <= i < (if r == -1 then |text| else r) ==> text[i] != c
    decreases |text| - start
  {
    if start >= |text| then -1
    else if text[start] == c then start
    else Find(text, c, start + 1)
  }

  /** The last place before `start` that holds one of the markers, or -1. */
  function LastMarker(text: string, markers: seq<char>, start: nat): int {
    if markers == [] then -1
    else
      var here, rest := RFind(text, markers[0], start), LastMarker(text, markers[1..], start);
      if here >= rest then here else rest
  }

  /** The first place from `start` on that holds one of the markers, or -1. */
  function FirstMarker(text: string, markers: seq<char>, start: nat): int {
    if markers == [] then -1
    else
      var here, rest := Find(text, markers[0], start), FirstMarker(text, markers[1..], start);
      if here == -1 || (rest != -1 && rest < here) then rest else here
  }

  function Sentence(text: string, start: nat): (nat, nat) {
    var before, after := LastMarker(text, MARKERS, start), FirstMarker(text, MARKERS, start);
    (if before < 0 then 0 else before + 1, if after < 0 then |text| else after + 1)
  }

  lemma {:induction false} LastMarkerIsLast(text: string, markers: seq<char>, start: nat)
    ensures var r := LastMarker(text, markers, start);
      && -1 <= r < |text| && r < start
      && (r >= 0 ==> text[r] in markers)
      && forall i :: r < i < start && i < |text| ==> text[i] !in markers
  {
    if markers != [] {
      LastMarkerIsLast(text, markers[1..], start);
      assert markers == [markers[0]] + markers[1..];
    }
  }

  lemma {:induction false} FirstMarkerIsFirst(text: string, markers: seq<char>, start: nat)
    ensures var r := FirstMarker(text, markers, start);
      && (r == -1 || (start <= r < |text| && text[r] in markers))
      && forall i :: start <= i < (if r == -1 then |text| else r) ==> text[i] !in markers
  {
    if markers != [] {
      FirstMarkerIsFirst(text, markers[1..], start);
      assert markers == [markers[0]] + markers[1..];
    }
  }

  /** A stretch without a sentence marker, except possibly as its last character. */
  ghost predicate WithinOneSentence(text: string, lo: int, hi: int) {
    0 <= lo <= hi <= |text| && forall i :: lo <= i < hi - 1 ==> text[i] !in MARKERS
  }

  /**
    The sentence contains its position, has no marker before its last character, and
    contains every other stretch with these two properties.
   */
  lemma SentenceIsLargest(text: string, start: nat)
    requires start < |text|
    ensures var (lo, hi) := Sentence(text, start);
      && lo <= start < hi && WithinOneSentence(text, lo, hi)
      && forall a, b :: a <= start < b && WithinOneSentence(text, a, b) ==> lo <= a && b <= hi
  {
    LastMarkerIsLast(text, MARKERS, start);
    FirstMarkerIsFirst(text, MARKERS, start);
    var (lo, hi) := Sentence(text, start);
    assert lo > 0 ==> text[lo - 1] in MARKERS;
    assert hi < |text| ==> text[hi - 1] in MARKERS;
  }

  // ---- covering both endpoints

  /** A slice, with Python's clipping. */
  function Slice(text: string, lo: nat, hi: nat): string {
    var top := if hi < |text| then hi else |text|;
    if lo < top then text[lo..top] else ""
  }

  /** Whether the slice mentions one of the non-empty refs; None is an exception on the way. */
  function ContainsRef(cs: Casing, slice: string, refs: seq<string>): Option<bool> {
    if refs == [] then Some(false)
    else if refs[0] == "" then ContainsRef(cs, slice, refs[1..])
    else
      match Span(cs, slice, refs[0])
      case Found(_, _) => Some(true)
      case Raised => None
      case Missing => ContainsRef(cs, slice, refs[1..])
  }

  function CoversEndpoint(cs: Casing, text: string, lo: nat, hi: nat, e: Endpoint): Option<bool> {
    if lo <= e.start && e.end <= hi then Some(true)
    else ContainsRef(cs, Slice(text, lo, hi), e.refs)
  }

  function CoversRelation(cs: Casing, text: string, lo: nat, hi: nat, source: Endpoint, target: Endpoint): Option<bool>
  {
    match CoversEndpoint(cs, text, lo, hi, source)
    case Some(true) => CoversEndpoint(cs, text, lo, hi, target)
    case other => other
  }

  function IfCovered(cs: Casing, text: string, lo: nat, hi: nat, source: Endpoint, target: Endpoint): Search {
    match CoversRelation(cs, text, lo, hi, source, target)
    case None => Raised
    case Some(covered) => if covered then Found(lo, hi) else Missing
  }

  function Evidence(cs: Casing, text: string, evidence: string, source: Endpoint, target: Endpoint): Search {
    match Span(cs, text, evidence)
    case Raised => Raised
    case Found(lo, hi) => IfCovered(cs, text, lo, hi, source, target)
    case Missing =>
      var (lo, hi) := Sentence(text, if source.start < target.start then source.start else target.start);
      IfCovered(cs, text, lo, hi, source, target)
  }

  // ---- what is promised

  /** A name as `_ref_key` produces it: lower case and free of NUL. */
  ghost predicate IsRefKey(cs: Casing, ref: string) {
    IsLower(cs, ref) && '\0' !in ref
  }

  ghost predicate HasRefKeys(cs: Casing, e: Endpoint) {
    forall i :: 0 <= i < |e.refs| ==> IsRefKey(cs, e.refs[i])
  }

  /** The endpoint was mentioned inside the span, or the span itself mentions one of its names. */
  ghost predicate AnchoredIn(cs: Casing, text: string, lo: nat, hi: nat, e: Endpoint)
    requires lo <= hi <= |text|
  {
    || (lo <= e.start && e.end <= hi)
    || exists i, a, b :: 0 <= i < |e.refs| && Mentions(cs, text[lo..hi], a, b, Strip(e.refs[i]))
  }

  lemma {:induction false} ContainsRefExact(cs: Casing, slice: string, refs: seq<string>)
    requires ValidCasing(cs) && KeepsLength(cs, slice)
    requires forall i :: 0 <= i < |refs| ==> IsRefKey(cs, refs[i])
    ensures ContainsRef(cs, slice, refs).Some?
    ensures ContainsRef(cs, slice, refs).value <==>
            exists i, a, b :: 0 <= i < |refs| && Mentions(cs, slice, a, b, Strip(refs[i]))
  {
    hide Span, Mentions, ValidCasing, Strip, KeepsLength;
    if refs != [] {
      var ref, rest := refs[0], refs[1..];
      assert forall i :: 0 <= i < |rest| ==> rest[i] == refs[i + 1];
      RefFound(cs, slice, ref);
      if ref == "" || Span(cs, slice, ref).Missing? {
        ContainsRefExact(cs, slice, rest);
        if exists i, a, b :: 0 <= i < |rest| && Mentions(cs, slice, a, b, Strip(rest[i])) {
          var i, a, b :| 0 <= i < |rest| && Mentions(cs, slice, a, b, Strip(rest[i]));
          assert Mentions(cs, slice, a, b, Strip(refs[i + 1]));
        }
        forall i, a, b | 0 <= i < |refs| && Mentions(cs, slice, a, b, Strip(refs[i]))
          ensures 0 <= i - 1 < |rest| && Mentions(cs, slice, a, b, Strip(rest[i - 1]))
        {
          assert i != 0;
        }
      }
    }
  }

  lemma RefFound(cs: Casing, slice: string, ref: string)
    requires ValidCasing(cs) && KeepsLength(cs, slice) && IsRefKey(cs, ref)
    ensures !Span(cs, slice, ref).Raised?
    ensures Span(cs, slice, ref).Found? <==> exists a, b :: Mentions(cs, slice, a, b, Strip(ref))
    ensures ref == "" ==> forall a, b :: !Mentions(cs, slice, a, b, Strip(ref))
  {
    assert ref == "" ==> Strip(ref) == "";
    SpanExact(cs, slice, ref);
    SpanMeetsPromise(cs, slice, ref);
  }

  /**
    The evidence span is the quotation if the text has it, else the sentence; it is returned
    exactly when both endpoints are anchored in it, and nothing is raised.
   */
  lemma EvidenceExact(cs: Casing, text: string, evidence: string, source: Endpoint, target: Endpoint)
    requires ValidCasing(cs) && KeepsLength(cs, text) && KeepsLength(cs, evidence) && '\0' !in evidence
    requires HasRefKeys(cs, source) && HasRefKeys(cs, target)
    requires source.start < |text| && target.start < |text|
    ensures var start := if source.start < target.start then source.start else target.start;
      var (lo, hi) := match Span(cs, text, evidence)
                      case Found(a, b) => (a, b)
                      case _ => Sentence(text, start);
      && 0 <= lo < hi <= |text|
      && (Span(cs, text, evidence).Found? <==> exists a, b :: Mentions(cs, text, a, b, Strip(evidence)))
      && Evidence(cs, text, evidence, source, target) ==
         if AnchoredIn(cs, text, lo, hi, source) && AnchoredIn(cs, text, lo, hi, target)
         then Found(lo, hi) else Missing
  {
    hide Span, Sentence, ContainsRef, Mentions, ValidCasing, Strip, KeepsLength, IsLower;
    var start := if source.start < target.start then source.start else target.start;
    var (lo, hi) := match Span(cs, text, evidence) case Found(a, b) => (a, b) case _ => Sentence(text, start);
    SpanExact(cs, text, evidence);
    QuotationInBounds(cs, text, evidence);
    SentenceIsLargest(text, start);
    SliceKeepsLength(cs, text, lo, hi);
    assert Slice(text, lo, hi) == text[lo..hi];
    ContainsRefExact(cs, text[lo..hi], source.refs);
    ContainsRefExact(cs, text[lo..hi], target.refs);
  }

  lemma QuotationInBounds(cs: Casing, text: string, evidence: string)
    requires ValidCasing(cs) && KeepsLength(cs, text) && KeepsLength(cs, evidence)
    ensures !Span(cs, text, evidence).Raised?
    ensures Span(cs, text, evidence).Found? ==>
              Span(cs, text, evidence).lo < Span(cs, text, evidence).hi <= |text|
  {
    hide Span, Strip, SearchKey, StandsAlone, Fold, KeepsLength;
    SpanMeetsPromise(cs, text, evidence);
  }
}

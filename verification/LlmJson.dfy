/**
  Finding the JSON object in an LLM's reply (`_think_block_spans`, `_json_object_candidates`,
  `_graph_payload_score` and `_parse_llm_json` of llm_extraction.py).

  The two regular expressions for think tags and `JSONDecoder.raw_decode` are inputs, given as
  what they do at one position of the text without its code fence.
 */
module LlmJson {
  import opened Text

  /** A decoded value, reduced to its two arrays: None is absent or not an array, Some its length. */
  datatype Payload = Payload(id: int, entities: Option<nat>, relations: Option<nat>)

  /** `raw_decode` of the text from a position on: None is a JSONDecodeError. */
  datatype Decoded = Decoded(length: nat, mapping: bool, payload: Payload)

  /** The end of an opening, or of a closing, think tag that starts at a position. */
  type Matcher = nat -> Option<nat>

  type Decoder = nat -> Option<Decoded>

  datatype Block = Block(start: nat, end: nat)

  datatype Candidate = Candidate(start: nat, end: nat, payload: Payload)

  ghost predicate ValidMatcher(m: Matcher, n: nat) {
    forall i: nat :: m(i).Some? ==> i < m(i).value <= n
  }

  ghost predicate ValidDecoder(d: Decoder, n: nat) {
    forall i: nat :: d(i).Some? ==> 0 < d(i).value.length && i + d(i).value.length <= n
  }

  /** The leftmost start of a match, from a position on. */
  function SearchFrom(m: Matcher, n: nat, from: nat): (r: Option<nat>)
    ensures r.Some? ==> from <= r.value < n && m(r.value).Some?
    ensures forall i :: from <= i < (if r.Some? then r.value else n) ==> m(i).None?
    decreases n - from
  {
    if from >= n then None
    else if m(from).Some? then Some(from)
    else SearchFrom(m, n, from + 1)
  }

  // ---- think blocks

  /** Where the block opened at `start` ends: behind the first close, or with the text. */
  function BlockEnd(open: Matcher, close: Matcher, n: nat, start: nat): nat
    requires open(start).Some?
  {
    match SearchFrom(close, n, open(start).value)
    case Some(c) => close(c).value
    case None => n
  }

  /**
    The blocks of the text between `from` and `upto`: in order, disjoint, each running from
    an opening tag to its end, and no opening tag lies outside them.
   */
  ghost predicate AreThinkBlocks(open: Matcher, close: Matcher, n: nat, from: nat, upto: nat, blocks: seq<Block>) {
    && (forall i :: 0 <= i < |blocks| ==>
          from <= blocks[i].start && blocks[i].end <= upto && IsThinkBlock(open, close, n, blocks[i]))
    && (forall i, j :: 0 <= i < j < |blocks| ==> blocks[i].end <= blocks[j].start)
    && (forall p: nat :: from <= p < upto && open(p).Some? ==> InBlocks(p, blocks))
  }

  ghost predicate IsThinkBlock(open: Matcher, close: Matcher, n: nat, b: Block) {
    open(b.start).Some? && b.start < b.end == BlockEnd(open, close, n, b.start)
  }

  /** `_index_in_spans` */
  predicate InBlocks(p: nat, blocks: seq<Block>) {
    exists i :: 0 <= i < |blocks| && blocks[i].start <= p < blocks[i].end
  }

  lemma BlockEndLater(open: Matcher, close: Matcher, n: nat, start: nat)
    requires ValidMatcher(open, n) && ValidMatcher(close, n) && open(start).Some?
    ensures start < BlockEnd(open, close, n, start) <= n
  {}

  /** `_think_block_spans` */
  method ThinkBlockSpans(open: Matcher, close: Matcher, n: nat) returns (spans: seq<Block>)
    requires ValidMatcher(open, n) && ValidMatcher(close, n)
    ensures AreThinkBlocks(open, close, n, 0, n, spans)
  {
    hide AreThinkBlocks;
    spans := [];
    NoBlocks(open, close, n);
    var searchStart: nat := 0;
    while true
      invariant searchStart <= n && AreThinkBlocks(open, close, n, 0, searchStart, spans)
      decreases n - searchStart
    {
      var openMatch := SearchFrom(open, n, searchStart);
      if openMatch.None? {
        BlocksStretch(open, close, n, 0, searchStart, n, spans);
        return;
      }
      var start := openMatch.value;
      var closeMatch := SearchFrom(close, n, open(start).value);
      var blockEnd := if closeMatch.Some? then close(closeMatch.value).value else n;
      BlockEndLater(open, close, n, start);
      BlocksStretch(open, close, n, 0, searchStart, start, spans);
      AppendBlock(open, close, n, 0, spans, Block(start, blockEnd));
      spans := spans + [Block(start, blockEnd)];
      searchStart := blockEnd;
    }
  }

  lemma NoBlocks(open: Matcher, close: Matcher, n: nat)
    ensures AreThinkBlocks(open, close, n, 0, 0, [])
  {}

  lemma BlocksStretch(open: Matcher, close: Matcher, n: nat, from: nat, upto: nat, further: nat, blocks: seq<Block>)
    requires AreThinkBlocks(open, close, n, from, upto, blocks) && upto <= further
    requires forall p: nat :: upto <= p < further ==> open(p).None?
    ensures AreThinkBlocks(open, close, n, from, further, blocks)
  {}

  lemma AppendBlock(open: Matcher, close: Matcher, n: nat, from: nat, blocks: seq<Block>, b: Block)
    requires AreThinkBlocks(open, close, n, from, b.start, blocks) && from <= b.start && IsThinkBlock(open, close, n, b)
    ensures AreThinkBlocks(open, close, n, from, b.end, blocks + [b])
  {
    hide BlockEnd;
    var more := blocks + [b];
    assert more[|blocks|] == b;
    forall p: nat | from <= p < b.end && open(p).Some? ensures InBlocks(p, more) {
      if p < b.start {
        assert InBlocks(p, blocks);
        var i :| 0 <= i < |blocks| && blocks[i].start <= p < blocks[i].end;
        assert more[i] == blocks[i];
      }
    }
  }

  /** There is only one way to cut a text into think blocks. */
  lemma {:induction false} ThinkBlocksUnique(open: Matcher, close: Matcher, n: nat, from: nat,
                                             a: seq<Block>, b: seq<Block>)
    requires AreThinkBlocks(open, close, n, from, n, a) && AreThinkBlocks(open, close, n, from, n, b)
    ensures a == b
    decreases |a|
  {
    hide BlockEnd, AreThinkBlocks;
    if a == [] {
      if b != [] {
        FirstBlockFirst(open, close, n, from, b, a);
      }
    } else {
      FirstBlockFirst(open, close, n, from, a, b);
      FirstBlockFirst(open, close, n, from, b, a);
      BlocksTail(open, close, n, from, a);
      BlocksTail(open, close, n, from, b);
      ThinkBlocksUnique(open, close, n, a[0].end, a[1..], b[1..]);
      assert a == [a[0]] + a[1..] && b == [b[0]] + b[1..];
    }
  }

  lemma FirstBlockFirst(open: Matcher, close: Matcher, n: nat, from: nat, a: seq<Block>, b: seq<Block>)
    requires AreThinkBlocks(open, close, n, from, n, a) && AreThinkBlocks(open, close, n, from, n, b) && a != []
    ensures b != [] && b[0].start <= a[0].start
    ensures IsThinkBlock(open, close, n, a[0]) && IsThinkBlock(open, close, n, b[0])
  {
    hide BlockEnd;
    assert InBlocks(a[0].start, b);
    var i :| 0 <= i < |b| && b[i].start <= a[0].start < b[i].end;
    assert i > 0 ==> b[0].end <= b[i].start;
  }

  lemma BlocksTail(open: Matcher, close: Matcher, n: nat, from: nat, a: seq<Block>)
    requires AreThinkBlocks(open, close, n, from, n, a) && a != []
    ensures AreThinkBlocks(open, close, n, a[0].end, n, a[1..])
  {
    var rest := a[1..];
    assert forall i :: 0 <= i < |rest| ==> rest[i] == a[i + 1];
    hide BlockEnd;
    forall p: nat | a[0].end <= p < n && open(p).Some? ensures InBlocks(p, rest) {
      assert InBlocks(p, a);
      var i :| 0 <= i < |a| && a[i].start <= p < a[i].end;
      assert rest[i - 1] == a[i];
    }
  }

  // ---- object candidates

  /** A `{` outside the think blocks from which a JSON object can be decoded. */
  ghost predicate Decodes(content: string, blocks: seq<Block>, decode: Decoder, p: nat) {
    && p < |content| && content[p] == '{' && !InBlocks(p, blocks)
    && decode(p).Some? && decode(p).value.mapping
  }

  /**
    The candidates from `from` on: in order, disjoint, each one decodes, and every position
    that decodes is the start of one or lies inside one.
   */
  ghost predicate AreCandidates(content: string, blocks: seq<Block>, decode: Decoder, from: nat, cs: seq<Candidate>) {
    && (forall i :: 0 <= i < |cs| ==> from <= cs[i].start && IsCandidate(content, blocks, decode, cs[i]))
    && (forall i, j :: 0 <= i < j < |cs| ==> cs[i].end <= cs[j].start)
    && (forall p: nat :: from <= p && Decodes(content, blocks, decode, p) ==> Within(p, cs))
  }

  ghost predicate IsCandidate(content: string, blocks: seq<Block>, decode: Decoder, c: Candidate) {
    && Decodes(content, blocks, decode, c.start)
    && c.start < c.end == c.start + decode(c.start).value.length
    && c.payload == decode(c.start).value.payload
  }

  ghost predicate Within(p: nat, cs: seq<Candidate>) {
    exists i :: 0 <= i < |cs| && cs[i].start <= p < cs[i].end
  }

  /** The first opening brace from a position on. */
  function FindBrace(content: string, index: nat): (r: Option<nat>)
    ensures r.Some? ==> index <= r.value < |content| && content[r.value] == '{'
    ensures forall i :: index <= i < (if r.Some? then r.value else |content|) ==> content[i] != '{'
    decreases |content| - index
  {
    if index >= |content| then None
    else if content[index] == '{' then Some(index)
    else FindBrace(content, index + 1)
  }

  /** The candidates found while everything before `upto` has been looked at. */
  ghost predicate CandidatesUpto(content: string, blocks: seq<Block>, decode: Decoder, upto: nat, cs: seq<Candidate>) {
    && (forall i :: 0 <= i < |cs| ==> IsCandidate(content, blocks, decode, cs[i]) && cs[i].end <= upto)
    && (forall i, j :: 0 <= i < j < |cs| ==> cs[i].end <= cs[j].start)
    && (forall p: nat :: p < upto && Decodes(content, blocks, decode, p) ==> Within(p, cs))
  }

  lemma CandidatesStretch(content: string, blocks: seq<Block>, decode: Decoder, upto: nat, further: nat,
                          cs: seq<Candidate>)
    requires CandidatesUpto(content, blocks, decode, upto, cs) && upto <= further
    requires forall p: nat :: upto <= p < further ==> !Decodes(content, blocks, decode, p)
    ensures CandidatesUpto(content, blocks, decode, further, cs)
  {
    hide Decodes, IsCandidate, Within;
  }

  lemma AppendCandidate(content: string, blocks: seq<Block>, decode: Decoder, cs: seq<Candidate>, c: Candidate)
    requires CandidatesUpto(content, blocks, decode, c.start, cs) && IsCandidate(content, blocks, decode, c)
    ensures CandidatesUpto(content, blocks, decode, c.end, cs + [c])
  {
    assert c.start < c.end;
    hide Decodes, IsCandidate;
    var more := cs + [c];
    assert more[|cs|] == c;
    forall p: nat | p < c.end && Decodes(content, blocks, decode, p) ensures Within(p, more) {
      if p < c.start {
        var i :| 0 <= i < |cs| && cs[i].start <= p < cs[i].end;
        assert more[i] == cs[i];
      }
    }
  }

  /** `_json_object_candidates` */
  method JsonObjectCandidates(content: string, open: Matcher, close: Matcher, decode: Decoder)
    returns (candidates: seq<Candidate>)
    requires ValidMatcher(open, |content|) && ValidMatcher(close, |content|) && ValidDecoder(decode, |content|)
    ensures exists blocks :: AreThinkBlocks(open, close, |content|, 0, |content|, blocks) &&
                             AreCandidates(content, blocks, decode, 0, candidates)
  {
    hide AreThinkBlocks, CandidatesUpto, AreCandidates;
    var thinkBlocks := ThinkBlockSpans(open, close, |content|);
    candidates := [];
    var index: nat := 0;
    NoCandidates(content, thinkBlocks, decode);
    while index < |content|
      invariant index <= |content| && CandidatesUpto(content, thinkBlocks, decode, index, candidates)
    {
      var objectStart := FindBrace(content, index);
      if objectStart.None? {
        CandidatesStretch(content, thinkBlocks, decode, index, |content|, candidates);
        break;
      }
      var start := objectStart.value;
      CandidatesStretch(content, thinkBlocks, decode, index, start, candidates);
      if InBlocks(start, thinkBlocks) {
        CandidatesStretch(content, thinkBlocks, decode, start, start + 1, candidates);
        index := start + 1;
        continue;
      }
      var parsed := decode(start);
      if parsed.None? {
        CandidatesStretch(content, thinkBlocks, decode, start, start + 1, candidates);
        index := start + 1;
        continue;
      }
      if parsed.value.mapping {
        var c := Candidate(start, start + parsed.value.length, parsed.value.payload);
        AppendCandidate(content, thinkBlocks, decode, candidates, c);
        candidates := candidates + [c];
        index := c.end;
        continue;
      }
      CandidatesStretch(content, thinkBlocks, decode, start, start + 1, candidates);
      index := start + 1;
    }
    AllCandidates(content, thinkBlocks, decode, candidates);
  }

  lemma NoCandidates(content: string, blocks: seq<Block>, decode: Decoder)
    ensures CandidatesUpto(content, blocks, decode, 0, [])
  {}

  lemma AllCandidates(content: string, blocks: seq<Block>, decode: Decoder, cs: seq<Candidate>)
    requires CandidatesUpto(content, blocks, decode, |content|, cs)
    ensures AreCandidates(content, blocks, decode, 0, cs)
  {
    hide Within;
  }

  /** The candidates are determined by the text: the list is the only one that fits. */
  lemma {:induction false} CandidatesUnique(content: string, blocks: seq<Block>, decode: Decoder, from: nat,
                                            a: seq<Candidate>, b: seq<Candidate>)
    requires AreCandidates(content, blocks, decode, from, a) && AreCandidates(content, blocks, decode, from, b)
    ensures a == b
    decreases |a|
  {
    hide Decodes, AreCandidates;
    if a == [] {
      if b != [] {
        FirstCandidateFirst(content, blocks, decode, from, b, a);
      }
    } else {
      FirstCandidateFirst(content, blocks, decode, from, a, b);
      FirstCandidateFirst(content, blocks, decode, from, b, a);
      CandidatesTail(content, blocks, decode, from, a);
      CandidatesTail(content, blocks, decode, from, b);
      CandidatesUnique(content, blocks, decode, a[0].end, a[1..], b[1..]);
      assert a == [a[0]] + a[1..] && b == [b[0]] + b[1..];
    }
  }

  lemma FirstCandidateFirst(content: string, blocks: seq<Block>, decode: Decoder, from: nat,
                            a: seq<Candidate>, b: seq<Candidate>)
    requires AreCandidates(content, blocks, decode, from, a) && AreCandidates(content, blocks, decode, from, b) &&
             a != []
    ensures b != [] && b[0].start <= a[0].start
    ensures IsCandidate(content, blocks, decode, a[0]) && IsCandidate(content, blocks, decode, b[0])
  {
    hide Decodes;
    assert Within(a[0].start, b);
    var i :| 0 <= i < |b| && b[i].start <= a[0].start < b[i].end;
    assert i > 0 ==> b[0].end <= b[i].start;
  }

  lemma CandidatesTail(content: string, blocks: seq<Block>, decode: Decoder, from: nat, a: seq<Candidate>)
    requires AreCandidates(content, blocks, decode, from, a) && a != []
    ensures AreCandidates(content, blocks, decode, a[0].end, a[1..])
  {
    var rest := a[1..];
    assert forall i :: 0 <= i < |rest| ==> rest[i] == a[i + 1];
    assert a[0].start < a[0].end;
    hide Decodes, IsCandidate;
    forall p: nat | a[0].end <= p && Decodes(content, blocks, decode, p) ensures Within(p, rest) {
      assert Within(p, a);
      LaterWithin(a, p);
    }
  }

  lemma LaterWithin(a: seq<Candidate>, p: nat)
    requires a != [] && Within(p, a) && p >= a[0].end
    ensures Within(p, a[1..])
  {
    var i :| 0 <= i < |a| && a[i].start <= p < a[i].end;
    assert a[1..][i - 1] == a[i];
  }

  // ---- the choice

  /** `_graph_payload_score` */
  function Score(p: Payload): Option<nat> {
    if p.entities.Some? && p.relations.Some? then Some(p.entities.value + p.relations.value) else None
  }

  /** Both fields of the payload are arrays. */
  predicate IsGraph(p: Payload) {
    p.entities.Some? && p.relations.Some?
  }

  /** The payload of candidate `k` has the most items, entities and relations, and is the last that has as many. */
  ghost predicate IsLastBest(cs: seq<Candidate>, k: nat) {
    && k < |cs| && IsGraph(cs[k].payload)
    && var most := cs[k].payload.entities.value + cs[k].payload.relations.value;
    && (forall i :: 0 <= i < k && IsGraph(cs[i].payload) ==>
          cs[i].payload.entities.value + cs[i].payload.relations.value <= most)
    && (forall i :: k < i < |cs| && IsGraph(cs[i].payload) ==>
          cs[i].payload.entities.value + cs[i].payload.relations.value < most)
  }

  /** The payload the parser settles on: the last with most items, else the first, else none. */
  ghost predicate IsChoice(cs: seq<Candidate>, choice: Option<Payload>) {
    match choice
    case None => cs == []
    case Some(p) =>
      if exists i :: 0 <= i < |cs| && IsGraph(cs[i].payload)
      then exists k: nat :: IsLastBest(cs, k) && p == cs[k].payload
      else cs != [] && p == cs[0].payload
  }

  /** The loop of `_parse_llm_json`. */
  method ChoosePayload(candidates: seq<Candidate>) returns (choice: Option<Payload>)
    ensures IsChoice(candidates, choice)
  {
    var first: Option<Payload> := None;
    var best: Option<Payload> := None;
    var bestScore: int := -1;
    ghost var k: nat := 0;
    for n := 0 to |candidates|
      invariant first == if n == 0 then None else Some(candidates[0].payload)
      invariant best.None? ==> bestScore == -1 && forall i :: 0 <= i < n ==> Score(candidates[i].payload).None?
      invariant best.Some? ==>
        && k < n && best.value == candidates[k].payload && Score(best.value) == Some(bestScore)
        && (forall i :: 0 <= i < k && Score(candidates[i].payload).Some? ==>
            Score(candidates[i].payload).value <= bestScore)
        && (forall i :: k < i < n && Score(candidates[i].payload).Some? ==>
            Score(candidates[i].payload).value < bestScore)
    {
      var parsed := candidates[n].payload;
      if first.None? {
        first := Some(parsed);
      }
      var score := Score(parsed);
      if score.Some? && score.value >= bestScore {
        best := Some(parsed);
        bestScore := score.value;
        k := n;
      }
    }
    if best.Some? {
      assert IsLastBest(candidates, k);
      return best;
    }
    choice := first;
  }

  lemma LastBestUnique(cs: seq<Candidate>, j: nat, k: nat)
    requires IsLastBest(cs, j) && IsLastBest(cs, k)
    ensures j == k
  {}

  lemma ChoiceUnique(cs: seq<Candidate>, a: Option<Payload>, b: Option<Payload>)
    requires IsChoice(cs, a) && IsChoice(cs, b)
    ensures a == b
  {
    if exists i :: 0 <= i < |cs| && IsGraph(cs[i].payload) {
      var j: nat :| IsLastBest(cs, j) && a.value == cs[j].payload;
      var k: nat :| IsLastBest(cs, k) && b.value == cs[k].payload;
      LastBestUnique(cs, j, k);
    }
  }

  // ---- the code fence

  const FENCE := "```"

  /** "json" in any case; U+017F is a lower-case s to the regular expression. */
  predicate StartsWithJson(s: string) {
    |s| >= 4 && s[0] in "jJ" && s[1] in "sS\U{17F}" && s[2] in "oO" && s[3] in "nN"
  }

  /** An opening fence with its language tag and the whitespace behind it is removed. */
  function DropOpening(s: string): string {
    if !(FENCE <= s) then s
    else if StartsWithJson(s[3..]) then StripLeft(s[7..])
    else StripLeft(s[3..])
  }

  /** A closing fence is removed; the whitespace before it goes with the final strip. */
  function DropClosing(s: string): string {
    if |s| >= 3 && s[|s| - 3..] == FENCE then s[..|s| - 3] else s
  }

  /** `_strip_llm_json_content` */
  function StripFence(content: string): string {
    Strip(DropClosing(DropOpening(Strip(content))))
  }

  /** Content that neither starts nor ends with a fence keeps everything but its outer whitespace. */
  lemma UnfencedIsKept(body: string)
    requires !(FENCE <= Strip(body)) && DropClosing(Strip(body)) == Strip(body)
    ensures StripFence(body) == Strip(body)
  {
    hide IsSpace, Strip;
    var lo, hi := StripSplit(body);
    if lo < hi {
      StripTrimmed(body[lo..hi]);
    } else {
      assert Strip(body) == "" && Strip("") == "" by { StripOfEmpty(); }
    }
  }

  lemma StripOfEmpty()
    ensures Strip("") == ""
  {}

  lemma OpeningDropped(s: string)
    requires s != "" && !IsSpace(s[0])
    ensures DropOpening(FENCE + "json\n" + s) == s
  {
    hide IsSpace, StripLeft;
    var t := FENCE + "json\n" + s;
    assert t[3..] == "json\n" + s && t[7..] == "\n" + s;
    assert t[..3] == FENCE;
    BreakIsStripped(s);
  }

  lemma ClosingDropped(s: string)
    ensures DropClosing(s + "\n" + FENCE) == s + "\n"
  {
    var t := s + "\n" + FENCE;
    assert t[..|t| - 3] == s + "\n" && t[|t| - 3..] == FENCE;
  }

  /** Fencing a visible text that itself starts and ends otherwise changes nothing about what is read. */
  lemma FenceIsTransparent(body: string)
    requires Trimmed(body) && !(FENCE <= body) && DropClosing(body) == body
    ensures StripFence(FENCE + "json\n" + (body + "\n" + FENCE)) == body == StripFence(body)
  {
    var inner := body + "\n" + FENCE;
    var s := FENCE + "json\n" + inner;
    assert s[0] == '`' && s[|s| - 1] == inner[|inner| - 1] == '`' && inner[0] == body[0];
    assert !IsSpace('`');
    hide IsSpace, DropOpening, DropClosing, Strip;
    StripTrimmed(body);
    UnfencedIsKept(body);
    StripTrimmed(s);
    OpeningDropped(inner);
    ClosingDropped(body);
    BreakAtEnd(body);
  }

  lemma BreakIsStripped(s: string)
    requires s != "" && !IsSpace(s[0])
    ensures StripLeft("\n" + s) == s
  {
    assert ("\n" + s)[1..] == s;
    assert StripLeft(s) == s;
  }

  lemma BreakAtEnd(s: string)
    requires Trimmed(s)
    ensures Strip(s + "\n") == s
  {
    var t := s + "\n";
    assert t[0] == s[0] && StripLeft(t) == t;
    assert t[..|t| - 1] == s && t[|t| - 1] == '\n';
    assert StripRight(t) == StripRight(s) == s;
  }

  datatype Parse = Parsed(payload: Payload) | EmptyResponse | InvalidResponse

  /** The result of the parser, said without its loops. */
  ghost predicate IsParse(content: string, open: Matcher, close: Matcher, decode: Decoder, r: Parse) {
    && (r.EmptyResponse? <==> Strip(content) == "")
    && (Strip(content) != "" ==>
          var stripped := StripFence(content);
          exists blocks, cs ::
            && AreThinkBlocks(open, close, |stripped|, 0, |stripped|, blocks)
            && AreCandidates(stripped, blocks, decode, 0, cs)
            && IsChoice(cs, if r.Parsed? then Some(r.payload) else None))
  }

  /** The text of a reply determines what is parsed from it. */
  lemma ParseUnique(content: string, open: Matcher, close: Matcher, decode: Decoder, a: Parse, b: Parse)
    requires IsParse(content, open, close, decode, a) && IsParse(content, open, close, decode, b)
    ensures a == b
  {
    hide AreThinkBlocks, AreCandidates, IsChoice, StripFence;
    if Strip(content) != "" {
      var stripped := StripFence(content);
      var n := |stripped|;
      var p := if a.Parsed? then Some(a.payload) else None;
      var q := if b.Parsed? then Some(b.payload) else None;
      var blocks, cs :| AreThinkBlocks(open, close, n, 0, n, blocks) &&
                        AreCandidates(stripped, blocks, decode, 0, cs) && IsChoice(cs, p);
      var others, ds :| AreThinkBlocks(open, close, n, 0, n, others) &&
                        AreCandidates(stripped, others, decode, 0, ds) && IsChoice(ds, q);
      ThinkBlocksUnique(open, close, n, 0, blocks, others);
      CandidatesUnique(stripped, blocks, decode, 0, cs, ds);
      ChoiceUnique(cs, p, q);
    }
  }

  /** `_parse_llm_json` */
  method ParseLlmJson(content: string, open: Matcher, close: Matcher, decode: Decoder) returns (r: Parse)
    requires ValidMatcher(open, |StripFence(content)|) && ValidMatcher(close, |StripFence(content)|)
    requires ValidDecoder(decode, |StripFence(content)|)
    ensures IsParse(content, open, close, decode, r)
  {
    hide AreThinkBlocks, AreCandidates, IsChoice, StripFence;
    if Strip(content) == "" {
      return EmptyResponse;
    }
    var stripped := StripFence(content);
    if stripped == "" {
      EmptyHasNothing(open, close, decode);
      return InvalidResponse;
    }
    var candidates := JsonObjectCandidates(stripped, open, close, decode);
    var choice := ChoosePayload(candidates);
    if choice.Some? {
      return Parsed(choice.value);
    }
    r := InvalidResponse;
  }

  lemma EmptyHasNothing(open: Matcher, close: Matcher, decode: Decoder)
    ensures AreThinkBlocks(open, close, 0, 0, 0, []) && AreCandidates("", [], decode, 0, [])
    ensures IsChoice([], None)
  {}
}

/**
  A whole extraction run with the parser and the grounding in it: what one reply comes to
  (the `try` block of `_extract_chunk` in llm_extraction.py), and what holds of everything a run
  returns.
 */
module GroundedRun {
  import opened Text
  import opened CaseFolding
  import opened EntityRefs
  import opened Collecting
  import opened EntityNames
  import opened Grounding
  import opened GroundedChunk
  import J = LlmJson
  import X = GraphExtraction

  /** What is fixed for a run: the case folding, the limits, and the text of every chunk. */
  datatype Corpus = Corpus(cs: Casing, limits: Limits, text: nat -> string)

  // ---- one reply

  /** What a parsed reply and the grounding of its payload make of a chunk. */
  function ContentOf(corpus: Corpus, chunk: nat, parse: J.Parse, fields: J.Payload -> RawPayload): X.Content {
    match parse
    case EmptyResponse => X.Unusable(X.EmptyResponse)
    case InvalidResponse => X.Unusable(X.InvalidResponse)
    case Parsed(payload) =>
      match ChunkFrom(corpus.cs, corpus.text(chunk), corpus.limits, fields(payload))
      case Unreadable => X.Unusable(X.InvalidResponse)
      case Failed => X.Broken
      case Anchored(entities, relations) => X.Parsed(entities, relations)
  }

  /** From the text of a reply to what the run makes of it. */
  method ReadReply(corpus: Corpus, chunk: nat, reply: string, open: J.Matcher, close: J.Matcher,
                   decode: J.Decoder, fields: J.Payload -> RawPayload)
    returns (content: X.Content)
    requires J.ValidMatcher(open, |J.StripFence(reply)|) && J.ValidMatcher(close, |J.StripFence(reply)|)
    requires J.ValidDecoder(decode, |J.StripFence(reply)|)
    ensures exists parse :: J.IsParse(reply, open, close, decode, parse) &&
                            content == ContentOf(corpus, chunk, parse, fields)
  {
    hide ChunkFrom, J.IsParse, J.StripFence;
    var parse := J.ParseLlmJson(reply, open, close, decode);
    match parse {
      case EmptyResponse => content := X.Unusable(X.EmptyResponse);
      case InvalidResponse => content := X.Unusable(X.InvalidResponse);
      case Parsed(payload) =>
        var grounded := GroundChunk(corpus.cs, corpus.text(chunk), corpus.limits, fields(payload));
        match grounded {
          case Unreadable => content := X.Unusable(X.InvalidResponse);
          case Failed => content := X.Broken;
          case Anchored(entities, relations) => content := X.Parsed(entities, relations);
        }
    }
    assert content == ContentOf(corpus, chunk, parse, fields);
  }

  // ---- the whole run

  /** Every usable content of the generator was grounded in the chunk it answers for. */
  ghost predicate ReadsChunks(corpus: Corpus, generate: X.Generator) {
    forall chunk, attempt :: generate(chunk, attempt).Generated? && generate(chunk, attempt).content.Parsed? ==>
      ReadFrom(corpus, chunk, generate(chunk, attempt).content)
  }

  ghost predicate ReadFrom(corpus: Corpus, chunk: nat, content: X.Content) {
    exists parse, fields :: CleanParse(corpus, parse, fields) && content == ContentOf(corpus, chunk, parse, fields)
  }

  ghost predicate CleanParse(corpus: Corpus, parse: J.Parse, fields: J.Payload -> RawPayload) {
    parse.Parsed? ==> CleanPayload(corpus.cs, fields(parse.payload))
  }

  /** The texts of the first `n` chunks are safe to search. */
  ghost predicate SafeCorpus(corpus: Corpus, n: nat) {
    ValidCasing(corpus.cs) && forall chunk: nat :: chunk < n ==> KeepsLength(corpus.cs, corpus.text(chunk))
  }

  /** What a successful chunk contributes was grounded in the text of that chunk. */
  ghost predicate Contributes(corpus: Corpus, generate: X.Generator, chunk: nat) {
    exists raw :: ContributesFrom(corpus, generate, chunk, raw)
  }

  ghost predicate ContributesFrom(corpus: Corpus, generate: X.Generator, chunk: nat, raw: RawPayload) {
    && X.Succeeds(generate, chunk)
    && var outcome := X.ChunkResult(generate, chunk).outcome;
       ChunkGrounded(corpus.cs, corpus.text(chunk), corpus.limits, raw, Anchored(outcome.mentions, outcome.relations))
  }

  lemma SuccessIsParsed(generate: X.Generator, chunk: nat) returns (attempt: nat)
    requires X.Succeeds(generate, chunk)
    ensures var outcome := X.ChunkResult(generate, chunk).outcome;
      && generate(chunk, attempt).Generated?
      && generate(chunk, attempt).content == X.Parsed(outcome.mentions, outcome.relations)
  {
    attempt := |X.ChunkCalls(generate, chunk)| - 1;
    assert X.ChunkCalls(generate, chunk)[attempt] == generate(chunk, attempt);
  }

  lemma SuccessIsGrounded(corpus: Corpus, generate: X.Generator, n: nat, chunk: nat)
    requires SafeCorpus(corpus, n) && ReadsChunks(corpus, generate) && chunk < n && X.Succeeds(generate, chunk)
    ensures Contributes(corpus, generate, chunk)
  {
    var attempt := SuccessIsParsed(generate, chunk);
    hide X.ChunkResult, ChunkGrounded, ValidCasing, KeepsLength, CleanPayload, ChunkFrom;
    var outcome := X.ChunkResult(generate, chunk).outcome;
    var content := generate(chunk, attempt).content;
    assert ReadFrom(corpus, chunk, content);
    var parse, fields :| CleanParse(corpus, parse, fields) && content == ContentOf(corpus, chunk, parse, fields);
    var raw := fields(parse.payload);
    ChunkIsGrounded(corpus.cs, corpus.text(chunk), corpus.limits, raw);
    assert ChunkFrom(corpus.cs, corpus.text(chunk), corpus.limits, raw) ==
           Anchored(outcome.mentions, outcome.relations);
    assert ContributesFrom(corpus, generate, chunk, raw);
  }

  /** Position `i` of the mentions of a run lies in the stretch that a chunk contributed. */
  ghost predicate MentionOf(generate: X.Generator, chunk: nat, i: nat) {
    && X.Succeeds(generate, chunk)
    && var before := X.MentionsUpTo(generate, chunk);
       |before| <= i < |before| + |X.ChunkResult(generate, chunk).outcome.mentions|
  }

  ghost predicate RelationOf(generate: X.Generator, chunk: nat, i: nat) {
    && X.Succeeds(generate, chunk)
    && var before := X.RelationsUpTo(generate, chunk);
       |before| <= i < |before| + |X.ChunkResult(generate, chunk).outcome.relations|
  }

  lemma {:induction false} MentionHasChunk(generate: X.Generator, n: nat, i: nat) returns (chunk: nat)
    requires i < |X.MentionsUpTo(generate, n)|
    ensures chunk < n && MentionOf(generate, chunk, i)
  {
    hide X.ChunkResult;
    if i < |X.MentionsUpTo(generate, n - 1)| {
      chunk := MentionHasChunk(generate, n - 1, i);
    } else {
      chunk := n - 1;
    }
  }

  lemma {:induction false} RelationHasChunk(generate: X.Generator, n: nat, i: nat) returns (chunk: nat)
    requires i < |X.RelationsUpTo(generate, n)|
    ensures chunk < n && RelationOf(generate, chunk, i)
  {
    hide X.ChunkResult;
    if i < |X.RelationsUpTo(generate, n - 1)| {
      chunk := RelationHasChunk(generate, n - 1, i);
    } else {
      chunk := n - 1;
    }
  }

  /** A mention of a run is an entity grounded in the text of the chunk it came from. */
  ghost predicate MentionGrounded(corpus: Corpus, chunk: nat, e: Entity) {
    exists raws :: EntityGrounded(corpus.cs, corpus.text(chunk), corpus.limits.minConfidence, raws, e)
  }

  /** A relation of a run joins mentions of the chunk it came from, in that chunk's text. */
  ghost predicate JoinsChunk(corpus: Corpus, generate: X.Generator, chunk: nat, r: Relation)
    requires X.Succeeds(generate, chunk)
  {
    RelationGrounded(corpus.cs, corpus.text(chunk), X.ChunkResult(generate, chunk).outcome.mentions,
                     corpus.limits.minConfidence, r)
  }

  lemma MentionIsGrounded(corpus: Corpus, generate: X.Generator, n: nat, i: nat) returns (chunk: nat)
    requires SafeCorpus(corpus, n) && ReadsChunks(corpus, generate) && i < |X.MentionsUpTo(generate, n)|
    ensures chunk < n && MentionOf(generate, chunk, i)
    ensures MentionGrounded(corpus, chunk, X.MentionsUpTo(generate, n)[i])
  {
    hide X.ChunkResult, SafeCorpus, ReadsChunks, X.MentionsUpTo, X.RelationsUpTo, EntityGrounded, RelationGrounded;
    chunk := MentionHasChunk(generate, n, i);
    SuccessIsGrounded(corpus, generate, n, chunk);
    X.SuccessesContribute(generate, n, chunk);
    var raw :| ContributesFrom(corpus, generate, chunk, raw);
    var k := i - |X.MentionsUpTo(generate, chunk)|;
    assert X.MentionsUpTo(generate, n)[i] == X.ChunkResult(generate, chunk).outcome.mentions[k];
  }

  lemma RelationIsGrounded(corpus: Corpus, generate: X.Generator, n: nat, i: nat) returns (chunk: nat)
    requires SafeCorpus(corpus, n) && ReadsChunks(corpus, generate) && i < |X.RelationsUpTo(generate, n)|
    ensures chunk < n && RelationOf(generate, chunk, i)
    ensures JoinsChunk(corpus, generate, chunk, X.RelationsUpTo(generate, n)[i])
  {
    hide X.ChunkResult, SafeCorpus, ReadsChunks, X.MentionsUpTo, X.RelationsUpTo, EntityGrounded, RelationGrounded;
    chunk := RelationHasChunk(generate, n, i);
    SuccessIsGrounded(corpus, generate, n, chunk);
    X.SuccessesContribute(generate, n, chunk);
    var raw :| ContributesFrom(corpus, generate, chunk, raw);
    var k := i - |X.RelationsUpTo(generate, chunk)|;
    assert X.RelationsUpTo(generate, n)[i] == X.ChunkResult(generate, chunk).outcome.relations[k];
  }

  /** The i-th mention of a run is grounded in the text of the chunk that contributed it. */
  ghost predicate MentionAnchored(corpus: Corpus, generate: X.Generator, n: nat, i: nat)
    requires i < |X.MentionsUpTo(generate, n)|
  {
    exists chunk: nat :: chunk < n && MentionOf(generate, chunk, i) &&
                         MentionGrounded(corpus, chunk, X.MentionsUpTo(generate, n)[i])
  }

  ghost predicate RelationAnchored(corpus: Corpus, generate: X.Generator, n: nat, i: nat)
    requires i < |X.RelationsUpTo(generate, n)|
  {
    exists chunk: nat :: chunk < n && RelationOf(generate, chunk, i) &&
                         JoinsChunk(corpus, generate, chunk, X.RelationsUpTo(generate, n)[i])
  }

  /**
    Every mention and every relation that a run returns comes from a chunk that succeeded, is
    found at that chunk's place in the result, and is grounded in that chunk's text.
   */
  lemma RunIsGrounded(corpus: Corpus, generate: X.Generator, n: nat)
    requires SafeCorpus(corpus, n) && ReadsChunks(corpus, generate)
    ensures forall i: nat :: i < |X.MentionsUpTo(generate, n)| ==> MentionAnchored(corpus, generate, n, i)
    ensures forall i: nat :: i < |X.RelationsUpTo(generate, n)| ==> RelationAnchored(corpus, generate, n, i)
  {
    hide X.ChunkResult, SafeCorpus, ReadsChunks, X.MentionsUpTo, X.RelationsUpTo, MentionOf, RelationOf,
         MentionGrounded, JoinsChunk;
    forall i: nat | i < |X.MentionsUpTo(generate, n)| ensures MentionAnchored(corpus, generate, n, i) {
      var chunk := MentionIsGrounded(corpus, generate, n, i);
    }
    forall i: nat | i < |X.RelationsUpTo(generate, n)| ensures RelationAnchored(corpus, generate, n, i) {
      var chunk := RelationIsGrounded(corpus, generate, n, i);
    }
  }
}

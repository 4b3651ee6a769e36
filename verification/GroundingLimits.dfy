/**
  When the grounding of a chunk keeps its promise: exactly when lowering replaces every
  character of the chunk by one.
 */
module GroundingLimits {
  import opened Text
  import opened CaseFolding
  import opened SpanSearch
  import opened SpanLimits
  import opened EntityRefs
  import opened Collecting
  import opened EntityNames
  import opened Grounding
  import opened GroundedChunk
  import E = EvidenceSpan

  /** The payload raises nothing, and what leaves the chunk is grounded in its text. */
  ghost predicate GroundedRight(cs: Casing, text: string, limits: Limits, raw: RawPayload) {
    var chunk := ChunkFrom(cs, text, limits, raw);
    !chunk.Failed? && (chunk.Anchored? ==> ChunkGrounded(cs, text, limits, raw, chunk))
  }

  /** Names with no aliases and no normalisation to speak of. */
  function PlainNames(): RawNames {
    RawNames("", Field.Missing, s => None, (name, aliases) => Some(Normalized(name, "", [])))
  }

  function MentionOnly(mention: string): RawEntity {
    RawEntity(mention, Some(0.0), PlainNames())
  }

  lemma PlainAccepted(cs: Casing, text: string, mention: string)
    requires Span(cs, text, mention).Found?
    ensures var v, span := GroundEntity(cs, text, 0.0, MentionOnly(mention)), Span(cs, text, mention);
      v.Accept? && v.item.start == span.lo && v.item.end == span.hi
  {
    hide Span, EntityOf, CanonicalName, TextValue, Lower;
    var span := Span(cs, text, mention);
    var naming := NameEntity(cs, text, E.Slice(text, span.lo, span.hi), PlainNames());
    assert naming.Named?;
    EntityOfFields(cs, naming.names, span.lo, span.hi);
  }

  function MentionPayload(mention: string): RawPayload {
    RawPayload(Items([MentionOnly(mention)]), Items([]))
  }

  /** The payload leads to one entity, at the span found. */
  lemma MentionEntities(cs: Casing, text: string, mention: string) returns (e: Entity)
    requires Span(cs, text, mention).Found?
    ensures Entities(cs, text, 0.0, 1, [MentionOnly(mention)]) == Grounded([e])
    ensures Found(e.start, e.end) == Span(cs, text, mention)
  {
    PlainAccepted(cs, text, mention);
    hide *;
    e := GroundEntity(cs, text, 0.0, MentionOnly(mention)).item;
    OneAccepted(cs, text, MentionOnly(mention), e);
  }

  lemma OneAccepted(cs: Casing, text: string, raw: RawEntity, e: Entity)
    requires GroundEntity(cs, text, 0.0, raw) == Accept(e)
    ensures Entities(cs, text, 0.0, 1, [raw]) == Grounded([e])
  {
    hide GroundEntity;
    assert EntityVerdicts(cs, text, 0.0, [raw]) == [Accept(e)];
    CollectOne(e);
  }

  lemma CollectOne(e: Entity)
    ensures Collect([Accept(e)], SameEntity, 1, []) == Grounded([e])
  {
    assert [Accept(e)][1..] == [];
  }

  lemma MentionChunk(cs: Casing, text: string, mention: string, e: Entity)
    requires Entities(cs, text, 0.0, 1, [MentionOnly(mention)]) == Grounded([e])
    ensures ChunkFrom(cs, text, Limits(0.0, 1, 0), MentionPayload(mention)) == Anchored([e], [])
  {
    NoRelations(cs, text, [e]);
    hide Entities, Relations, MentionOnly;
  }

  lemma NotFromMention(cs: Casing, text: string, mention: string, e: Entity)
    requires Found(e.start, e.end) == Span(cs, text, mention)
    requires !MeetsPromise(cs, text, mention, Span(cs, text, mention))
    ensures !EntityGrounded(cs, text, 0.0, [MentionOnly(mention)], e)
  {
    hide Span, Mentions, Strip, NameEntity;
    var raw := MentionOnly(mention);
    assert !FromRaw(cs, text, 0.0, raw, e);
    hide FromRaw, MentionOnly;
    forall i | 0 <= i < 1 ensures !FromRaw(cs, text, 0.0, [raw][i], e) {}
  }

  /** A wrong span goes straight into the chunk's entities. */
  lemma WrongSpanLeaves(cs: Casing, text: string, mention: string)
    requires Span(cs, text, mention).Found? && !MeetsPromise(cs, text, mention, Span(cs, text, mention))
    ensures !GroundedRight(cs, text, Limits(0.0, 1, 0), MentionPayload(mention))
  {
    var e := MentionEntities(cs, text, mention);
    MentionChunk(cs, text, mention, e);
    NotFromMention(cs, text, mention, e);
    hide Span, ChunkFrom, MeetsPromise, Entities, MentionOnly, EntityGrounded, RelationGrounded;
    assert [e][0] == e;
  }

  lemma NoRelations(cs: Casing, text: string, entities: seq<Entity>)
    requires |entities| < 2
    ensures Relations(cs, text, 0.0, 0, [], entities) == Grounded([])
  {}

  /** Chunk by chunk: every clean payload is grounded right if and only if the text keeps its length. */
  lemma SafeChunks(cs: Casing, text: string)
    requires ValidCasing(cs) && '\0' !in text
    ensures KeepsLength(cs, text) <==>
            forall limits, raw :: CleanPayload(cs, raw) ==> GroundedRight(cs, text, limits, raw)
  {
    hide GroundedRight, KeepsLength, ValidCasing, CleanPayload;
    if KeepsLength(cs, text) {
      forall limits, raw | CleanPayload(cs, raw) ensures GroundedRight(cs, text, limits, raw) {
        RightIfKept(cs, text, limits, raw);
      }
    } else {
      var mention := TextMustKeepLength(cs, text);
      WrongSpanLeaves(cs, text, mention);
      MentionIsClean(cs, mention);
    }
  }

  lemma RightIfKept(cs: Casing, text: string, limits: Limits, raw: RawPayload)
    requires ValidCasing(cs) && KeepsLength(cs, text) && CleanPayload(cs, raw)
    ensures GroundedRight(cs, text, limits, raw)
  {
    hide ChunkFrom, ChunkGrounded, ValidCasing, KeepsLength, CleanPayload;
    ChunkIsGrounded(cs, text, limits, raw);
  }

  lemma MentionIsClean(cs: Casing, mention: string)
    requires KeepsLength(cs, mention) && '\0' !in mention
    ensures CleanPayload(cs, MentionPayload(mention))
  {}
}

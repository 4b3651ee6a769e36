/**
  What the grounding of one payload guarantees: every entity and every relation that leaves a
  chunk is anchored in the chunk's text.
 */
module GroundedChunk {
  import opened Text
  import opened CaseFolding
  import opened SpanSearch
  import opened EntityRefs
  import opened Collecting
  import opened EntityNames
  import opened Grounding
  import E = EvidenceSpan

  /** The entity's span is an occurrence of a mention the LLM named, at sufficient confidence. */
  ghost predicate EntityGrounded(cs: Casing, text: string, minConfidence: real, raws: seq<RawEntity>, e: Entity) {
    exists i :: 0 <= i < |raws| && FromRaw(cs, text, minConfidence, raws[i], e)
  }

  ghost predicate FromRaw(cs: Casing, text: string, minConfidence: real, raw: RawEntity, e: Entity) {
    && raw.RawEntity? && e.start < e.end <= |text|
    && Mentions(cs, text, e.start, e.end, Strip(raw.mention))
    && raw.confidence.Some? && raw.confidence.value >= minConfidence
    && var naming := NameEntity(cs, text, text[e.start..e.end], raw.names);
       naming.Named? && naming.names.key == e.key
  }

  /** The mentions and the quoted evidence went through `_text_value`; lowering keeps their lengths. */
  ghost predicate CleanMention(cs: Casing, s: string) {
    KeepsLength(cs, s) && '\0' !in s
  }

  ghost predicate CleanEntity(cs: Casing, raw: RawEntity) {
    raw.RawEntity? ==> CleanMention(cs, raw.mention) && CleanAliases(cs, raw.names.aliases)
  }

  lemma EntityAccepted(cs: Casing, text: string, minConfidence: real, raw: RawEntity)
    requires ValidCasing(cs) && KeepsLength(cs, text) && CleanEntity(cs, raw)
    ensures var v := GroundEntity(cs, text, minConfidence, raw);
      && !v.Crash?
      && (v.Accept? ==> FromRaw(cs, text, minConfidence, raw, v.item) && E.HasRefKeys(cs, EndpointOf(v.item)))
  {
    hide Span, Fold, Strip, StandsAlone, EntityOf, KeepsLength, ValidCasing, NameEntity, CleanAliases;
    if raw.RawEntity? {
      SpanExact(cs, text, raw.mention);
      E.QuotationInBounds(cs, text, raw.mention);
      match Span(cs, text, raw.mention) {
        case Found(lo, hi) =>
          var naming := NameEntity(cs, text, E.Slice(text, lo, hi), raw.names);
          NamingNeverCrashes(cs, text, E.Slice(text, lo, hi), raw.names);
          if naming.Named? {
            EntityOfFields(cs, naming.names, lo, hi);
            EntityRefKeys(cs, naming.names, lo, hi);
          }
        case _ =>
      }
    }
  }

  lemma RefKeyIsRefKey(cs: Casing, value: string)
    requires ValidCasing(cs)
    ensures E.IsRefKey(cs, RefKey(cs, value))
  {
    hide IsSpace, Strip, Collapse, Denul, Lower, ValidCasing;
    var t := TextValue(value);
    CollapseNoNul(Denul(value), false);
    var lo, hi := StripSplit(Collapse(Denul(value), false));
    assert '\0' !in t;
    LowerIsLower(cs, t);
    LowerNoNul(cs, t);
  }

  lemma {:induction false} KeysAreRefKeys(cs: Casing, names: seq<string>)
    requires ValidCasing(cs)
    ensures forall i :: 0 <= i < |NonEmptyKeys(cs, names)| ==> E.IsRefKey(cs, NonEmptyKeys(cs, names)[i])
  {
    hide RefKey, ValidCasing;
    if names != [] {
      RefKeyIsRefKey(cs, names[0]);
      KeysAreRefKeys(cs, names[1..]);
    }
  }

  lemma EntityRefKeys(cs: Casing, named: Label, lo: nat, hi: nat)
    requires ValidCasing(cs)
    ensures E.HasRefKeys(cs, EndpointOf(EntityOf(cs, named, lo, hi)))
  {
    hide NonEmptyKeys, ValidCasing;
    KeysAreRefKeys(cs, named.exactNames);
    KeysAreRefKeys(cs, named.aliasNames);
  }

  ghost predicate CleanEntities(cs: Casing, raws: seq<RawEntity>) {
    forall i :: 0 <= i < |raws| ==> CleanEntity(cs, raws[i])
  }

  ghost predicate CleanRelations(cs: Casing, raws: seq<RawRelation>) {
    forall i :: 0 <= i < |raws| && raws[i].RawRelation? ==> CleanMention(cs, raws[i].evidence)
  }

  /** The entities start inside the text and go by ref keys: what searching evidence for them needs. */
  ghost predicate AreAnchored(cs: Casing, text: string, entities: seq<Entity>) {
    forall i :: 0 <= i < |entities| ==> entities[i].start < |text| && E.HasRefKeys(cs, EndpointOf(entities[i]))
  }

  /**
    Every entity that leaves a chunk is a verbatim (up to blanks and case) occurrence of a
    mention the LLM named; no two agree on key and span; there are at most `cap`.
   */
  lemma EntitiesAreGrounded(cs: Casing, text: string, minConfidence: real, cap: nat, raws: seq<RawEntity>)
    requires ValidCasing(cs) && KeepsLength(cs, text) && CleanEntities(cs, raws)
    ensures var r := Entities(cs, text, minConfidence, cap, raws);
      && !r.Crashed?
      && (r.InvalidResponse? ==> exists i :: 0 <= i < |raws| && raws[i].RawEntity? && raws[i].confidence.None?)
      && (r.Grounded? ==>
            && |r.items| <= cap
            && (forall i :: 0 <= i < |r.items| ==> EntityGrounded(cs, text, minConfidence, raws, r.items[i]))
            && (forall i, j :: 0 <= i < j < |r.items| ==> !SameEntity(r.items[i], r.items[j]))
            && AreAnchored(cs, text, r.items))
  {
    hide GroundEntity, FromRaw, ValidCasing, KeepsLength;
    var verdicts := EntityVerdicts(cs, text, minConfidence, raws);
    forall i | 0 <= i < |raws|
      ensures !verdicts[i].Crash?
      ensures verdicts[i].Reject? ==> raws[i].RawEntity? && raws[i].confidence.None?
    {
      EntityAccepted(cs, text, minConfidence, raws[i]);
      EntityRejected(cs, text, minConfidence, raws[i]);
    }
    var items, picks, n := CollectExact(verdicts, SameEntity, cap);
    var r := Entities(cs, text, minConfidence, cap, raws);
    if r.Grounded? {
      forall i | 0 <= i < |r.items|
        ensures EntityGrounded(cs, text, minConfidence, raws, r.items[i])
        ensures r.items[i].start < |text| && E.HasRefKeys(cs, EndpointOf(r.items[i]))
      {
        var k :| 0 <= k < |verdicts| && verdicts[k] == Accept(r.items[i]);
        EntityAccepted(cs, text, minConfidence, raws[k]);
        assert FromRaw(cs, text, minConfidence, raws[k], r.items[i]);
        FromRawInText(cs, text, minConfidence, raws[k], r.items[i]);
      }
    }
  }

  lemma EntityRejected(cs: Casing, text: string, minConfidence: real, raw: RawEntity)
    ensures GroundEntity(cs, text, minConfidence, raw).Reject? ==> raw.RawEntity? && raw.confidence.None?
  {
    hide Span, EntityOf, NameEntity;
  }

  lemma FromRawInText(cs: Casing, text: string, minConfidence: real, raw: RawEntity, e: Entity)
    requires FromRaw(cs, text, minConfidence, raw, e)
    ensures e.start < |text|
  {}

  /** The relation joins two differently keyed entities of the chunk, both anchored in its evidence. */
  ghost predicate RelationGrounded(cs: Casing, text: string, entities: seq<Entity>, minConfidence: real, r: Relation) {
    && r.source != r.target && r.confidence >= minConfidence
    && exists s, t, lo, hi :: Joins(cs, text, entities, r, s, t, lo, hi)
  }

  ghost predicate Joins(cs: Casing, text: string, entities: seq<Entity>, r: Relation, s: Entity, t: Entity,
                        lo: nat, hi: nat)
  {
    && s in entities && t in entities && s.key == r.source && t.key == r.target
    && lo < hi <= |text| && r.evidence == text[lo..hi]
    && E.AnchoredIn(cs, text, lo, hi, EndpointOf(s)) && E.AnchoredIn(cs, text, lo, hi, EndpointOf(t))
  }

  lemma RelationAccepted(cs: Casing, text: string, minConfidence: real, raw: RawRelation, entities: seq<Entity>)
    requires ValidCasing(cs) && KeepsLength(cs, text) && (raw.RawRelation? ==> CleanMention(cs, raw.evidence))
    requires AreAnchored(cs, text, entities)
    ensures var v := GroundRelation(cs, text, minConfidence, raw, entities);
      !v.Crash? && (v.Accept? ==> RelationGrounded(cs, text, entities, minConfidence, v.item))
  {
    hide Denoted, RefKey, E.Evidence, E.Sentence, Span, Mentions, Strip, E.AnchoredIn, KeepsLength, ValidCasing,
         E.HasRefKeys;
    if raw.RawRelation? {
      var s, t := Denoted(entities, RefKey(cs, raw.source)), Denoted(entities, RefKey(cs, raw.target));
      if s.Some? && t.Some? {
        DenotedExact(entities, RefKey(cs, raw.source), s.value.key);
        DenotedExact(entities, RefKey(cs, raw.target), t.value.key);
        var a, b := EndpointOf(s.value), EndpointOf(t.value);
        E.EvidenceExact(cs, text, raw.evidence, a, b);
        var v := GroundRelation(cs, text, minConfidence, raw, entities);
        if v.Accept? {
          var span := E.Evidence(cs, text, raw.evidence, a, b);
          assert Joins(cs, text, entities, v.item, s.value, t.value, span.lo, span.hi);
        }
      }
    }
  }

  /**
    Every relation that leaves a chunk joins two different keys of its grounded entities, in
    evidence of the chunk that anchors both; no (source, target, type) comes twice; there
    are at most `cap`; and nothing other than an unreadable confidence raises.
   */
  lemma RelationsAreGrounded(cs: Casing, text: string, minConfidence: real, cap: nat, raws: seq<RawRelation>,
                             entities: seq<Entity>)
    requires ValidCasing(cs) && KeepsLength(cs, text) && CleanRelations(cs, raws)
    requires AreAnchored(cs, text, entities)
    ensures var r := Relations(cs, text, minConfidence, cap, raws, entities);
      && !r.Crashed?
      && (r.InvalidResponse? ==> exists i :: 0 <= i < |raws| && raws[i].RawRelation? && raws[i].confidence.None?)
      && (r.Grounded? ==>
            && |r.items| <= cap
            && (forall i :: 0 <= i < |r.items| ==> RelationGrounded(cs, text, entities, minConfidence, r.items[i]))
            && (forall i, j :: 0 <= i < j < |r.items| ==> !SameRelation(r.items[i], r.items[j])))
  {
    hide GroundRelation, RelationGrounded, ValidCasing, KeepsLength, E.HasRefKeys;
    var verdicts := RelationVerdicts(cs, text, minConfidence, raws, entities);
    forall i | 0 <= i < |raws|
      ensures !verdicts[i].Crash?
      ensures verdicts[i].Accept? ==> RelationGrounded(cs, text, entities, minConfidence, verdicts[i].item)
      ensures verdicts[i].Reject? ==> raws[i].RawRelation? && raws[i].confidence.None?
    {
      RelationAccepted(cs, text, minConfidence, raws[i], entities);
      RelationRejected(cs, text, minConfidence, raws[i], entities);
    }
    var items, picks, n := CollectExact(verdicts, SameRelation, cap);
    var r := Relations(cs, text, minConfidence, cap, raws, entities);
    if r.Grounded? && |entities| >= 2 {
      forall i | 0 <= i < |r.items| ensures RelationGrounded(cs, text, entities, minConfidence, r.items[i]) {
        var k :| 0 <= k < |verdicts| && verdicts[k] == Accept(r.items[i]);
      }
    }
  }

  lemma RelationRejected(cs: Casing, text: string, minConfidence: real, raw: RawRelation, entities: seq<Entity>)
    ensures GroundRelation(cs, text, minConfidence, raw, entities).Reject? ==> raw.RawRelation? && raw.confidence.None?
  {
    hide Denoted, E.Evidence;
  }

  /** What the text cleaner guarantees of the strings in a payload; lowering keeps their lengths. */
  ghost predicate CleanPayload(cs: Casing, raw: RawPayload) {
    && (raw.entities.Items? ==> CleanEntities(cs, raw.entities.items))
    && (raw.relations.Items? ==> CleanRelations(cs, raw.relations.items))
  }

  /** All entities of a chunk are grounded in its text, and its relations join them there. */
  ghost predicate ChunkGrounded(cs: Casing, text: string, limits: Limits, raw: RawPayload, chunk: Chunk)
    requires chunk.Anchored?
  {
    && raw.entities.Items?
    && (forall i :: 0 <= i < |chunk.entities| ==>
          EntityGrounded(cs, text, limits.minConfidence, raw.entities.items, chunk.entities[i]))
    && (forall i :: 0 <= i < |chunk.relations| ==>
          RelationGrounded(cs, text, chunk.entities, limits.minConfidence, chunk.relations[i]))
  }

  /**
    One payload, end to end: its entities are grounded in the chunk, its relations join them,
    and nothing crashes. It is unreadable only if a field is no array or a confidence is
    unreadable.
   */
  lemma ChunkIsGrounded(cs: Casing, text: string, limits: Limits, raw: RawPayload)
    requires ValidCasing(cs) && KeepsLength(cs, text) && CleanPayload(cs, raw)
    ensures var chunk := ChunkFrom(cs, text, limits, raw);
      && !chunk.Failed?
      && (chunk.Anchored? ==> ChunkGrounded(cs, text, limits, raw, chunk))
      && (chunk.Unreadable? ==>
            || !raw.entities.Items? || !raw.relations.Items?
            || (exists i :: 0 <= i < |raw.entities.items| &&
                  raw.entities.items[i].RawEntity? && raw.entities.items[i].confidence.None?)
            || (exists i :: 0 <= i < |raw.relations.items| &&
                  raw.relations.items[i].RawRelation? && raw.relations.items[i].confidence.None?))
  {
    hide Entities, Relations, EntityGrounded, RelationGrounded, AreAnchored, ValidCasing, KeepsLength;
    if raw.entities.Items? {
      EntitiesAreGrounded(cs, text, limits.minConfidence, limits.entityCap, raw.entities.items);
      var es := Entities(cs, text, limits.minConfidence, limits.entityCap, raw.entities.items);
      if es.Grounded? && raw.relations.Items? {
        RelationsAreGrounded(cs, text, limits.minConfidence, limits.relationCap, raw.relations.items, es.items);
      }
    }
  }
}

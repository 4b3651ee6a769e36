/**
  Which relations leave a chunk (`_ground_relations` of llm_extraction.py), said of the raw
  relations, the grounded entities and the text alone: both ends by name, in their direction,
  with type and confidence as read and with the place that states them.
 */
module EmittedRelations {
  import opened Text
  import opened CaseFolding
  import opened SpanSearch
  import opened SpanChoice
  import opened EntityRefs
  import opened Collecting
  import opened EntityNames
  import opened Grounding
  import opened GroundedChunk
  import E = EvidenceSpan

  // ---- where a relation is stated

  /** The largest stretch around `at` without a sentence marker before its last character. */
  ghost predicate IsSentence(text: string, at: nat, lo: nat, hi: nat) {
    && lo <= at < hi && E.WithinOneSentence(text, lo, hi)
    && forall a, b :: a <= at < b && E.WithinOneSentence(text, a, b) ==> lo <= a && b <= hi
  }

  /** The place of the quotation or, when the text does not have it, the sentence of the earlier mention. */
  ghost predicate IsEvidence(cs: Casing, text: string, quotation: string, s: Entity, t: Entity, lo: nat, hi: nat) {
    if HasMention(cs, text, Strip(quotation)) then IsChosen(cs, text, quotation, Found(lo, hi))
    else IsSentence(text, if s.start < t.start then s.start else t.start, lo, hi)
  }

  // ---- what one raw relation leads to

  ghost predicate Ends(cs: Casing, entities: seq<Entity>, raw: RawRelation, s: Entity, t: Entity) {
    && raw.RawRelation? && s.key != t.key
    && StandsFor(entities, RefKey(cs, raw.source), s) && StandsFor(entities, RefKey(cs, raw.target), t)
  }

  /** `r` is what `raw` says about `s` and `t`, stated at `text[lo..hi]`. */
  ghost predicate States(cs: Casing, text: string, minConfidence: real, entities: seq<Entity>, raw: RawRelation,
                         r: Relation, s: Entity, t: Entity, lo: nat, hi: nat)
  {
    && Ends(cs, entities, raw, s, t)
    && raw.relationType.Some? && raw.confidence.Some? && raw.confidence.value >= minConfidence
    && InBounds(text, lo, hi) && IsEvidence(cs, text, raw.evidence, s, t, lo, hi)
    && E.AnchoredIn(cs, text, lo, hi, EndpointOf(s)) && E.AnchoredIn(cs, text, lo, hi, EndpointOf(t))
    && r.source == s.key && r.target == t.key && r.relationType == raw.relationType.value
    && r.confidence == raw.confidence.value && r.evidence == text[lo..hi]
  }

  ghost predicate Leads(cs: Casing, text: string, minConfidence: real, entities: seq<Entity>, raw: RawRelation,
                        r: Relation)
  {
    exists s, t, lo, hi :: States(cs, text, minConfidence, entities, raw, r, s, t, lo, hi)
  }

  /** The confidence of a relation between two resolved entities, of a known type, cannot be read. */
  ghost predicate Raises(cs: Casing, entities: seq<Entity>, raw: RawRelation) {
    raw.RawRelation? && raw.relationType.Some? && raw.confidence.None? && exists s, t :: Ends(cs, entities, raw, s, t)
  }

  /** The same triple. */
  predicate SameTriple(a: Relation, b: Relation) {
    a.source == b.source && a.target == b.target && a.relationType == b.relationType
  }

  // ---- places are unique

  lemma SentenceUnique(text: string, at: nat, lo: nat, hi: nat)
    requires at < |text|
    ensures IsSentence(text, at, lo, hi) <==> (lo, hi) == E.Sentence(text, at)
  {
    hide E.Sentence, E.WithinOneSentence;
    E.SentenceIsLargest(text, at);
  }

  /** The place that is looked at is the evidence. */
  lemma EvidenceUnique(cs: Casing, text: string, quotation: string, s: Entity, t: Entity, lo: nat, hi: nat)
    requires ValidCasing(cs) && KeepsLength(cs, text) && CleanMention(cs, quotation)
    requires s.start < |text| && t.start < |text|
    ensures IsEvidence(cs, text, quotation, s, t, lo, hi) <==>
            (lo, hi) == match Span(cs, text, quotation)
                        case Found(a, b) => (a, b)
                        case _ => E.Sentence(text, if s.start < t.start then s.start else t.start)
  {
    hide Span, E.Sentence, Mentions, IsChosen, IsSentence, Strip, KeepsLength, ValidCasing;
    SpanExact(cs, text, quotation);
    SentenceUnique(text, if s.start < t.start then s.start else t.start, lo, hi);
    ChosenIsSpan(cs, text, quotation, Found(lo, hi));
  }

  /** Evidence is found exactly at the place that is the evidence, when it anchors both ends. */
  lemma EvidenceIs(cs: Casing, text: string, quotation: string, s: Entity, t: Entity, lo: nat, hi: nat)
    requires ValidCasing(cs) && KeepsLength(cs, text) && CleanMention(cs, quotation)
    requires s.start < |text| && t.start < |text|
    requires E.HasRefKeys(cs, EndpointOf(s)) && E.HasRefKeys(cs, EndpointOf(t))
    ensures !E.Evidence(cs, text, quotation, EndpointOf(s), EndpointOf(t)).Raised?
    ensures E.Evidence(cs, text, quotation, EndpointOf(s), EndpointOf(t)) == Found(lo, hi) <==>
            InBounds(text, lo, hi) && IsEvidence(cs, text, quotation, s, t, lo, hi) &&
            E.AnchoredIn(cs, text, lo, hi, EndpointOf(s)) && E.AnchoredIn(cs, text, lo, hi, EndpointOf(t))
  {
    EvidenceUnique(cs, text, quotation, s, t, lo, hi);
    hide Span, E.Sentence, E.Evidence, Mentions, IsEvidence, Strip, KeepsLength, ValidCasing, E.AnchoredIn,
        E.HasRefKeys;
    E.EvidenceExact(cs, text, quotation, EndpointOf(s), EndpointOf(t));
  }

  // ---- one raw relation

  lemma EndsAreDenoted(cs: Casing, entities: seq<Entity>, raw: RawRelation, s: Entity, t: Entity)
    ensures Ends(cs, entities, raw, s, t) <==>
            && raw.RawRelation? && s.key != t.key
            && Denoted(entities, RefKey(cs, raw.source)) == Some(s)
            && Denoted(entities, RefKey(cs, raw.target)) == Some(t)
  {
    hide RefKey, Denoted, StandsFor;
    if raw.RawRelation? {
      DenotedIsLastHolder(entities, RefKey(cs, raw.source), s);
      DenotedIsLastHolder(entities, RefKey(cs, raw.target), t);
    }
  }

  lemma DenotedIn(entities: seq<Entity>, ref: string)
    ensures Denoted(entities, ref).Some? ==> Denoted(entities, ref).value in entities
  {
    if Denoted(entities, ref).Some? {
      DenotedExact(entities, ref, Denoted(entities, ref).value.key);
    }
  }

  /** The verdict on a raw relation says what it leads to and whether it raises. */
  lemma VerdictExact(cs: Casing, text: string, minConfidence: real, raw: RawRelation, entities: seq<Entity>,
                     r: Relation)
    requires ValidCasing(cs) && KeepsLength(cs, text) && (raw.RawRelation? ==> CleanMention(cs, raw.evidence))
    requires AreAnchored(cs, text, entities)
    ensures var v := GroundRelation(cs, text, minConfidence, raw, entities);
      && !v.Crash?
      && (v == Accept(r) <==> Leads(cs, text, minConfidence, entities, raw, r))
      && (v.Reject? <==> Raises(cs, entities, raw))
  {
    if raw.RawRelation? {
      var s, t := Denoted(entities, RefKey(cs, raw.source)), Denoted(entities, RefKey(cs, raw.target));
      DenotedIn(entities, RefKey(cs, raw.source));
      DenotedIn(entities, RefKey(cs, raw.target));
      forall a, b
        ensures Ends(cs, entities, raw, a, b) <==> s == Some(a) && t == Some(b) && a.key != b.key
      {
        EndsAreDenoted(cs, entities, raw, a, b);
      }
      hide RefKey, Denoted, Ends, E.Evidence, IsEvidence, E.AnchoredIn, KeepsLength, ValidCasing, E.HasRefKeys, E.Slice;
      if s.Some? && t.Some? && s.value.key != t.value.key {
        ResolvedExact(cs, text, minConfidence, raw, entities, s.value, t.value, r);
      }
    }
  }

  lemma ResolvedExact(cs: Casing, text: string, minConfidence: real, raw: RawRelation, entities: seq<Entity>,
                      s: Entity, t: Entity, r: Relation)
    requires ValidCasing(cs) && KeepsLength(cs, text) && raw.RawRelation? && CleanMention(cs, raw.evidence)
    requires AreAnchored(cs, text, entities) && s in entities && t in entities && s.key != t.key
    requires forall a, b :: Ends(cs, entities, raw, a, b) <==> (a, b) == (s, t)
    requires Denoted(entities, RefKey(cs, raw.source)) == Some(s) && Denoted(entities, RefKey(cs, raw.target)) ==
             Some(t)
    ensures var v := GroundRelation(cs, text, minConfidence, raw, entities);
      !v.Crash? && (v == Accept(r) <==> Leads(cs, text, minConfidence, entities, raw, r))
  {
    hide RefKey, Denoted, Ends, E.Evidence, IsEvidence, E.AnchoredIn, KeepsLength, ValidCasing, E.HasRefKeys,
         CleanMention;
    var found := E.Evidence(cs, text, raw.evidence, EndpointOf(s), EndpointOf(t));
    EvidenceIs(cs, text, raw.evidence, s, t, 0, 0);
    forall lo, hi
      ensures found == Found(lo, hi) <==>
              InBounds(text, lo, hi) && IsEvidence(cs, text, raw.evidence, s, t, lo, hi) &&
              E.AnchoredIn(cs, text, lo, hi, EndpointOf(s)) && E.AnchoredIn(cs, text, lo, hi, EndpointOf(t))
    {
      EvidenceIs(cs, text, raw.evidence, s, t, lo, hi);
    }
    if GroundRelation(cs, text, minConfidence, raw, entities) == Accept(r) {
      assert States(cs, text, minConfidence, entities, raw, r, s, t, found.lo, found.hi);
    }
  }

  // ---- the whole loop

  ghost function LeadsTo(cs: Casing, text: string, minConfidence: real, entities: seq<Entity>):
    (RawRelation, Relation) -> bool
  {
    (raw, r) => Leads(cs, text, minConfidence, entities, raw, r)
  }

  ghost function RaisedBy(cs: Casing, entities: seq<Entity>): RawRelation -> bool {
    raw => Raises(cs, entities, raw)
  }

  /** Fewer than two entities have no relation. */
  lemma FewEntities(cs: Casing, text: string, minConfidence: real, cap: nat, raws: seq<RawRelation>,
                    entities: seq<Entity>)
    requires |entities| < 2
    ensures Selects(raws, LeadsTo(cs, text, minConfidence, entities), RaisedBy(cs, entities), SameTriple, cap,
                    Grounded([]))
  {
    forall raw, s, t ensures !Ends(cs, entities, raw, s, t) {
      NoEnds(cs, entities, raw, s, t);
    }
    hide Ends, Selects;
    SelectsNothing(raws, LeadsTo(cs, text, minConfidence, entities), RaisedBy(cs, entities), SameTriple, cap);
  }

  lemma NoEnds(cs: Casing, entities: seq<Entity>, raw: RawRelation, s: Entity, t: Entity)
    requires |entities| < 2
    ensures !Ends(cs, entities, raw, s, t)
  {
    EndsAreDenoted(cs, entities, raw, s, t);
    if raw.RawRelation? {
      DenotedIn(entities, RefKey(cs, raw.source));
      DenotedIn(entities, RefKey(cs, raw.target));
    }
  }

  /**
    The relations that leave a chunk are those that the raw relations state, in their order, of
    equal triples the first, up to the cap; none is left out. Nothing else is raised than an
    unreadable confidence of a relation that would otherwise count.
   */
  lemma RelationsExact(cs: Casing, text: string, minConfidence: real, cap: nat, raws: seq<RawRelation>,
                       entities: seq<Entity>)
    requires ValidCasing(cs) && KeepsLength(cs, text) && CleanRelations(cs, raws) && AreAnchored(cs, text, entities)
    ensures Selects(raws, LeadsTo(cs, text, minConfidence, entities), RaisedBy(cs, entities), SameTriple, cap,
                    Relations(cs, text, minConfidence, cap, raws, entities))
  {
    if |entities| < 2 {
      FewEntities(cs, text, minConfidence, cap, raws, entities);
    } else {
      VerdictsJudge(cs, text, minConfidence, raws, entities);
      hide *;
      RelationsOf(cs, text, minConfidence, cap, raws, entities);
      SameIsSame();
      CollectSelects(RelationVerdicts(cs, text, minConfidence, raws, entities), raws,
                     LeadsTo(cs, text, minConfidence, entities), RaisedBy(cs, entities), SameRelation, SameTriple, cap);
    }
  }

  lemma RelationsOf(cs: Casing, text: string, minConfidence: real, cap: nat, raws: seq<RawRelation>,
                    entities: seq<Entity>)
    requires |entities| >= 2
    ensures Relations(cs, text, minConfidence, cap, raws, entities) ==
            Collect(RelationVerdicts(cs, text, minConfidence, raws, entities), SameRelation, cap, [])
  {}

  lemma SameIsSame()
    ensures forall a, b :: SameRelation(a, b) <==> SameTriple(a, b)
  {}

  lemma VerdictsJudge(cs: Casing, text: string, minConfidence: real, raws: seq<RawRelation>, entities: seq<Entity>)
    requires ValidCasing(cs) && KeepsLength(cs, text) && CleanRelations(cs, raws) && AreAnchored(cs, text, entities)
    ensures Judges(RelationVerdicts(cs, text, minConfidence, raws, entities), raws,
                   LeadsTo(cs, text, minConfidence, entities), RaisedBy(cs, entities))
  {
    var verdicts := RelationVerdicts(cs, text, minConfidence, raws, entities);
    hide GroundRelation, Leads, Raises, ValidCasing, KeepsLength, AreAnchored;
    forall k, r | 0 <= k < |raws|
      ensures verdicts[k] == Accept(r) <==> Leads(cs, text, minConfidence, entities, raws[k], r)
    {
      VerdictExact(cs, text, minConfidence, raws[k], entities, r);
    }
    forall k | 0 <= k < |raws|
      ensures !verdicts[k].Crash? && (verdicts[k].Reject? <==> Raises(cs, entities, raws[k]))
    {
      var any: Relation :| true;
      VerdictExact(cs, text, minConfidence, raws[k], entities, any);
    }
  }
}

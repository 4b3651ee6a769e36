/**
  Which entities leave a chunk (`_ground_entities` and `_ground_aliases` of llm_extraction.py),
  said of the raw entities and the text alone: where they are mentioned, under which key, and
  by which names they can be referred to.
 */
module EmittedEntities {
  import opened Text
  import opened CaseFolding
  import opened SpanSearch
  import opened SpanChoice
  import opened EntityRefs
  import opened Collecting
  import opened EntityNames
  import opened Grounding
  import opened GroundedChunk
  import E = EvidenceSpan

  // ---- aliases

  /** A proposed alias is kept in its checked form if the text mentions it. */
  ghost predicate AliasLeads(cs: Casing, text: string, safe: string -> Option<string>, raw: string, alias: string) {
    HasMention(cs, text, TextValue(raw)) && safe(TextValue(raw)) == Some(alias)
  }

  ghost function AliasLeadsTo(cs: Casing, text: string, safe: string -> Option<string>): (string, string) -> bool {
    (raw, alias) => AliasLeads(cs, text, safe, raw, alias)
  }

  ghost function NeverRaised(): string -> bool {
    raw => false
  }

  /** The same but for case. */
  ghost function LikeInCase(cs: Casing): (string, string) -> bool {
    (a, b) => Lower(cs, a) == Lower(cs, b)
  }

  lemma AliasVerdictExact(cs: Casing, text: string, safe: string -> Option<string>, raw: string, alias: string)
    requires ValidCasing(cs) && KeepsLength(cs, text) && KeepsLength(cs, TextValue(raw))
    ensures var v := AliasVerdict(cs, text, safe, raw);
      !v.Crash? && !v.Reject? && (v == Accept(alias) <==> AliasLeads(cs, text, safe, raw, alias))
  {
    hide Span, Mentions, Strip, TextValue, ValidCasing, KeepsLength;
    TextValueIsClean(raw);
    SpanExact(cs, text, TextValue(raw));
    SpanMeetsPromise(cs, text, TextValue(raw));
    NoEmptyMention(cs, text);
  }

  lemma NoEmptyMention(cs: Casing, text: string)
    ensures !HasMention(cs, text, "")
  {}

  /**
    The aliases kept are the proposed ones that the text mentions and the check admits, in
    their order, of those that differ only in case the first, up to 32; none is left out.
   */
  lemma AliasesExact(cs: Casing, text: string, safe: string -> Option<string>, raws: Field<string>)
    requires ValidCasing(cs) && KeepsLength(cs, text) && CleanAliases(cs, raws) && raws.Items?
    ensures Selects(raws.items, AliasLeadsTo(cs, text, safe), NeverRaised(), LikeInCase(cs), 32,
                    GroundedAliases(cs, text, safe, raws))
  {
    var verdicts := AliasVerdicts(cs, text, safe, raws.items);
    hide AliasVerdict, AliasLeads, ValidCasing, KeepsLength, TextValue, Selects, Lower;
    forall k, alias | 0 <= k < |raws.items|
      ensures verdicts[k] == Accept(alias) <==> AliasLeads(cs, text, safe, raws.items[k], alias)
    {
      AliasVerdictExact(cs, text, safe, raws.items[k], alias);
    }
    forall k | 0 <= k < |raws.items| ensures !verdicts[k].Crash? && !verdicts[k].Reject? {
      AliasVerdictExact(cs, text, safe, raws.items[k], "");
    }
    CollectSelects(verdicts, raws.items, AliasLeadsTo(cs, text, safe), NeverRaised(), SameLower(cs), LikeInCase(cs),
                   32);
  }

  // ---- names

  ghost predicate IsKeyOf(cs: Casing, names: seq<string>, ref: string) {
    ref != "" && exists i :: 0 <= i < |names| && RefKey(cs, names[i]) == ref
  }

  lemma {:induction false} KeysExact(cs: Casing, names: seq<string>)
    ensures forall ref :: ref in NonEmptyKeys(cs, names) <==> IsKeyOf(cs, names, ref)
  {
    hide RefKey;
    if names != [] {
      KeysExact(cs, names[1..]);
      forall ref ensures ref in NonEmptyKeys(cs, names) <==> IsKeyOf(cs, names, ref) {
        KeyCons(cs, names, ref);
      }
    }
  }

  lemma KeyCons(cs: Casing, names: seq<string>, ref: string)
    requires names != []
    ensures IsKeyOf(cs, names, ref) <==>
            (ref != "" && RefKey(cs, names[0]) == ref) || IsKeyOf(cs, names[1..], ref)
  {
    hide RefKey;
    assert forall i :: 0 < i < |names| ==> names[i] == names[1..][i - 1];
    if IsKeyOf(cs, names[1..], ref) {
      var i :| 0 <= i < |names[1..]| && RefKey(cs, names[1..][i]) == ref;
      assert names[i + 1] == names[1..][i];
    }
  }

  /**
    The canonical name is the proposed one if that is named in the text, by the mention or a
    kept alias with the same key, and the mention otherwise.
   */
  ghost predicate IsCanonical(cs: Casing, mention: string, proposed: string, kept: seq<string>, canonical: string) {
    if IsKeyOf(cs, [mention] + kept, RefKey(cs, proposed)) then canonical == proposed else canonical == mention
  }

  lemma CanonicalExact(cs: Casing, mention: string, proposed: string, kept: seq<string>)
    ensures IsCanonical(cs, mention, proposed, kept, CanonicalName(cs, mention, proposed, kept))
  {
    hide RefKey;
    KeyCons(cs, [mention] + kept, RefKey(cs, proposed));
    assert ([mention] + kept)[1..] == kept;
  }

  /** By which names the entity goes: exactly by these three, otherwise by the aliases; and how they are listed. */
  ghost predicate GoesBy(cs: Casing, mention: string, canonical: string, n: Normalized, kept: seq<string>, e: Entity) {
    && e.key == Key(Lower(cs, n.name), n.kind)
    && (forall ref :: ref in e.exact <==> IsKeyOf(cs, [mention, n.name, canonical], ref))
    && (forall ref :: ref in e.alias <==> IsKeyOf(cs, n.aliases + kept, ref) && ref !in e.exact)
    && (forall ref :: ref in e.refs <==> ref in e.exact || ref in e.alias)
    && e.refs == NonEmptyKeys(cs, [mention, n.name, canonical]) + NonEmptyKeys(cs, n.aliases + kept)
  }

  /** The names of an entity mentioned as `mention`, from those proposed. */
  ghost predicate NamedFrom(cs: Casing, text: string, mention: string, raw: RawNames, e: Entity) {
    exists kept, canonical, n :: NamedBy(cs, text, mention, raw, e, kept, canonical, n)
  }

  ghost predicate NamedBy(cs: Casing, text: string, mention: string, raw: RawNames, e: Entity, kept: seq<string>,
                          canonical: string, n: Normalized)
  {
    && GroundedAliases(cs, text, raw.safe, raw.aliases) == Grounded(kept)
    && IsCanonical(cs, mention, TextValue(if raw.canonical == "" then mention else raw.canonical), kept, canonical)
    && raw.normalize(if canonical == "" then mention else canonical, kept) == Some(n)
    && GoesBy(cs, mention, canonical, n, kept, e)
  }

  /** The names are settled: they are those of the entity that the naming makes, or there are none. */
  lemma NamesExact(cs: Casing, text: string, mention: string, raw: RawNames, e: Entity)
    requires GroundedAliases(cs, text, raw.safe, raw.aliases).Grounded?
    ensures var naming := NameEntity(cs, text, mention, raw);
      && !naming.NamingCrashed?
      && (NamedFrom(cs, text, mention, raw, e) <==>
            naming.Named? && e == EntityOf(cs, naming.names, e.start, e.end))
  {
    hide GroundedAliases, TextValue, RefKey, CanonicalName, NonEmptyKeys, IsCanonical, GoesBy, EntityOf;
    var kept := GroundedAliases(cs, text, raw.safe, raw.aliases).items;
    var proposed := TextValue(if raw.canonical == "" then mention else raw.canonical);
    var canonical := CanonicalName(cs, mention, proposed, kept);
    CanonicalExact(cs, mention, proposed, kept);
    forall other | IsCanonical(cs, mention, proposed, kept, other) ensures other == canonical {
      CanonicalUnique(cs, mention, proposed, kept, canonical, other);
    }
    var result := raw.normalize(if canonical == "" then mention else canonical, kept);
    if result.Some? {
      var n := result.value;
      var names := Label(Key(Lower(cs, n.name), n.kind), [mention, n.name, canonical], n.aliases + kept);
      GoesByIs(cs, mention, canonical, n, kept, e);
      if e == EntityOf(cs, names, e.start, e.end) {
        assert NamedBy(cs, text, mention, raw, e, kept, canonical, n);
      }
    }
  }

  lemma CanonicalUnique(cs: Casing, mention: string, proposed: string, kept: seq<string>, a: string, b: string)
    requires IsCanonical(cs, mention, proposed, kept, a) && IsCanonical(cs, mention, proposed, kept, b)
    ensures a == b
  {}

  lemma GoesByIs(cs: Casing, mention: string, canonical: string, n: Normalized, kept: seq<string>, e: Entity)
    ensures GoesBy(cs, mention, canonical, n, kept, e) <==>
            e == EntityOf(cs, Label(Key(Lower(cs, n.name), n.kind), [mention, n.name, canonical], n.aliases + kept),
                          e.start, e.end)
  {
    hide RefKey, NonEmptyKeys, IsKeyOf, Lower;
    KeysExact(cs, [mention, n.name, canonical]);
    KeysExact(cs, n.aliases + kept);
    var names := Label(Key(Lower(cs, n.name), n.kind), [mention, n.name, canonical], n.aliases + kept);
    var made := EntityOf(cs, names, e.start, e.end);
    if GoesBy(cs, mention, canonical, n, kept, e) {
      assert e.exact == made.exact;
      assert e.alias == made.alias;
    }
  }

  // ---- one raw entity

  /** `e` is what the raw entity names at the place it mentions. */
  ghost predicate Leads(cs: Casing, text: string, minConfidence: real, raw: RawEntity, e: Entity) {
    && raw.RawEntity? && InBounds(text, e.start, e.end)
    && IsChosen(cs, text, raw.mention, Found(e.start, e.end))
    && raw.confidence.Some? && raw.confidence.value >= minConfidence
    && NamedFrom(cs, text, text[e.start..e.end], raw.names, e)
  }

  /** The confidence of an entity that the text mentions cannot be read. */
  ghost predicate Raises(cs: Casing, text: string, raw: RawEntity) {
    raw.RawEntity? && raw.confidence.None? && HasMention(cs, text, Strip(raw.mention))
  }

  lemma VerdictExact(cs: Casing, text: string, minConfidence: real, raw: RawEntity, e: Entity)
    requires ValidCasing(cs) && KeepsLength(cs, text) && CleanEntity(cs, raw)
    ensures var v := GroundEntity(cs, text, minConfidence, raw);
      && !v.Crash?
      && (v == Accept(e) <==> Leads(cs, text, minConfidence, raw, e))
      && (v.Reject? <==> Raises(cs, text, raw))
  {
    hide Span, Mentions, Strip, NameEntity, EntityOf, KeepsLength, ValidCasing, CleanAliases, IsChosen, NamedFrom;
    if raw.RawEntity? {
      SpanExact(cs, text, raw.mention);
      E.QuotationInBounds(cs, text, raw.mention);
      ChosenIsSpan(cs, text, raw.mention, Found(e.start, e.end));
      var span := Span(cs, text, raw.mention);
      if span.Found? {
        AliasesAreGrounded(cs, text, raw.names.safe, raw.names.aliases);
        assert E.Slice(text, span.lo, span.hi) == text[span.lo..span.hi];
        NamesExact(cs, text, text[span.lo..span.hi], raw.names, e);
        var naming := NameEntity(cs, text, text[span.lo..span.hi], raw.names);
        if naming.Named? {
          EntityOfFields(cs, naming.names, span.lo, span.hi);
        }
      }
    }
  }

  // ---- the whole loop

  ghost function LeadsTo(cs: Casing, text: string, minConfidence: real): (RawEntity, Entity) -> bool {
    (raw, e) => Leads(cs, text, minConfidence, raw, e)
  }

  ghost function RaisedBy(cs: Casing, text: string): RawEntity -> bool {
    raw => Raises(cs, text, raw)
  }

  /** The same key at the same place. */
  predicate SameKeyAndPlace(a: Entity, b: Entity) {
    a.key == b.key && a.start == b.start && a.end == b.end
  }

  /**
    The entities that leave a chunk are those that the raw entities name, in their order, of
    those with the same key and place the first, up to the cap; none is left out. Nothing else
    is raised than an unreadable confidence of an entity that the text mentions.
   */
  lemma EntitiesExact(cs: Casing, text: string, minConfidence: real, cap: nat, raws: seq<RawEntity>)
    requires ValidCasing(cs) && KeepsLength(cs, text) && CleanEntities(cs, raws)
    ensures Selects(raws, LeadsTo(cs, text, minConfidence), RaisedBy(cs, text), SameKeyAndPlace, cap,
                    Entities(cs, text, minConfidence, cap, raws))
  {
    VerdictsJudge(cs, text, minConfidence, raws);
    SameIsSame();
    hide *;
    EntitiesOf(cs, text, minConfidence, cap, raws);
    CollectSelects(EntityVerdicts(cs, text, minConfidence, raws), raws, LeadsTo(cs, text, minConfidence),
                   RaisedBy(cs, text), SameEntity, SameKeyAndPlace, cap);
  }

  lemma EntitiesOf(cs: Casing, text: string, minConfidence: real, cap: nat, raws: seq<RawEntity>)
    ensures Entities(cs, text, minConfidence, cap, raws) ==
            Collect(EntityVerdicts(cs, text, minConfidence, raws), SameEntity, cap, [])
  {}

  lemma SameIsSame()
    ensures forall a, b :: SameEntity(a, b) <==> SameKeyAndPlace(a, b)
  {}

  lemma VerdictsJudge(cs: Casing, text: string, minConfidence: real, raws: seq<RawEntity>)
    requires ValidCasing(cs) && KeepsLength(cs, text) && CleanEntities(cs, raws)
    ensures Judges(EntityVerdicts(cs, text, minConfidence, raws), raws, LeadsTo(cs, text, minConfidence),
                   RaisedBy(cs, text))
  {
    var verdicts := EntityVerdicts(cs, text, minConfidence, raws);
    hide GroundEntity, Leads, Raises, ValidCasing, KeepsLength, CleanEntity;
    forall k, e | 0 <= k < |raws|
      ensures verdicts[k] == Accept(e) <==> Leads(cs, text, minConfidence, raws[k], e)
    {
      VerdictExact(cs, text, minConfidence, raws[k], e);
    }
    forall k | 0 <= k < |raws| ensures !verdicts[k].Crash? && (verdicts[k].Reject? <==> Raises(cs, text, raws[k])) {
      var any: Entity :| true;
      VerdictExact(cs, text, minConfidence, raws[k], any);
    }
  }
}

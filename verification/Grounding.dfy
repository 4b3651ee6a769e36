/**
  Turning one parsed LLM payload into entities and relations anchored in the chunk
  (`_ground_chunk`, `_ground_entities`, `_ground_relations` of llm_extraction.py).

  Field extraction from the JSON value, the confidence parser and the relation-type cleaner are
  inputs: a raw item carries what they return. Hashes are left out; an item keeps the text that
  would be hashed.
 */
module Grounding {
  import opened Text
  import opened CaseFolding
  import opened SpanSearch
  import opened EntityRefs
  import opened Collecting
  import opened EntityNames
  import E = EvidenceSpan

  datatype RawEntity =
    | NoEntityMapping
    | RawEntity(mention: string, confidence: Option<real>, names: RawNames)

  datatype RawRelation =
    | NoRelationMapping
    | RawRelation(source: string, target: string, relationType: Option<string>, confidence: Option<real>,
                  evidence: string)

  datatype Relation = Relation(source: Key, target: Key, relationType: string, confidence: real, evidence: string)

  // ---- entities

  function NonEmptyKeys(cs: Casing, names: seq<string>): seq<string> {
    if names == [] then []
    else (if RefKey(cs, names[0]) == "" then [] else [RefKey(cs, names[0])]) + NonEmptyKeys(cs, names[1..])
  }

  function EntityOf(cs: Casing, named: Label, lo: nat, hi: nat): Entity {
    var exactKeys, aliasKeys := NonEmptyKeys(cs, named.exactNames), NonEmptyKeys(cs, named.aliasNames);
    var exact := set ref | ref in exactKeys;
    Entity(named.key, lo, hi, exact, (set ref | ref in aliasKeys) - exact, exactKeys + aliasKeys)
  }

  function GroundEntity(cs: Casing, text: string, minConfidence: real, raw: RawEntity): Verdict<Entity> {
    match raw
    case NoEntityMapping => Skip
    case RawEntity(mention, confidence, names) =>
      match Span(cs, text, mention)
      case Missing => Skip
      case Raised => Crash
      case Found(lo, hi) =>
        if confidence.None? then Reject
        else if confidence.value < minConfidence then Skip
        else
          match NameEntity(cs, text, E.Slice(text, lo, hi), names)
          case Unnamed => Skip
          case NamingCrashed => Crash
          case Named(l) => Accept(EntityOf(cs, l, lo, hi))
  }

  predicate SameEntity(a: Entity, b: Entity) {
    a.key == b.key && a.start == b.start && a.end == b.end
  }

  // ---- relations

  function EndpointOf(e: Entity): E.Endpoint {
    E.Endpoint(e.start, e.end, e.refs)
  }

  function GroundRelation(cs: Casing, text: string, minConfidence: real, raw: RawRelation, entities: seq<Entity>):
    Verdict<Relation>
  {
    match raw
    case NoRelationMapping => Skip
    case RawRelation(source, target, relationType, confidence, evidence) =>
      var s, t := Denoted(entities, RefKey(cs, source)), Denoted(entities, RefKey(cs, target));
      if s.None? || t.None? then Skip
      else if s.value.key == t.value.key then Skip
      else if relationType.None? then Skip
      else if confidence.None? then Reject
      else if confidence.value < minConfidence then Skip
      else
        match E.Evidence(cs, text, evidence, EndpointOf(s.value), EndpointOf(t.value))
        case Missing => Skip
        case Raised => Crash
        case Found(lo, hi) =>
          Accept(Relation(s.value.key, t.value.key, relationType.value, confidence.value, E.Slice(text, lo, hi)))
  }

  predicate SameRelation(a: Relation, b: Relation) {
    a.source == b.source && a.target == b.target && a.relationType == b.relationType
  }

  // ---- the loops as functions

  function EntityVerdicts(cs: Casing, text: string, minConfidence: real,
                          raws: seq<RawEntity>): (r: seq<Verdict<Entity>>)
    ensures |r| == |raws|
    ensures forall i :: 0 <= i < |r| ==> r[i] == GroundEntity(cs, text, minConfidence, raws[i])
  {
    if raws == [] then []
    else [GroundEntity(cs, text, minConfidence, raws[0])] + EntityVerdicts(cs, text, minConfidence, raws[1..])
  }

  function Entities(cs: Casing, text: string, minConfidence: real, cap: nat, raws: seq<RawEntity>): Outcome<Entity> {
    Collect(EntityVerdicts(cs, text, minConfidence, raws), SameEntity, cap, [])
  }

  function RelationVerdicts(cs: Casing, text: string, minConfidence: real, raws: seq<RawRelation>,
                            entities: seq<Entity>):
    (r: seq<Verdict<Relation>>)
    ensures |r| == |raws|
    ensures forall i :: 0 <= i < |r| ==> r[i] == GroundRelation(cs, text, minConfidence, raws[i], entities)
  {
    if raws == [] then []
    else
      [GroundRelation(cs, text, minConfidence, raws[0], entities)] +
      RelationVerdicts(cs, text, minConfidence, raws[1..], entities)
  }

  function Relations(cs: Casing, text: string, minConfidence: real, cap: nat, raws: seq<RawRelation>,
                     entities: seq<Entity>): Outcome<Relation>
  {
    if |entities| < 2 then Grounded([])
    else Collect(RelationVerdicts(cs, text, minConfidence, raws, entities), SameRelation, cap, [])
  }

  // ---- the loops, as the source runs them

  method GroundEntities(cs: Casing, text: string, minConfidence: real, cap: nat, rawEntities: seq<RawEntity>)
    returns (r: Outcome<Entity>)
    ensures r == Entities(cs, text, minConfidence, cap, rawEntities)
  {
    hide Span, EntityOf, NameEntity;
    var results: seq<Entity> := [];
    var seen: set<(Key, nat, nat)> := {};
    ghost var verdicts := EntityVerdicts(cs, text, minConfidence, rawEntities);
    for n := 0 to |rawEntities|
      invariant Entities(cs, text, minConfidence, cap, rawEntities) == Collect(verdicts[n..], SameEntity, cap, results)
      invariant seen == set e | e in results :: (e.key, e.start, e.end)
    {
      if |results| >= cap {
        return Grounded(results);
      }
      var raw := rawEntities[n];
      assert verdicts[n..][0] == GroundEntity(cs, text, minConfidence, raw);
      assert verdicts[n..][1..] == verdicts[n + 1..];
      if raw.NoEntityMapping? {
        continue;
      }
      var span := FindSpan(cs, text, raw.mention);
      if span.Missing? {
        continue;
      }
      if span.Raised? {
        return Crashed;
      }
      var mention := E.Slice(text, span.lo, span.hi);
      if raw.confidence.None? {
        return InvalidResponse;
      }
      if raw.confidence.value < minConfidence {
        continue;
      }
      var naming := NameEntityOf(cs, text, mention, raw.names);
      if naming.NamingCrashed? {
        return Crashed;
      }
      if naming.Unnamed? {
        continue;
      }
      var entity := EntityOf(cs, naming.names, span.lo, span.hi);
      EntityOfFields(cs, naming.names, span.lo, span.hi);
      var dedupeKey := (naming.names.key, span.lo, span.hi);
      if dedupeKey in seen {
        continue;
      }
      seen := seen + {dedupeKey};
      results := results + [entity];
    }
    r := Grounded(results);
  }

  lemma EntityOfFields(cs: Casing, named: Label, lo: nat, hi: nat)
    ensures var e := EntityOf(cs, named, lo, hi);
      && e.key == named.key && e.start == lo && e.end == hi && e.exact !! e.alias
      && (forall ref :: ref in e.refs <==> ref in e.exact || ref in e.alias)
  {
    hide NonEmptyKeys;
  }

  method GroundRelations(cs: Casing, text: string, minConfidence: real, cap: nat, rawRelations: seq<RawRelation>,
                         entities: seq<Entity>)
    returns (r: Outcome<Relation>)
    requires forall i :: 0 <= i < |entities| ==> entities[i].exact !! entities[i].alias
    ensures r == Relations(cs, text, minConfidence, cap, rawRelations, entities)
  {
    hide Holders, Agreed, Denoted, RefKey, E.Evidence;
    if |entities| < 2 {
      return Grounded([]);
    }
    var exactByRef, aliasByRef := BuildTables(entities);
    var results: seq<Relation> := [];
    var seen: set<(Key, Key, string)> := {};
    ghost var verdicts := RelationVerdicts(cs, text, minConfidence, rawRelations, entities);
    for n := 0 to |rawRelations|
      invariant Relations(cs, text, minConfidence, cap, rawRelations, entities) ==
                Collect(verdicts[n..], SameRelation, cap, results)
      invariant seen == set e | e in results :: (e.source, e.target, e.relationType)
    {
      if |results| >= cap {
        return Grounded(results);
      }
      var raw := rawRelations[n];
      assert verdicts[n..][0] == GroundRelation(cs, text, minConfidence, raw, entities);
      assert verdicts[n..][1..] == verdicts[n + 1..];
      if raw.NoRelationMapping? {
        continue;
      }
      var source := Resolve(RefKey(cs, raw.source), exactByRef, aliasByRef);
      var target := Resolve(RefKey(cs, raw.target), exactByRef, aliasByRef);
      ResolveIsDenoted(entities, RefKey(cs, raw.source), exactByRef, aliasByRef);
      ResolveIsDenoted(entities, RefKey(cs, raw.target), exactByRef, aliasByRef);
      if source.None? || target.None? {
        continue;
      }
      if source.value.key == target.value.key {
        continue;
      }
      if raw.relationType.None? {
        continue;
      }
      if raw.confidence.None? {
        return InvalidResponse;
      }
      if raw.confidence.value < minConfidence {
        continue;
      }
      var span := E.Evidence(cs, text, raw.evidence, EndpointOf(source.value), EndpointOf(target.value));
      if span.Missing? {
        continue;
      }
      if span.Raised? {
        return Crashed;
      }
      var relation := Relation(source.value.key, target.value.key, raw.relationType.value, raw.confidence.value,
                               E.Slice(text, span.lo, span.hi));
      var dedupeKey := (relation.source, relation.target, relation.relationType);
      if dedupeKey in seen {
        continue;
      }
      seen := seen + {dedupeKey};
      results := results + [relation];
    }
    r := Grounded(results);
  }

  /** The entities' order decides nothing about the relations whose names are settled. */
  lemma {:induction false} VerdictsIgnoreOrder(cs: Casing, text: string, minConfidence: real, raws: seq<RawRelation>,
                                               entities: seq<Entity>, reordered: seq<Entity>)
    requires forall e :: e in entities <==> e in reordered
    requires forall raw :: raw in raws && raw.RawRelation? ==>
               Settled(entities, RefKey(cs, raw.source)) && Settled(entities, RefKey(cs, raw.target))
    ensures RelationVerdicts(cs, text, minConfidence, raws, reordered) ==
            RelationVerdicts(cs, text, minConfidence, raws, entities)
  {
    hide Settled, Denoted, RefKey, E.Evidence;
    if raws != [] {
      var raw := raws[0];
      assert raw in raws;
      if raw.RawRelation? {
        SettledStays(entities, reordered, RefKey(cs, raw.source));
        SettledStays(entities, reordered, RefKey(cs, raw.target));
      }
      VerdictsIgnoreOrder(cs, text, minConfidence, raws[1..], entities, reordered);
    }
  }

  /** When no two grounded entities share a key, their order does not show in the relations. */
  lemma RelationsIgnoreOrder(cs: Casing, text: string, minConfidence: real, cap: nat, raws: seq<RawRelation>,
                             entities: seq<Entity>, reordered: seq<Entity>)
    requires multiset(reordered) == multiset(entities)
    requires forall a, b :: a in entities && b in entities && a != b ==> a.key != b.key
    ensures Relations(cs, text, minConfidence, cap, raws, reordered) ==
            Relations(cs, text, minConfidence, cap, raws, entities)
  {
    SameMembers(entities, reordered);
    assert |multiset(reordered)| == |reordered| && |multiset(entities)| == |entities|;
    forall ref ensures Settled(entities, ref) {
      DistinctKeysSettle(entities, ref);
    }
    VerdictsIgnoreOrder(cs, text, minConfidence, raws, entities, reordered);
  }

  // ---- the whole payload

  datatype RawPayload = RawPayload(entities: Field<RawEntity>, relations: Field<RawRelation>)

  datatype Limits = Limits(minConfidence: real, entityCap: nat, relationCap: nat)

  datatype Chunk = Anchored(entities: seq<Entity>, relations: seq<Relation>) | Unreadable | Failed

  /** `_ground_chunk` */
  function ChunkFrom(cs: Casing, text: string, limits: Limits, raw: RawPayload): Chunk {
    if !raw.entities.Items? || raw.relations.Missing? then Unreadable
    else
      match Entities(cs, text, limits.minConfidence, limits.entityCap, raw.entities.items)
      case InvalidResponse => Unreadable
      case Crashed => Failed
      case Grounded(entities) =>
        if raw.relations.NotArray? then Unreadable
        else
          match Relations(cs, text, limits.minConfidence, limits.relationCap, raw.relations.items, entities)
          case InvalidResponse => Unreadable
          case Crashed => Failed
          case Grounded(relations) => Anchored(entities, relations)
  }

  method GroundChunk(cs: Casing, text: string, limits: Limits, raw: RawPayload) returns (r: Chunk)
    ensures r == ChunkFrom(cs, text, limits, raw)
  {
    hide Entities, Relations;
    if raw.entities.Missing? || raw.relations.Missing? {
      return Unreadable;
    }
    if raw.entities.NotArray? {
      return Unreadable;
    }
    var grounded := GroundEntities(cs, text, limits.minConfidence, limits.entityCap, raw.entities.items);
    if grounded.InvalidResponse? {
      return Unreadable;
    }
    if grounded.Crashed? {
      return Failed;
    }
    if raw.relations.NotArray? {
      return Unreadable;
    }
    NamesAreDisjoint(cs, text, limits.minConfidence, limits.entityCap, raw.entities.items);
    var related := GroundRelations(cs, text, limits.minConfidence, limits.relationCap, raw.relations.items,
                                   grounded.items);
    if related.InvalidResponse? {
      return Unreadable;
    }
    if related.Crashed? {
      return Failed;
    }
    r := Anchored(grounded.items, related.items);
  }

  /** The names of an entity are exact or alias names, not both. */
  lemma NamesAreDisjoint(cs: Casing, text: string, minConfidence: real, cap: nat, raws: seq<RawEntity>)
    ensures var r := Entities(cs, text, minConfidence, cap, raws);
      r.Grounded? ==> forall i :: 0 <= i < |r.items| ==> r.items[i].exact !! r.items[i].alias
  {
    hide GroundEntity;
    var verdicts := EntityVerdicts(cs, text, minConfidence, raws);
    var items, picks, n := CollectExact(verdicts, SameEntity, cap);
    var r := Entities(cs, text, minConfidence, cap, raws);
    if r.Grounded? {
      forall i | 0 <= i < |r.items| ensures r.items[i].exact !! r.items[i].alias {
        AcceptedNames(cs, text, minConfidence, raws[picks[i]]);
      }
    }
  }

  lemma AcceptedNames(cs: Casing, text: string, minConfidence: real, raw: RawEntity)
    ensures var v := GroundEntity(cs, text, minConfidence, raw); v.Accept? ==> v.item.exact !! v.item.alias
  {
    hide Span, EntityOf, NameEntity;
    if raw.RawEntity? {
      match Span(cs, text, raw.mention) {
        case Found(lo, hi) =>
          var naming := NameEntity(cs, text, E.Slice(text, lo, hi), raw.names);
          if naming.Named? {
            EntityOfFields(cs, naming.names, lo, hi);
          }
        case _ =>
      }
    }
  }
}

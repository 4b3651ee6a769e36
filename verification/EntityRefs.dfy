/**
  Resolving the names an LLM uses for relation endpoints (`_store_entity_ref`,
  `_resolve_entity_ref` and the two tables of `_ground_relations`).

  The alias table is filtered against the exact table while that is still being filled.
  The key a name resolves to nevertheless depends only on who holds it, not on the order. The
  entity it resolves to is the last of the holders that decide.
 */
module EntityRefs {
  import opened Text

  /** `EntityMentionCandidate.entity_key` */
  datatype Key = Key(name: string, kind: string)

  /** A grounded entity; `refs` lists `exact_refs | alias_refs` in iteration order. */
  datatype Entity = Entity(key: Key, start: nat, end: nat, exact: set<string>, alias: set<string>, refs: seq<string>)

  /** None is the mark of an ambiguous name. */
  type Table = map<string, Option<Entity>>

  predicate Holds(e: Entity, ref: string, asAlias: bool) {
    if asAlias then ref in e.alias else ref in e.exact
  }

  /** The entities that hold `ref`, in order. */
  function Holders(entities: seq<Entity>, ref: string, asAlias: bool): seq<Entity> {
    if entities == [] then []
    else
      var last := entities[|entities| - 1];
      Holders(entities[..|entities| - 1], ref, asAlias) + (if Holds(last, ref, asAlias) then [last] else [])
  }

  /** The last of `holders` if they all have one key. */
  function Agreed(holders: seq<Entity>): Option<Entity> {
    if holders != [] && forall i :: 0 <= i < |holders| ==> holders[i].key == holders[0].key
    then Some(holders[|holders| - 1])
    else None
  }

  /** Whether the table's entry for `ref` is what the given holders agree on. */
  ghost predicate Records(table: Table, ref: string, holders: seq<Entity>) {
    && (ref in table <==> holders != [])
    && (ref in table ==> table[ref] == Agreed(holders))
  }

  /** `_store_entity_ref` */
  method StoreEntityRef(refs: Table, ref: string, entity: Entity) returns (r: Table)
    ensures r.Keys == refs.Keys + {ref}
    ensures forall other :: other in refs && other != ref ==> r[other] == refs[other]
    ensures forall holders :: Records(refs, ref, holders) ==> Records(r, ref, holders + [entity])
  {
    var existing := if ref in refs then refs[ref] else None;
    if existing.None? && ref in refs {
      r := refs;
    } else if existing.Some? && existing.value.key != entity.key {
      r := refs[ref := None];
    } else {
      r := refs[ref := Some(entity)];
    }
    forall holders | Records(refs, ref, holders) ensures Records(r, ref, holders + [entity]) {
      var more := holders + [entity];
      if holders != [] {
        assert more[0] == holders[0] && more[|more| - 1] == entity;
        if forall i :: 0 <= i < |holders| ==> holders[i].key == holders[0].key {
          assert holders[|holders| - 1].key == holders[0].key;
        } else {
          var i :| 0 <= i < |holders| && holders[i].key != holders[0].key;
          assert more[i] == holders[i];
        }
      }
    }
  }

  /** The inner loops: `entity` becomes a holder of every name in `names`. */
  method StoreAll(refs: Table, names: set<string>, entity: Entity) returns (r: Table)
    ensures r.Keys == refs.Keys + names
    ensures forall ref :: ref in refs && ref !in names ==> r[ref] == refs[ref]
    ensures forall ref, holders :: ref in names && Records(refs, ref, holders) ==> Records(r, ref, holders + [entity])
  {
    r := refs;
    var pending := names;
    while pending != {}
      invariant pending <= names
      invariant r.Keys == refs.Keys + (names - pending)
      invariant forall ref :: ref in refs && ref !in names - pending ==> r[ref] == refs[ref]
      invariant forall ref, holders :: ref in names - pending && Records(refs, ref, holders) ==>
                  Records(r, ref, holders + [entity])
      decreases pending
    {
      var ref :| ref in pending;
      var before := r;
      r := StoreEntityRef(r, ref, entity);
      pending := pending - {ref};
    }
  }

  lemma HoldersStep(entities: seq<Entity>, n: nat, ref: string, asAlias: bool)
    requires n < |entities|
    ensures var before := Holders(entities[..n], ref, asAlias);
      Holders(entities[..n + 1], ref, asAlias) ==
      if Holds(entities[n], ref, asAlias) then before + [entities[n]] else before
  {
    assert entities[..n + 1][..n] == entities[..n];
  }

  /** The tables `_ground_relations` builds before it reads any relation. */
  method BuildTables(entities: seq<Entity>) returns (exactByRef: Table, aliasByRef: Table)
    requires forall i :: 0 <= i < |entities| ==> entities[i].exact !! entities[i].alias
    ensures forall ref :: Records(exactByRef, ref, Holders(entities, ref, false))
    ensures forall ref :: Holders(entities, ref, false) == [] ==> Records(aliasByRef, ref, Holders(entities, ref, true))
  {
    exactByRef, aliasByRef := map[], map[];
    for n := 0 to |entities|
      invariant forall ref :: Records(exactByRef, ref, Holders(entities[..n], ref, false))
      invariant forall ref :: Holders(entities[..n], ref, false) == [] ==>
                  Records(aliasByRef, ref, Holders(entities[..n], ref, true))
    {
      var entity := entities[n];
      var exactBefore, aliasBefore := exactByRef, aliasByRef;
      exactByRef := StoreAll(exactByRef, entity.exact, entity);
      var unmasked := set ref | ref in entity.alias && ref !in exactByRef;
      aliasByRef := StoreAll(aliasByRef, unmasked, entity);
      ghost var more := entities[..n + 1];
      forall ref
        ensures Records(exactByRef, ref, Holders(more, ref, false))
        ensures Holders(more, ref, false) == [] ==> Records(aliasByRef, ref, Holders(more, ref, true))
      {
        HoldersStep(entities, n, ref, false);
        HoldersStep(entities, n, ref, true);
        assert Records(exactBefore, ref, Holders(entities[..n], ref, false));
        if Holders(more, ref, false) == [] {
          assert Records(aliasBefore, ref, Holders(entities[..n], ref, true));
        }
      }
    }
    assert entities[..|entities|] == entities;
  }

  /** `_resolve_entity_ref` */
  function Resolve(ref: string, exactByRef: Table, aliasByRef: Table): Option<Entity> {
    if ref == "" then None
    else if ref in exactByRef then exactByRef[ref]
    else if ref in aliasByRef then aliasByRef[ref]
    else None
  }

  /** What a name stands for, said without tables: exact holders decide if there are any. */
  function Denoted(entities: seq<Entity>, ref: string): Option<Entity> {
    var exact := Holders(entities, ref, false);
    if ref == "" then None
    else if exact != [] then Agreed(exact)
    else Agreed(Holders(entities, ref, true))
  }

  lemma ResolveIsDenoted(entities: seq<Entity>, ref: string, exactByRef: Table, aliasByRef: Table)
    requires Records(exactByRef, ref, Holders(entities, ref, false))
    requires Holders(entities, ref, false) == [] ==> Records(aliasByRef, ref, Holders(entities, ref, true))
    ensures Resolve(ref, exactByRef, aliasByRef) == Denoted(entities, ref)
  {}

  lemma {:induction false} HoldersAre(entities: seq<Entity>, ref: string, asAlias: bool)
    ensures forall e :: e in Holders(entities, ref, asAlias) <==> e in entities && Holds(e, ref, asAlias)
  {
    if entities != [] {
      var n := |entities| - 1;
      HoldersAre(entities[..n], ref, asAlias);
      assert entities == entities[..n] + [entities[n]];
    }
  }

  /** `k` is the one key of all holders, of which there is one at least. */
  ghost predicate SoleKey(entities: seq<Entity>, ref: string, asAlias: bool, k: Key) {
    && (exists e :: e in entities && Holds(e, ref, asAlias))
    && (forall e :: e in entities && Holds(e, ref, asAlias) ==> e.key == k)
  }

  lemma AgreedExact(entities: seq<Entity>, ref: string, asAlias: bool, k: Key)
    ensures var a := Agreed(Holders(entities, ref, asAlias));
      a.Some? && a.value.key == k <==> SoleKey(entities, ref, asAlias, k)
  {
    var holders := Holders(entities, ref, asAlias);
    HoldersAre(entities, ref, asAlias);
    if holders != [] {
      assert holders[0] in holders && holders[|holders| - 1] in holders;
      forall i | 0 <= i < |holders| ensures holders[i] in holders {}
    } else {
      assert forall e :: e in entities && Holds(e, ref, asAlias) ==> e in holders;
    }
  }

  /**
    A name resolves to the key `k` if and only if all its exact holders have that key or,
    when nobody holds it exactly, all its alias holders do. Only the set of entities matters.
   */
  lemma DenotedExact(entities: seq<Entity>, ref: string, k: Key)
    ensures (Denoted(entities, ref).Some? && Denoted(entities, ref).value.key == k) <==>
            (ref != "" &&
             (SoleKey(entities, ref, false, k) ||
              ((forall e :: e in entities ==> ref !in e.exact) && SoleKey(entities, ref, true, k))))
    ensures Denoted(entities, ref).Some? ==> Denoted(entities, ref).value in entities
  {
    HoldersAre(entities, ref, false);
    HoldersAre(entities, ref, true);
    AgreedExact(entities, ref, false, k);
    AgreedExact(entities, ref, true, k);
    var exact := Holders(entities, ref, false);
    if exact != [] {
      assert exact[0] in exact;
      assert exact[|exact| - 1] in exact;
    } else {
      assert forall e :: e in entities && Holds(e, ref, false) ==> e in exact;
      var alias := Holders(entities, ref, true);
      assert alias != [] ==> alias[|alias| - 1] in alias;
    }
  }

  /** Reordering or repeating the entities does not change the key that any name resolves to. */
  lemma OrderIrrelevant(entities: seq<Entity>, reordered: seq<Entity>, ref: string)
    requires forall e :: e in entities <==> e in reordered
    ensures Denoted(entities, ref).Some? <==> Denoted(reordered, ref).Some?
    ensures Denoted(entities, ref).Some? ==> Denoted(entities, ref).value.key == Denoted(reordered, ref).value.key
  {
    if Denoted(entities, ref).Some? {
      SameDenotation(entities, reordered, ref, Denoted(entities, ref).value.key);
    }
    if Denoted(reordered, ref).Some? {
      SameDenotation(reordered, entities, ref, Denoted(reordered, ref).value.key);
    }
  }

  lemma SameDenotation(entities: seq<Entity>, reordered: seq<Entity>, ref: string, k: Key)
    requires forall e :: e in entities <==> e in reordered
    requires Denoted(entities, ref).Some? && Denoted(entities, ref).value.key == k
    ensures Denoted(reordered, ref).Some? && Denoted(reordered, ref).value.key == k
  {
    hide Denoted;
    DenotedExact(entities, ref, k);
    DenotedExact(reordered, ref, k);
  }

  // ---- the entity behind the key

  /** The holders that decide about a name: the exact ones, or the alias ones if there are none. */
  function Deciding(entities: seq<Entity>, ref: string): seq<Entity> {
    if Holders(entities, ref, false) != [] then Holders(entities, ref, false) else Holders(entities, ref, true)
  }

  /** The deciding holders are one entity, or disagree about the key. */
  ghost predicate Settled(entities: seq<Entity>, ref: string) {
    || ref == ""
    || (exists a, b :: a in Deciding(entities, ref) && b in Deciding(entities, ref) && a.key != b.key)
    || (forall a, b :: a in Deciding(entities, ref) && b in Deciding(entities, ref) ==> a == b)
  }

  lemma DecidingAre(entities: seq<Entity>, reordered: seq<Entity>, ref: string)
    requires forall e :: e in entities <==> e in reordered
    ensures forall e :: e in Deciding(entities, ref) <==> e in Deciding(reordered, ref)
  {
    HoldersAre(entities, ref, false);
    HoldersAre(entities, ref, true);
    HoldersAre(reordered, ref, false);
    HoldersAre(reordered, ref, true);
    var a, b := Holders(entities, ref, false), Holders(reordered, ref, false);
    assert a != [] ==> a[0] in a && a[0] in b;
    assert b != [] ==> b[0] in b && b[0] in a;
  }

  lemma DenotedIsLast(entities: seq<Entity>, ref: string)
    ensures var d := Deciding(entities, ref);
      && (Denoted(entities, ref).None? <==> ref == "" || d == [] || exists a, b :: a in d && b in d && a.key != b.key)
      && (Denoted(entities, ref).Some? ==> d != [] && Denoted(entities, ref).value == d[|d| - 1])
  {
    hide Holders;
    var d := Deciding(entities, ref);
    if ref != "" && d != [] {
      assert Denoted(entities, ref) == Agreed(d);
      if i :| 0 <= i < |d| && d[i].key != d[0].key {
        assert d[i] in d && d[0] in d;
      } else {
        forall a, b | a in d && b in d ensures a.key == b.key {
          var i :| 0 <= i < |d| && d[i] == a;
          var j :| 0 <= j < |d| && d[j] == b;
        }
      }
    }
  }

  lemma SettledStays(entities: seq<Entity>, reordered: seq<Entity>, ref: string)
    requires (forall e :: e in entities <==> e in reordered) && Settled(entities, ref)
    ensures Denoted(reordered, ref) == Denoted(entities, ref)
  {
    DecidingAre(entities, reordered, ref);
    DenotedIsLast(entities, ref);
    DenotedIsLast(reordered, ref);
    hide Deciding, Denoted;
    var d, e := Deciding(entities, ref), Deciding(reordered, ref);
    assert d != [] ==> d[|d| - 1] in d;
    assert e != [] ==> e[|e| - 1] in e;
    assert d == [] <==> e == [];
  }

  lemma {:induction false} HoldersLast(entities: seq<Entity>, e: Entity, ref: string, asAlias: bool)
    ensures Holders(entities + [e], ref, asAlias) ==
            Holders(entities, ref, asAlias) + if Holds(e, ref, asAlias) then [e] else []
  {
    assert (entities + [e])[..|entities|] == entities;
  }

  lemma Moved(entities: seq<Entity>, e: Entity) returns (front: seq<Entity>)
    requires e in entities
    ensures multiset(front + [e]) == multiset(entities)
  {
    var i :| 0 <= i < |entities| && entities[i] == e;
    front := entities[..i] + entities[i + 1..];
    assert entities == entities[..i] + [e] + entities[i + 1..];
  }

  lemma SameMembers(entities: seq<Entity>, reordered: seq<Entity>)
    requires multiset(reordered) == multiset(entities)
    ensures forall e :: e in entities <==> e in reordered
  {
    forall e ensures e in entities <==> e in reordered {
      assert e in multiset(entities) <==> e in multiset(reordered);
    }
  }

  /** With `e`, one of the deciding holders, moved to the end. */
  lemma MovedLast(entities: seq<Entity>, ref: string, e: Entity) returns (reordered: seq<Entity>)
    requires e in Deciding(entities, ref)
    ensures multiset(reordered) == multiset(entities)
    ensures Deciding(reordered, ref) != [] && Deciding(reordered, ref)[|Deciding(reordered, ref)| - 1] == e
  {
    HolderHolds(entities, ref, e);
    var front := Moved(entities, e);
    reordered := front + [e];
    SameMembers(entities, reordered);
    HoldersEmpty(entities, reordered, ref);
    HoldersLast(front, e, ref, false);
    HoldersLast(front, e, ref, true);
    hide Holders, Holds;
  }

  lemma HoldersEmpty(entities: seq<Entity>, reordered: seq<Entity>, ref: string)
    requires forall e :: e in entities <==> e in reordered
    ensures Holders(entities, ref, false) == [] <==> Holders(reordered, ref, false) == []
  {
    HoldersAre(entities, ref, false);
    HoldersAre(reordered, ref, false);
    hide Holders, Holds;
    var a, b := Holders(entities, ref, false), Holders(reordered, ref, false);
    assert a != [] ==> a[0] in a && a[0] in b;
    assert b != [] ==> b[0] in b && b[0] in a;
  }

  lemma HolderHolds(entities: seq<Entity>, ref: string, e: Entity)
    requires e in Deciding(entities, ref)
    ensures e in entities && Holds(e, ref, Holders(entities, ref, false) == [])
  {
    HoldersAre(entities, ref, false);
    HoldersAre(entities, ref, true);
  }

  /** The entity a name resolves to is the same in every order if and only if the name is settled. */
  lemma OrderIrrelevantIff(entities: seq<Entity>, ref: string)
    ensures (forall reordered :: multiset(reordered) == multiset(entities) ==>
                                   Denoted(reordered, ref) == Denoted(entities, ref)) <==> Settled(entities, ref)
  {
    if Settled(entities, ref) {
      forall reordered | multiset(reordered) == multiset(entities)
        ensures Denoted(reordered, ref) == Denoted(entities, ref)
      {
        SameMembers(entities, reordered);
        SettledStays(entities, reordered, ref);
      }
    } else {
      NotSettled(entities, ref);
    }
  }

  lemma NotSettled(entities: seq<Entity>, ref: string)
    requires !Settled(entities, ref)
    ensures exists reordered ::
              multiset(reordered) == multiset(entities) && Denoted(reordered, ref) != Denoted(entities, ref)
  {
    hide Deciding, Denoted;
    var d := Deciding(entities, ref);
    var a, b :| a in d && b in d && a != b;
    var e := if a == d[|d| - 1] then b else a;
    var reordered := MovedLast(entities, ref, e);
    DenotedIsLast(entities, ref);
    DenotedIsLast(reordered, ref);
    SameMembers(entities, reordered);
    DecidingAre(entities, reordered, ref);
    assert Denoted(reordered, ref).value == e;
  }

  /** When no two of the entities share a key, every name is settled. */
  lemma DistinctKeysSettle(entities: seq<Entity>, ref: string)
    requires forall a, b :: a in entities && b in entities && a != b ==> a.key != b.key
    ensures Settled(entities, ref)
  {
    HoldersAre(entities, ref, false);
    HoldersAre(entities, ref, true);
  }

  /** `e` is the last entity that holds the name in this way, and all that do have its key. */
  ghost predicate LastHolder(entities: seq<Entity>, ref: string, asAlias: bool, e: Entity) {
    && SoleKey(entities, ref, asAlias, e.key)
    && exists i :: LastAt(entities, ref, asAlias, e, i)
  }

  ghost predicate LastAt(entities: seq<Entity>, ref: string, asAlias: bool, e: Entity, i: int) {
    && 0 <= i < |entities| && entities[i] == e && Holds(e, ref, asAlias)
    && forall j :: i < j < |entities| ==> !Holds(entities[j], ref, asAlias)
  }

  /** `e` is what the name stands for: its last exact holder or, if it has none, its last alias holder. */
  ghost predicate StandsFor(entities: seq<Entity>, ref: string, e: Entity) {
    && ref != ""
    && (|| LastHolder(entities, ref, false, e)
        || ((forall x :: x in entities ==> ref !in x.exact) && LastHolder(entities, ref, true, e)))
  }

  lemma {:induction false} HoldersEnd(entities: seq<Entity>, ref: string, asAlias: bool) returns (i: int)
    requires Holders(entities, ref, asAlias) != []
    ensures var h := Holders(entities, ref, asAlias); LastAt(entities, ref, asAlias, h[|h| - 1], i)
  {
    var n := |entities| - 1;
    i := n;
    if !Holds(entities[n], ref, asAlias) {
      assert Holders(entities, ref, asAlias) == Holders(entities[..n], ref, asAlias);
      i := HoldersEnd(entities[..n], ref, asAlias);
    }
  }

  lemma AgreedIsLast(entities: seq<Entity>, ref: string, asAlias: bool, e: Entity)
    ensures Agreed(Holders(entities, ref, asAlias)) == Some(e) <==> LastHolder(entities, ref, asAlias, e)
  {
    var h := Holders(entities, ref, asAlias);
    AgreedExact(entities, ref, asAlias, e.key);
    if h != [] {
      var j := HoldersEnd(entities, ref, asAlias);
      hide Holders, SoleKey;
      if LastHolder(entities, ref, asAlias, e) {
        var i :| LastAt(entities, ref, asAlias, e, i);
        assert !(i < j) && !(j < i);
      }
    }
  }

  /** What a name resolves to, entity and all. */
  lemma DenotedIsLastHolder(entities: seq<Entity>, ref: string, e: Entity)
    ensures Denoted(entities, ref) == Some(e) <==> StandsFor(entities, ref, e)
  {
    AgreedIsLast(entities, ref, false, e);
    AgreedIsLast(entities, ref, true, e);
    HoldersAre(entities, ref, false);
    hide Holders, LastAt;
    var exact := Holders(entities, ref, false);
    if exact != [] {
      assert exact[0] in exact;
    } else {
      forall x | x in entities ensures ref !in x.exact {
        assert Holds(x, ref, false) ==> x in exact;
      }
    }
  }
}

/**
  What an entity is called (`_ground_aliases`, `_grounded_canonical_name` and the naming part of
  `_ground_entities` in llm_extraction.py): the LLM may propose names, but only such as the chunk
  mentions.

  The label check and the label normaliser are inputs.
 */
module EntityNames {
  import opened Text
  import opened CaseFolding
  import opened SpanSearch
  import opened EntityRefs
  import opened Collecting
  import E = EvidenceSpan

  /** `_text_value` */
  function TextValue(value: string): string {
    Strip(Collapse(Denul(value), false))
  }

  /** `_ref_key` */
  function RefKey(cs: Casing, value: string): string {
    Lower(cs, TextValue(value))
  }

  /** A field of the payload: absent or null, not an array, or an array. */
  datatype Field<T> = Missing | NotArray | Items(items: seq<T>)

  /** What the normaliser returns. */
  datatype Normalized = Normalized(name: string, kind: string, aliases: seq<string>)

  /** The proposed names of an entity, with the label check and the normaliser for its type. */
  datatype RawNames = RawNames(canonical: string, aliases: Field<string>, safe: string -> Option<string>,
                               normalize: (string, seq<string>) -> Option<Normalized>)

  /** The entity key and the names an entity goes by. */
  datatype Label = Label(key: Key, exactNames: seq<string>, aliasNames: seq<string>)

  datatype Naming = Named(names: Label) | Unnamed | NamingCrashed

  const MAX_ALIASES: nat := 32

  // ---- aliases

  function AliasVerdict(cs: Casing, text: string, safe: string -> Option<string>, raw: string): Verdict<string> {
    var alias := TextValue(raw);
    if alias == "" then Skip
    else
      match Span(cs, text, alias)
      case Missing => Skip
      case Raised => Crash
      case Found(_, _) => if safe(alias).None? then Skip else Accept(safe(alias).value)
  }

  function AliasVerdicts(cs: Casing, text: string, safe: string -> Option<string>, raws: seq<string>):
    (r: seq<Verdict<string>>)
    ensures |r| == |raws|
    ensures forall i :: 0 <= i < |r| ==> r[i] == AliasVerdict(cs, text, safe, raws[i])
  {
    seq(|raws|, i requires 0 <= i < |raws| => AliasVerdict(cs, text, safe, raws[i]))
  }

  function SameLower(cs: Casing): (string, string) -> bool {
    (a, b) => Lower(cs, a) == Lower(cs, b)
  }

  function GroundedAliases(cs: Casing, text: string, safe: string -> Option<string>,
                           raws: Field<string>): Outcome<string>
  {
    if !raws.Items? then Grounded([])
    else Collect(AliasVerdicts(cs, text, safe, raws.items), SameLower(cs), MAX_ALIASES, [])
  }

  /** `_ground_aliases` */
  method GroundAliases(cs: Casing, text: string, safe: string -> Option<string>, raws: Field<string>)
    returns (r: Outcome<string>)
    ensures r == GroundedAliases(cs, text, safe, raws)
  {
    hide Span, Lower, TextValue, Remembers, SameLower;
    if !raws.Items? {
      return Grounded([]);
    }
    var aliases: seq<string> := [];
    var seen: set<string> := {};
    assert Remembers(cs, seen, aliases) by { NothingRemembered(cs); }
    ghost var verdicts := AliasVerdicts(cs, text, safe, raws.items);
    for n := 0 to |raws.items|
      invariant |aliases| < MAX_ALIASES
      invariant GroundedAliases(cs, text, safe, raws) == Collect(verdicts[n..], SameLower(cs), MAX_ALIASES, aliases)
      invariant Remembers(cs, seen, aliases)
    {
      assert verdicts[n..][0] == AliasVerdict(cs, text, safe, raws.items[n]);
      assert verdicts[n..][1..] == verdicts[n + 1..];
      var alias := TextValue(raws.items[n]);
      if alias == "" {
        continue;
      }
      var span := FindSpan(cs, text, alias);
      if span.Missing? {
        continue;
      }
      if span.Raised? {
        return Crashed;
      }
      var safeAlias := safe(alias);
      if safeAlias.None? {
        continue;
      }
      var dedupeKey := Lower(cs, safeAlias.value);
      RememberMore(cs, seen, aliases, safeAlias.value);
      if dedupeKey in seen {
        continue;
      }
      aliases := aliases + [safeAlias.value];
      seen := seen + {dedupeKey};
      if |aliases| >= MAX_ALIASES {
        break;
      }
    }
    r := Grounded(aliases);
  }

  /** The lower-case forms of the aliases kept so far. */
  ghost predicate Remembers(cs: Casing, seen: set<string>, aliases: seq<string>) {
    forall key :: key in seen <==> exists i :: 0 <= i < |aliases| && Lower(cs, aliases[i]) == key
  }

  lemma NothingRemembered(cs: Casing)
    ensures Remembers(cs, {}, [])
  {}

  lemma RememberMore(cs: Casing, seen: set<string>, aliases: seq<string>, alias: string)
    requires Remembers(cs, seen, aliases)
    ensures Lower(cs, alias) in seen <==> exists i :: 0 <= i < |aliases| && SameLower(cs)(aliases[i], alias)
    ensures Remembers(cs, seen + {Lower(cs, alias)}, aliases + [alias])
  {
    hide Lower;
    var more := aliases + [alias];
    if Lower(cs, alias) in seen {
      var i :| 0 <= i < |aliases| && Lower(cs, aliases[i]) == Lower(cs, alias);
      assert SameLower(cs)(aliases[i], alias);
    }
    forall key | key in seen + {Lower(cs, alias)} ensures exists i :: 0 <= i < |more| && Lower(cs, more[i]) == key {
      if key in seen {
        var i :| 0 <= i < |aliases| && Lower(cs, aliases[i]) == key;
        assert more[i] == aliases[i];
      } else {
        assert more[|aliases|] == alias;
      }
    }
    forall i | 0 <= i < |more| ensures Lower(cs, more[i]) in seen + {Lower(cs, alias)} {
      assert i < |aliases| ==> more[i] == aliases[i];
    }
  }

  // ---- the canonical name

  /** `_grounded_canonical_name` */
  function CanonicalName(cs: Casing, mention: string, canonical: string, aliases: seq<string>): string {
    var key := RefKey(cs, canonical);
    if key == "" then mention
    else if key == RefKey(cs, mention) then canonical
    else if exists i :: 0 <= i < |aliases| && RefKey(cs, aliases[i]) == key then canonical
    else mention
  }

  function NameEntity(cs: Casing, text: string, mention: string, raw: RawNames): Naming {
    match GroundedAliases(cs, text, raw.safe, raw.aliases)
    case InvalidResponse => NamingCrashed
    case Crashed => NamingCrashed
    case Grounded(aliases) =>
      var proposed := TextValue(if raw.canonical == "" then mention else raw.canonical);
      var canonical := CanonicalName(cs, mention, proposed, aliases);
      match raw.normalize(if canonical == "" then mention else canonical, aliases)
      case None => Unnamed
      case Some(n) =>
        Named(Label(Key(Lower(cs, n.name), n.kind), [mention, n.name, canonical], n.aliases + aliases))
  }

  method NameEntityOf(cs: Casing, text: string, mention: string, raw: RawNames) returns (r: Naming)
    ensures r == NameEntity(cs, text, mention, raw)
  {
    hide GroundedAliases, CanonicalName, TextValue;
    var found := GroundAliases(cs, text, raw.safe, raw.aliases);
    if !found.Grounded? {
      return NamingCrashed;
    }
    var aliases := found.items;
    var proposed := TextValue(if raw.canonical == "" then mention else raw.canonical);
    var canonical := CanonicalName(cs, mention, proposed, aliases);
    var normalized := raw.normalize(if canonical == "" then mention else canonical, aliases);
    if normalized.None? {
      return Unnamed;
    }
    var n := normalized.value;
    r := Named(Label(Key(Lower(cs, n.name), n.kind), [mention, n.name, canonical], n.aliases + aliases));
  }

  // ---- what the names guarantee

  /** Lowering keeps the lengths of the proposed aliases, as the cleaner leaves them. */
  ghost predicate CleanAliases(cs: Casing, raws: Field<string>) {
    raws.Items? ==> forall i :: 0 <= i < |raws.items| ==> KeepsLength(cs, TextValue(raws.items[i]))
  }

  /** The alias is the checked form of a proposed one that the text mentions. */
  ghost predicate AliasGrounded(cs: Casing, text: string, safe: string -> Option<string>, raws: seq<string>,
                                alias: string)
  {
    exists i :: 0 <= i < |raws| && AliasFrom(cs, text, safe, raws[i], alias)
  }

  ghost predicate AliasFrom(cs: Casing, text: string, safe: string -> Option<string>, raw: string, alias: string) {
    && safe(TextValue(raw)) == Some(alias)
    && exists lo, hi :: Mentions(cs, text, lo, hi, TextValue(raw))
  }

  lemma TextValueIsClean(value: string)
    ensures '\0' !in TextValue(value)
    ensures TextValue(value) != "" ==> Strip(TextValue(value)) == TextValue(value)
  {
    hide IsSpace, Strip, Collapse, Denul;
    CollapseNoNul(Denul(value), false);
    var lo, hi := StripSplit(Collapse(Denul(value), false));
    if TextValue(value) != "" {
      StripTrimmed(TextValue(value));
    }
  }

  lemma AliasAccepted(cs: Casing, text: string, safe: string -> Option<string>, raw: string)
    requires ValidCasing(cs) && KeepsLength(cs, text) && KeepsLength(cs, TextValue(raw))
    ensures var v := AliasVerdict(cs, text, safe, raw);
      !v.Crash? && !v.Reject? && (v.Accept? ==> AliasFrom(cs, text, safe, raw, v.item))
  {
    hide Span, Mentions, Strip, TextValue, ValidCasing, KeepsLength;
    TextValueIsClean(raw);
    SpanExact(cs, text, TextValue(raw));
    SpanMeetsPromise(cs, text, TextValue(raw));
  }

  /**
    Every alias an entity keeps is one that its chunk mentions; no two are alike but for case,
    there are at most 32, and looking for them raises nothing.
   */
  lemma AliasesAreGrounded(cs: Casing, text: string, safe: string -> Option<string>, raws: Field<string>)
    requires ValidCasing(cs) && KeepsLength(cs, text) && CleanAliases(cs, raws)
    ensures var r := GroundedAliases(cs, text, safe, raws);
      && r.Grounded? && |r.items| <= MAX_ALIASES
      && (forall i :: 0 <= i < |r.items| ==>
            raws.Items? && AliasGrounded(cs, text, safe, raws.items, r.items[i]))
      && (forall i, j :: 0 <= i < j < |r.items| ==> Lower(cs, r.items[i]) != Lower(cs, r.items[j]))
  {
    hide AliasVerdict, AliasFrom, ValidCasing, KeepsLength, Lower, TextValue;
    if raws.Items? {
      var verdicts := AliasVerdicts(cs, text, safe, raws.items);
      forall i | 0 <= i < |verdicts|
        ensures !verdicts[i].Crash? && !verdicts[i].Reject?
        ensures verdicts[i].Accept? ==> AliasFrom(cs, text, safe, raws.items[i], verdicts[i].item)
      {
        AliasAccepted(cs, text, safe, raws.items[i]);
      }
      var items, picks, n := CollectExact(verdicts, SameLower(cs), MAX_ALIASES);
      forall i | 0 <= i < |items| ensures AliasGrounded(cs, text, safe, raws.items, items[i]) {
        assert AliasFrom(cs, text, safe, raws.items[picks[i]], items[i]);
      }
    }
  }

  /** The canonical name has the key of the mention or of a kept alias, so the chunk mentions it. */
  lemma CanonicalNameIsGrounded(cs: Casing, mention: string, canonical: string, aliases: seq<string>)
    ensures var name := CanonicalName(cs, mention, canonical, aliases);
      && (name == mention || name == canonical)
      && (RefKey(cs, name) == RefKey(cs, mention) ||
          exists i :: 0 <= i < |aliases| && RefKey(cs, aliases[i]) == RefKey(cs, name))
  {}

  lemma NamingNeverCrashes(cs: Casing, text: string, mention: string, raw: RawNames)
    requires ValidCasing(cs) && KeepsLength(cs, text) && CleanAliases(cs, raw.aliases)
    ensures !NameEntity(cs, text, mention, raw).NamingCrashed?
  {
    hide GroundedAliases, CanonicalName, TextValue, ValidCasing, KeepsLength, CleanAliases;
    AliasesAreGrounded(cs, text, raw.safe, raw.aliases);
  }
}

/**
  The context given to the generator (`_context_items_from_search_items`,
  `_citation_source_from_search_item`, `_evaluation_cache_namespace` of the evaluation service)
  and the sources its citations are checked against (`_prompt_citation_sources`).

  The chunks that the database finds are a map from ids to texts.
 */
module ContextPacking {
  import opened Text
  import opened Words
  import Citations

  datatype SearchItem = SearchItem(runItemId: int, chunkId: int, sourceLabel: string,
                                   pageFrom: Option<int>, pageTo: Option<int>)

  datatype ContextItem = ContextItem(chunkId: int, sourceLabel: string, text: string, localId: nat,
                                     pageFrom: Option<int>, pageTo: Option<int>)

  datatype CitationSource = CitationSource(localId: nat, runItemId: int, chunkId: int, sourceLabel: string,
                                           pageFrom: Option<int>, pageTo: Option<int>)

  /** `_clean_context_text` */
  function Clean(text: string): string {
    Join(WordsOf(Denul(text)), ' ')
  }

  /** Cleaning keeps the words, and cleaning again changes nothing. */
  lemma CleanKeepsWords(text: string)
    ensures WordsOf(Clean(text)) == WordsOf(Denul(text))
    ensures Clean(Clean(text)) == Clean(text)
  {
    assert IsSpace(' ');
    assert '\0' !in Denul(text);
    hide WordsOf, IsWord, Join, IsSpace, Denul;
    var ws := WordsOf(Denul(text));
    WordsAreWords(Denul(text));
    Citations.JoinedWords(ws);
    Citations.WordsNoNul(Denul(text));
    Citations.JoinAvoids(ws, ' ', '\0');
    DenulNoNul(Clean(text));
  }

  // ---- packing

  /** The cleaned text of the chunk of an item, "" when there is none. */
  function TextOf(item: SearchItem, chunks: map<int, string>): string {
    if item.chunkId in chunks then Clean(chunks[item.chunkId]) else ""
  }

  /** As much of a text as a budget allows. */
  function Clip(text: string, budget: int): string {
    if budget <= 0 then "" else if |text| <= budget then text else text[..budget]
  }

  function ItemFor(item: SearchItem, text: string, localId: nat): ContextItem {
    ContextItem(item.chunkId, item.sourceLabel, text, localId, item.pageFrom, item.pageTo)
  }

  /** The items numbered from `next`, within the characters that remain. */
  function Pack(items: seq<SearchItem>, chunks: map<int, string>, remaining: int, next: nat): seq<ContextItem> {
    if items == [] || remaining <= 0 then []
    else
      var text := TextOf(items[0], chunks);
      if text == "" then Pack(items[1..], chunks, remaining, next + 1)
      else
        var clipped := Clip(text, remaining);
        [ItemFor(items[0], clipped, next)] + Pack(items[1..], chunks, remaining - |clipped|, next + 1)
  }

  lemma NothingLeft(items: seq<SearchItem>, chunks: map<int, string>, remaining: int, next: nat)
    requires items == [] || remaining <= 0
    ensures Pack(items, chunks, remaining, next) == []
  {}

  lemma PackStep(items: seq<SearchItem>, chunks: map<int, string>, budget: int, next: nat)
    requires items != [] && budget > 0
    ensures var text := TextOf(items[0], chunks);
      Pack(items, chunks, budget, next) ==
        (if text == "" then [] else [ItemFor(items[0], Clip(text, budget), next)])
        + Pack(items[1..], chunks, budget - |Clip(text, budget)|, next + 1)
  {
    hide TextOf;
    var more := Pack(items[1..], chunks, budget, next + 1);
    assert [] + more == more;
  }

  /** `_context_items_from_search_items` */
  method ContextItemsFromSearchItems(items: seq<SearchItem>, chunks: map<int, string>, maxContextChars: int)
    returns (contextItems: seq<ContextItem>)
    ensures contextItems == Pack(items, chunks, maxContextChars, 1)
  {
    hide Clean, Pack;
    var remaining := maxContextChars;
    contextItems := [];
    var index := 0;
    while index < |items|
      invariant index <= |items|
      invariant contextItems + Pack(items[index..], chunks, remaining, index + 1) ==
                Pack(items, chunks, maxContextChars, 1)
    {
      var item := items[index];
      if remaining <= 0 {
        break;
      }
      assert items[index..][0] == item && items[index..][1..] == items[index + 1..];
      PackStep(items[index..], chunks, remaining, index + 1);
      if item.chunkId !in chunks {
        index := index + 1;
        continue;
      }
      var text := Clean(chunks[item.chunkId]);
      if text == "" {
        index := index + 1;
        continue;
      }
      var clipped := if |text| <= remaining then text else text[..remaining];
      ghost var before, more := contextItems, Pack(items[index + 1..], chunks, remaining - |clipped|, index + 2);
      remaining := remaining - |clipped|;
      contextItems := contextItems + [ItemFor(item, clipped, index + 1)];
      assert before + ([ItemFor(item, clipped, index + 1)] + more) == contextItems + more;
      index := index + 1;
    }
    NothingLeft(items[index..], chunks, remaining, index + 1);
  }

  // ---- what is packed

  /** All the text there is, in order. */
  function Texts(items: seq<SearchItem>, chunks: map<int, string>): string {
    if items == [] then "" else TextOf(items[0], chunks) + Texts(items[1..], chunks)
  }

  function PackedText(packed: seq<ContextItem>): string {
    if packed == [] then "" else packed[0].text + PackedText(packed[1..])
  }

  /** The packed text is the first characters of all the text, as many as the budget allows. */
  lemma {:induction false} PackedIsPrefix(items: seq<SearchItem>, chunks: map<int, string>, remaining: int, next: nat)
    ensures PackedText(Pack(items, chunks, remaining, next)) == Clip(Texts(items, chunks), remaining)
  {
    hide TextOf;
    if items != [] && remaining > 0 {
      var text, rest := TextOf(items[0], chunks), items[1..];
      var clipped := Clip(text, remaining);
      var more := Pack(rest, chunks, remaining - |clipped|, next + 1);
      PackedIsPrefix(rest, chunks, remaining - |clipped|, next + 1);
      PackStep(items, chunks, remaining, next);
      ClipConcat(text, Texts(rest, chunks), remaining);
      hide Pack;
      PackedTextCons(ItemFor(items[0], clipped, next), more);
      assert [] + more == more && "" + PackedText(more) == PackedText(more);
      hide PackedText;
      assert text == "" ==> clipped == "";
    }
  }

  lemma PackedTextCons(c: ContextItem, packed: seq<ContextItem>)
    ensures PackedText([c] + packed) == c.text + PackedText(packed)
  {
    assert ([c] + packed)[1..] == packed;
  }

  lemma ClipConcat(a: string, b: string, budget: int)
    ensures Clip(a + b, budget) == Clip(a, budget) + Clip(b, budget - |Clip(a, budget)|)
  {
    if budget > 0 && |a| <= budget < |a + b| {
      assert (a + b)[..budget] == a + b[..budget - |a|];
    } else if 0 < budget < |a| {
      assert (a + b)[..budget] == a[..budget];
    }
  }

  /** The budget left for the item at a position. */
  function BudgetAt(items: seq<SearchItem>, chunks: map<int, string>, budget: int, i: nat): int
    requires i <= |items|
  {
    budget - |Texts(items[..i], chunks)|
  }

  /** The item at a position is packed: it has text, and the texts before it leave room for it. */
  ghost predicate Fits(items: seq<SearchItem>, chunks: map<int, string>, budget: int, i: nat)
    requires i < |items|
  {
    TextOf(items[i], chunks) != "" && BudgetAt(items, chunks, budget, i) > 0
  }

  ghost predicate HasId(packed: seq<ContextItem>, id: int) {
    exists k :: 0 <= k < |packed| && packed[k].localId == id
  }

  /** What packing yields, without its loop: which items, in which order, with how much text. */
  ghost predicate IsPacked(items: seq<SearchItem>, chunks: map<int, string>, budget: int, next: nat,
                           packed: seq<ContextItem>)
  {
    && (forall k, l :: 0 <= k < l < |packed| ==> packed[k].localId < packed[l].localId)
    && (forall k :: 0 <= k < |packed| ==> next <= packed[k].localId < next + |items|)
    && (forall i: nat :: i < |items| ==> (HasId(packed, next + i) <==> Fits(items, chunks, budget, i)))
    && (forall k :: 0 <= k < |packed| ==> PackedRight(items, chunks, budget, next, packed[k]))
  }

  ghost predicate PackedRight(items: seq<SearchItem>, chunks: map<int, string>, budget: int, next: nat, c: ContextItem)
  {
    && next <= c.localId < next + |items|
    && var i := c.localId - next;
       c == ItemFor(items[i], Clip(TextOf(items[i], chunks), BudgetAt(items, chunks, budget, i)), c.localId)
  }

  lemma BudgetAfter(items: seq<SearchItem>, chunks: map<int, string>, budget: int, i: nat)
    requires 0 < i <= |items|
    ensures BudgetAt(items, chunks, budget, i) ==
            BudgetAt(items[1..], chunks, budget - |TextOf(items[0], chunks)|, i - 1)
  {
    assert items[..i][0] == items[0] && items[..i][1..] == items[1..][..i - 1];
  }

  lemma {:induction false} BudgetShrinks(items: seq<SearchItem>, chunks: map<int, string>, budget: int, i: nat)
    requires i <= |items|
    ensures BudgetAt(items, chunks, budget, i) <= budget
  {}

  lemma NothingPacked(items: seq<SearchItem>, chunks: map<int, string>, budget: int, next: nat)
    requires items == [] || budget <= 0
    ensures IsPacked(items, chunks, budget, next, [])
  {
    hide TextOf, Texts;
    forall i: nat | i < |items| ensures !Fits(items, chunks, budget, i) {
      BudgetShrinks(items, chunks, budget, i);
    }
  }

  /** The packed items are the ones that fit, in order, each with the text its budget allows. */
  lemma {:induction false} PackExact(items: seq<SearchItem>, chunks: map<int, string>, budget: int, next: nat)
    ensures IsPacked(items, chunks, budget, next, Pack(items, chunks, budget, next))
  {
    if items == [] || budget <= 0 {
      hide IsPacked;
      NothingPacked(items, chunks, budget, next);
    } else {
      hide TextOf, Texts, Pack, Fits, HasId, PackedRight, IsPacked;
      var rest, left := items[1..], budget - |Clip(TextOf(items[0], chunks), budget)|;
      PackExact(rest, chunks, left, next + 1);
      PackStep(items, chunks, budget, next);
      PackedMore(items, chunks, budget, next, Pack(rest, chunks, left, next + 1));
    }
  }

  lemma PackedMore(items: seq<SearchItem>, chunks: map<int, string>, budget: int, next: nat, more: seq<ContextItem>)
    requires items != [] && budget > 0
    requires IsPacked(items[1..], chunks, budget - |Clip(TextOf(items[0], chunks), budget)|, next + 1, more)
    ensures var text := TextOf(items[0], chunks);
      IsPacked(items, chunks, budget, next,
               (if text == "" then [] else [ItemFor(items[0], Clip(text, budget), next)]) + more)
  {
    PackedOrder(items, chunks, budget, next, more);
    PackedRightMore(items, chunks, budget, next, more);
    PackedWhich(items, chunks, budget, next, more);
    hide TextOf, Texts, Fits, HasId, PackedRight, Clip;
  }

  /** The packed items stay in order when the first item is put before them. */
  lemma PackedOrder(items: seq<SearchItem>, chunks: map<int, string>, budget: int, next: nat, more: seq<ContextItem>)
    requires items != [] && budget > 0
    requires IsPacked(items[1..], chunks, budget - |Clip(TextOf(items[0], chunks), budget)|, next + 1, more)
    ensures var text := TextOf(items[0], chunks);
      var packed := (if text == "" then [] else [ItemFor(items[0], Clip(text, budget), next)]) + more;
      && (forall k, l :: 0 <= k < l < |packed| ==> packed[k].localId < packed[l].localId)
      && (forall k :: 0 <= k < |packed| ==> next <= packed[k].localId < next + |items|)
  {
    hide TextOf, Texts, Fits, HasId, BudgetAt, Clip, PackedRight;
  }

  /** They stay right. */
  lemma PackedRightMore(items: seq<SearchItem>, chunks: map<int, string>, budget: int, next: nat,
                        more: seq<ContextItem>)
    requires items != [] && budget > 0
    requires forall k :: 0 <= k < |more| ==>
               PackedRight(items[1..], chunks, budget - |Clip(TextOf(items[0], chunks), budget)|, next + 1, more[k])
    ensures var text := TextOf(items[0], chunks);
      var packed := (if text == "" then [] else [ItemFor(items[0], Clip(text, budget), next)]) + more;
      forall k :: 0 <= k < |packed| ==> PackedRight(items, chunks, budget, next, packed[k])
  {
    hide TextOf, Clip, BudgetAt;
    FirstBudget(items, chunks, budget);
    assert PackedRight(items, chunks, budget, next, ItemFor(items[0], Clip(TextOf(items[0], chunks), budget), next));
    hide PackedRight;
    forall k | 0 <= k < |more| ensures PackedRight(items, chunks, budget, next, more[k]) {
      RightFurther(items, chunks, budget, next, more[k]);
    }
  }

  lemma FirstBudget(items: seq<SearchItem>, chunks: map<int, string>, budget: int)
    ensures BudgetAt(items, chunks, budget, 0) == budget
  {
    assert items[..0] == [];
  }

  /** A text that is clipped leaves no room, neither by what is kept nor by what there was. */
  lemma ClippedBudget(items: seq<SearchItem>, chunks: map<int, string>, budget: int, i: nat)
    requires items != [] && budget > 0 && 0 < i < |items|
    ensures var text, rest := TextOf(items[0], chunks), items[1..];
      var left := BudgetAt(rest, chunks, budget - |Clip(text, budget)|, i - 1);
      left == BudgetAt(items, chunks, budget, i) || (left <= 0 && BudgetAt(items, chunks, budget, i) <= 0)
  {
    BudgetAfter(items, chunks, budget, i);
    BudgetShrinks(items[1..], chunks, budget - |TextOf(items[0], chunks)|, i - 1);
    BudgetShrinks(items[1..], chunks, budget - |Clip(TextOf(items[0], chunks), budget)|, i - 1);
  }

  lemma RightFurther(items: seq<SearchItem>, chunks: map<int, string>, budget: int, next: nat, c: ContextItem)
    requires items != [] && budget > 0
    requires PackedRight(items[1..], chunks, budget - |Clip(TextOf(items[0], chunks), budget)|, next + 1, c)
    ensures PackedRight(items, chunks, budget, next, c)
  {
    hide TextOf, Texts;
    ClippedBudget(items, chunks, budget, c.localId - next);
    hide BudgetAt;
  }

  lemma PackedWhich(items: seq<SearchItem>, chunks: map<int, string>, budget: int, next: nat, more: seq<ContextItem>)
    requires items != [] && budget > 0
    requires IsPacked(items[1..], chunks, budget - |Clip(TextOf(items[0], chunks), budget)|, next + 1, more)
    ensures var text := TextOf(items[0], chunks);
      var packed := (if text == "" then [] else [ItemFor(items[0], Clip(text, budget), next)]) + more;
      forall i: nat :: i < |items| ==> (HasId(packed, next + i) <==> Fits(items, chunks, budget, i))
  {
    hide TextOf, Texts, PackedRight;
    var text, rest := TextOf(items[0], chunks), items[1..];
    var head := if text == "" then [] else [ItemFor(items[0], Clip(text, budget), next)];
    var packed := head + more;
    var left := budget - |Clip(text, budget)|;
    FirstBudget(items, chunks, budget);
    forall i: nat | i < |items| ensures HasId(packed, next + i) <==> Fits(items, chunks, budget, i) {
      HasIdConcat(head, more, next + i);
      if i > 0 {
        ClippedBudget(items, chunks, budget, i);
        assert HasId(more, next + 1 + (i - 1)) <==> Fits(rest, chunks, left, i - 1);
        assert !HasId(head, next + i);
      } else {
        assert !HasId(more, next);
        assert text != "" ==> head[0].localId == next;
      }
    }
  }

  lemma HasIdConcat(a: seq<ContextItem>, b: seq<ContextItem>, id: int)
    ensures HasId(a + b, id) <==> HasId(a, id) || HasId(b, id)
  {
    if HasId(a, id) {
      var k :| 0 <= k < |a| && a[k].localId == id;
      assert (a + b)[k] == a[k];
    }
    if HasId(b, id) {
      var k :| 0 <= k < |b| && b[k].localId == id;
      assert (a + b)[|a| + k] == b[k];
    }
  }

  /** No item is empty, and only the last one can be clipped. */
  lemma {:induction false} OnlyLastIsClipped(items: seq<SearchItem>, chunks: map<int, string>, budget: int, next: nat)
    ensures var packed := Pack(items, chunks, budget, next);
      forall k :: 0 <= k < |packed| ==>
        && packed[k].text != ""
        && packed[k].chunkId in chunks
        && packed[k].text <= Clean(chunks[packed[k].chunkId])
        && (k < |packed| - 1 ==> packed[k].text == Clean(chunks[packed[k].chunkId]))
  {
    hide Clean;
    if items != [] && budget > 0 {
      var text := TextOf(items[0], chunks);
      var left := budget - |Clip(text, budget)|;
      OnlyLastIsClipped(items[1..], chunks, left, next + 1);
      PackStep(items, chunks, budget, next);
      if text != "" && |text| > budget {
        NothingLeft(items[1..], chunks, 0, next + 1);
      }
    }
  }

  // ---- citations

  /** `_citation_source_from_search_item` */
  function SourceFor(index: nat, item: SearchItem): CitationSource {
    CitationSource(index, item.runItemId, item.chunkId, item.sourceLabel, item.pageFrom, item.pageTo)
  }

  /** A source for every search item, numbered from `next`. */
  function SourcesFor(items: seq<SearchItem>, next: nat): seq<CitationSource> {
    if items == [] then [] else [SourceFor(next, items[0])] + SourcesFor(items[1..], next + 1)
  }

  function IncludedIds(packed: seq<ContextItem>): set<nat> {
    set c | c in packed :: c.localId
  }

  /** The sources with an included id. */
  function Included(sources: seq<CitationSource>, ids: set<nat>): seq<CitationSource> {
    if sources == [] then []
    else (if sources[0].localId in ids then [sources[0]] else []) + Included(sources[1..], ids)
  }

  /** `_prompt_citation_sources` */
  function PromptSources(packed: seq<ContextItem>, sources: seq<CitationSource>): seq<CitationSource> {
    Included(sources, IncludedIds(packed))
  }

  /** A context item and a source of the same search item. */
  ghost predicate Agree(c: ContextItem, s: CitationSource) {
    && c.localId == s.localId && c.chunkId == s.chunkId && c.sourceLabel == s.sourceLabel
    && c.pageFrom == s.pageFrom && c.pageTo == s.pageTo
  }

  ghost predicate AgreeAll(packed: seq<ContextItem>, sources: seq<CitationSource>) {
    |packed| == |sources| && forall k :: 0 <= k < |packed| ==> Agree(packed[k], sources[k])
  }

  /** The ids are those of the packed items, from `next` on. */
  ghost predicate IdsAre(ids: set<nat>, packed: seq<ContextItem>, next: nat) {
    forall id: nat :: next <= id ==> (id in ids <==> HasId(packed, id))
  }

  lemma {:induction false} IncludedAgree(items: seq<SearchItem>, chunks: map<int, string>, budget: int, next: nat,
                                         ids: set<nat>)
    requires IdsAre(ids, Pack(items, chunks, budget, next), next)
    ensures AgreeAll(Pack(items, chunks, budget, next), Included(SourcesFor(items, next), ids))
  {
    hide TextOf;
    if items == [] || budget <= 0 {
      NumberedFrom(items, next);
      NoIds(SourcesFor(items, next), ids);
    } else {
      var text, rest := TextOf(items[0], chunks), items[1..];
      var left := budget - |Clip(text, budget)|;
      var c, more := ItemFor(items[0], Clip(text, budget), next), Pack(rest, chunks, left, next + 1);
      PackStep(items, chunks, budget, next);
      PackExact(rest, chunks, left, next + 1);
      hide Pack, Included, SourcesFor, PackedRight, Fits, AgreeAll, Clip, HasId, IdsAre;
      IdsOfRest(ids, if text == "" then [] else [c], more, next);
      IncludedAgree(rest, chunks, left, next + 1, ids);
      IncludedStep(items, next, ids);
      var included := Included(SourcesFor(rest, next + 1), ids);
      if text == "" {
        assert [] + included == included && [] + more == more;
      } else {
        AgreeMore(c, SourceFor(next, items[0]), more, included);
      }
    }
  }

  lemma IdsOfRest(ids: set<nat>, head: seq<ContextItem>, more: seq<ContextItem>, next: nat)
    requires |head| <= 1 && (head != [] ==> head[0].localId == next)
    requires forall k :: 0 <= k < |more| ==> more[k].localId > next
    requires IdsAre(ids, head + more, next)
    ensures next in ids <==> head != []
    ensures IdsAre(ids, more, next + 1)
  {
    forall id: nat | next <= id
      ensures HasId(head + more, id) <==> (id == next && head != []) || HasId(more, id)
      ensures id == next ==> !HasId(more, id)
    {
      HasIdConcat(head, more, id);
      HeadId(head, more, next, id);
    }
    hide HasId;
    assert next in ids <==> HasId(head + more, next);
  }

  lemma AgreeMore(c: ContextItem, s: CitationSource, packed: seq<ContextItem>, sources: seq<CitationSource>)
    requires Agree(c, s) && AgreeAll(packed, sources)
    ensures AgreeAll([c] + packed, [s] + sources)
  {}

  lemma HeadId(head: seq<ContextItem>, more: seq<ContextItem>, next: nat, id: nat)
    requires |head| <= 1 && (head != [] ==> head[0].localId == next)
    requires forall k :: 0 <= k < |more| ==> more[k].localId > next
    ensures HasId(head, id) <==> head != [] && id == next
    ensures id == next ==> !HasId(more, id)
  {
    if head != [] && id == next {
      assert head[0].localId == id;
    }
  }

  lemma IncludedStep(items: seq<SearchItem>, next: nat, ids: set<nat>)
    requires items != []
    ensures Included(SourcesFor(items, next), ids) ==
            (if next in ids then [SourceFor(next, items[0])] else []) + Included(SourcesFor(items[1..], next + 1), ids)
  {
    var s := SourcesFor(items, next);
    assert s[0] == SourceFor(next, items[0]) && s[1..] == SourcesFor(items[1..], next + 1);
  }

  lemma {:induction false} NumberedFrom(items: seq<SearchItem>, next: nat)
    ensures forall i :: 0 <= i < |SourcesFor(items, next)| ==> SourcesFor(items, next)[i].localId >= next
  {
    if items != [] {
      NumberedFrom(items[1..], next + 1);
    }
  }

  lemma {:induction false} NoIds(sources: seq<CitationSource>, ids: set<nat>)
    requires forall i :: 0 <= i < |sources| ==> sources[i].localId !in ids
    ensures Included(sources, ids) == []
  {
    if sources != [] {
      NoIds(sources[1..], ids);
    }
  }

  /** The prompt's sources are one for each context item, in order, of the same search item. */
  lemma PromptSourcesAgree(items: seq<SearchItem>, chunks: map<int, string>, budget: int)
    ensures var packed := Pack(items, chunks, budget, 1);
      AgreeAll(packed, PromptSources(packed, SourcesFor(items, 1)))
  {
    hide Pack, Included, SourcesFor;
    var packed := Pack(items, chunks, budget, 1);
    forall id: nat | 1 <= id ensures id in IncludedIds(packed) <==> HasId(packed, id) {
      if id in IncludedIds(packed) {
        var c :| c in packed && c.localId == id;
        var k :| 0 <= k < |packed| && packed[k] == c;
      }
    }
    hide HasId;
    IncludedAgree(items, chunks, budget, 1, IncludedIds(packed));
  }

  function AsSources(sources: seq<CitationSource>): (r: seq<Citations.Source>)
    ensures |r| == |sources|
    ensures forall i :: 0 <= i < |r| ==> r[i] == Citations.Source(sources[i].localId, sources[i].runItemId)
  {
    seq(|sources|, i requires 0 <= i < |sources| => Citations.Source(sources[i].localId, sources[i].runItemId))
  }

  /**
    The citation check never refuses these sources themselves, and it accepts exactly the
    numbers of the context items.
   */
  lemma PromptSourcesAreUsable(items: seq<SearchItem>, chunks: map<int, string>, budget: int)
    ensures var packed := Pack(items, chunks, budget, 1);
      var sources := AsSources(PromptSources(packed, SourcesFor(items, 1)));
      && Citations.SourcesUsable(sources)
      && forall id :: Citations.Mapped(sources, id) <==> HasId(packed, id)
  {
    PromptSourcesAgree(items, chunks, budget);
    PackExact(items, chunks, budget, 1);
    hide Pack, PromptSources, SourcesFor, PackedRight, Fits;
    var packed := Pack(items, chunks, budget, 1);
    var sources := AsSources(PromptSources(packed, SourcesFor(items, 1)));
    assert forall k :: 0 <= k < |packed| ==> sources[k].localId == packed[k].localId;
    forall id | Citations.Mapped(sources, id) ensures HasId(packed, id) {
      var k :| 0 <= k < |sources| && sources[k].localId == id;
      assert packed[k].localId == id;
    }
    forall id | HasId(packed, id) ensures Citations.Mapped(sources, id) {
      var k :| 0 <= k < |packed| && packed[k].localId == id;
      assert sources[k].localId == id;
    }
  }

  // ---- cache namespaces

  const NAMESPACE_MAX := 80
  const HASH_LENGTH := 8

  /** Without the dots at the end. */
  function StripDots(s: string): (r: string)
    ensures r <= s && (r != "" ==> r[|r| - 1] != '.')
    ensures forall i :: |r| <= i < |s| ==> s[i] == '.'
  {
    if s != "" && s[|s| - 1] == '.' then StripDots(s[..|s| - 1]) else s
  }

  /** `_evaluation_cache_namespace`, given the first digits of the hash of the namespace. */
  function CacheNamespace(name: string, hash: string, suffix: string): string
    requires |hash| == HASH_LENGTH
  {
    var evalSuffix := ".eval." + suffix;
    if |name| + |evalSuffix| <= NAMESPACE_MAX then name + evalSuffix
    else
      var hashComponent := "." + hash;
      var prefixBudget := NAMESPACE_MAX - |evalSuffix| - |hashComponent|;
      if prefixBudget <= 0 then
        var all := hash + evalSuffix;
        if |all| > NAMESPACE_MAX then all[|all| - NAMESPACE_MAX..] else all
      else
        StripDots(if |name| <= prefixBudget then name else name[..prefixBudget]) + hashComponent + evalSuffix
  }

  ghost predicate EndsWith(s: string, tail: string) {
    |tail| <= |s| && s[|s| - |tail|..] == tail
  }

  /**
    A namespace is never too long, and it ends with the whole evaluation suffix exactly when
    that fits.
   */
  lemma NamespaceFits(name: string, hash: string, suffix: string)
    requires |hash| == HASH_LENGTH
    ensures var r := CacheNamespace(name, hash, suffix);
      && |r| <= NAMESPACE_MAX
      && (EndsWith(r, ".eval." + suffix) <==> |".eval." + suffix| <= NAMESPACE_MAX)
  {
  }

  /** The part of the name that a cut namespace keeps: its first `room` characters but for dots at the end. */
  ghost predicate IsKeptPart(name: string, room: nat, prefix: string) {
    var all := if |name| <= room then name else name[..room];
    && prefix <= all && (prefix != "" ==> prefix[|prefix| - 1] != '.')
    && forall i :: |prefix| <= i < |all| ==> all[i] == '.'
  }

  /**
    The whole namespace, of at most 80 characters: name and suffix if they fit; else as much of
    the name as there is room for, the hash and the suffix; else the end of hash and suffix.
   */
  lemma NamespaceExact(name: string, hash: string, suffix: string)
    requires |hash| == 8
    ensures var r, tail := CacheNamespace(name, hash, suffix), ".eval." + suffix;
      if |name| + |tail| <= 80 then r == name + tail
      else if |tail| < 71 then
        exists prefix :: IsKeptPart(name, 71 - |tail|, prefix) && r == prefix + "." + hash + tail
      else if |tail| <= 72 then r == hash + tail
      else r == (hash + tail)[|hash + tail| - 80..]
  {
    var tail := ".eval." + suffix;
    if |name| + |tail| > 80 && |tail| < 71 {
      var room := 71 - |tail|;
      var prefix := StripDots(if |name| <= room then name else name[..room]);
      assert IsKeptPart(name, room, prefix);
      hide StripDots;
      assert CacheNamespace(name, hash, suffix) == prefix + ("." + hash) + tail;
      assert prefix + ("." + hash) + tail == prefix + "." + hash + tail;
    }
  }

  /** A namespace that does not fit keeps its hash, as long as the suffix leaves room for it. */
  lemma CutKeepsHash(name: string, hash: string, suffix: string)
    requires |hash| == HASH_LENGTH && |".eval." + suffix| + HASH_LENGTH <= NAMESPACE_MAX
    requires |name| + |".eval." + suffix| > NAMESPACE_MAX
    ensures EndsWith(CacheNamespace(name, hash, suffix), hash + (".eval." + suffix))
  {
    var tail := ".eval." + suffix;
    var budget := NAMESPACE_MAX - |tail| - |"." + hash|;
    var r := CacheNamespace(name, hash, suffix);
    if budget > 0 {
      var prefix := StripDots(if |name| <= budget then name else name[..budget]);
      hide StripDots;
      assert r == (prefix + ".") + (hash + tail);
    } else {
      assert r == hash + tail;
    }
  }

  /** Two such namespaces are different when their hashes are. */
  lemma CutNamespacesDiffer(a: string, hashA: string, b: string, hashB: string, suffix: string)
    requires |hashA| == HASH_LENGTH && |hashB| == HASH_LENGTH && hashA != hashB
    requires |".eval." + suffix| + HASH_LENGTH <= NAMESPACE_MAX
    requires |a| + |".eval." + suffix| > NAMESPACE_MAX && |b| + |".eval." + suffix| > NAMESPACE_MAX
    ensures CacheNamespace(a, hashA, suffix) != CacheNamespace(b, hashB, suffix)
  {
    CutKeepsHash(a, hashA, suffix);
    CutKeepsHash(b, hashB, suffix);
    hide CacheNamespace;
    var tail := ".eval." + suffix;
    assert (hashA + tail)[..HASH_LENGTH] == hashA && (hashB + tail)[..HASH_LENGTH] == hashB;
  }
}

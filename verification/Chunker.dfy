/**
  Cutting a document into overlapping token windows (`FixedTokenChunker.chunk`,
  `_document_tokens`, `_token_segments` and `_metadata_boundary_key` of chunking.py).
 */
module Chunker {
  import opened Text
  import opened Words
  import Batches

  datatype Value = Str(s: string) | Int(i: int) | Bool(b: bool) | Opaque(tag: int)

  type Metadata = map<string, Value>

  datatype Page = Page(text: string, number: Option<int>, title: Option<string>, metadata: Metadata)

  datatype Token = Token(value: string, page: Option<int>, title: Option<string>, metadata: Metadata)

  datatype Chunk = Chunk(index: nat, content: string, tokenCount: nat, charCount: nat, pageFrom: Option<int>,
                         pageTo: Option<int>, title: Option<string>)

  datatype Chunking = Chunked(chunks: seq<Chunk>) | NoChunksCreated

  // ---- tokens

  function StripAll(lines: seq<string>): seq<string> {
    if lines == [] then [] else [Strip(lines[0])] + StripAll(lines[1..])
  }

  /** `_normalize_page_text` */
  function NormalizePageText(text: string): string {
    Strip(Join(StripAll(SplitLines(text)), '\n'))
  }

  function TokensOf(words: seq<string>, page: Page): (r: seq<Token>)
    ensures |r| == |words|
    ensures forall i :: 0 <= i < |r| ==> r[i] == Token(words[i], page.number, page.title, page.metadata)
  {
    seq(|words|, i requires 0 <= i < |words| => Token(words[i], page.number, page.title, page.metadata))
  }

  function DocumentTokensOf(pages: seq<Page>): seq<Token> {
    if pages == [] then []
    else
      var last := pages[|pages| - 1];
      DocumentTokensOf(pages[..|pages| - 1]) + TokensOf(WordsOf(NormalizePageText(last.text)), last)
  }

  /** `_document_tokens` */
  method DocumentTokens(pages: seq<Page>) returns (tokens: seq<Token>)
    ensures tokens == DocumentTokensOf(pages)
  {
    hide WordsOf, NormalizePageText;
    tokens := [];
    for n := 0 to |pages|
      invariant tokens == DocumentTokensOf(pages[..n])
    {
      assert pages[..n + 1][..n] == pages[..n];
      var text := NormalizePageText(pages[n].text);
      tokens := tokens + TokensOf(WordsOf(text), pages[n]);
    }
    assert pages[..|pages|] == pages;
  }

  // ---- segments

  datatype BoundaryKey = NoKey | Plain(structure: string, parent: string) | Sheet(parent: string, table: Option<int>)

  /** `_metadata_boundary_key`; a sheet's key is the triple, every other structure's the pair. */
  function KeyOf(metadata: Metadata): BoundaryKey {
    if || "parent_chunk_key" !in metadata || !metadata["parent_chunk_key"].Str?
       || metadata["parent_chunk_key"].s == ""
    then
      NoKey
    else
      var parent := metadata["parent_chunk_key"].s;
      var structure :=
        if "structure_type" in metadata && metadata["structure_type"].Str? then metadata["structure_type"].s
        else "structured";
      if structure == "excel_sheet" then
        Sheet(parent, if "table_index" in metadata && metadata["table_index"].Int? then Some(metadata["table_index"].i)
                      else None)
      else Plain(structure, parent)
  }

  // ---- structural units

  /** The page belongs to a structural unit: its parent key is a non-empty string. */
  predicate InUnit(metadata: Metadata) {
    && "parent_chunk_key" in metadata && metadata["parent_chunk_key"].Str?
    && metadata["parent_chunk_key"].s != ""
  }

  /** The value under `key` is a string, and this one. */
  predicate HasString(metadata: Metadata, key: string, s: string) {
    key in metadata && metadata[key] == Str(s)
  }

  predicate HasInt(metadata: Metadata, key: string, i: int) {
    key in metadata && metadata[key] == Int(i)
  }

  /** The structure type is `s`; anything but a string counts as "structured". */
  ghost predicate HasStructure(metadata: Metadata, s: string) {
    || HasString(metadata, "structure_type", s)
    || (s == "structured" && forall other :: !HasString(metadata, "structure_type", other))
  }

  /**
    Both belong to no unit, or both to the one with the same parent key and structure type and,
    in a spreadsheet, the same table number or none.
   */
  ghost predicate SameUnit(a: Metadata, b: Metadata) {
    if !InUnit(a) || !InUnit(b) then !InUnit(a) && !InUnit(b)
    else
      && a["parent_chunk_key"] == b["parent_chunk_key"]
      && (forall s :: HasStructure(a, s) <==> HasStructure(b, s))
      && (HasStructure(a, "excel_sheet") ==> forall i :: HasInt(a, "table_index", i) <==> HasInt(b, "table_index", i))
  }

  function StructureOf(metadata: Metadata): (s: string)
    ensures HasStructure(metadata, s) && forall other :: HasStructure(metadata, other) ==> other == s
  {
    if "structure_type" in metadata && metadata["structure_type"].Str? then
      var s := metadata["structure_type"].s;
      assert HasString(metadata, "structure_type", s);
      s
    else "structured"
  }

  function TableOf(metadata: Metadata): (table: Option<int>)
    ensures forall i :: HasInt(metadata, "table_index", i) <==> table == Some(i)
  {
    if "table_index" in metadata && metadata["table_index"].Int? then Some(metadata["table_index"].i) else None
  }

  /** Equal boundary keys mean the same unit. */
  lemma KeyIsUnit(a: Metadata, b: Metadata)
    ensures KeyOf(a) == KeyOf(b) <==> SameUnit(a, b)
  {
    KeyFields(a);
    KeyFields(b);
    hide KeyOf, StructureOf, TableOf, HasStructure, HasInt;
    if InUnit(a) && InUnit(b) {
      SameStructure(a, b);
      SameTable(a, b);
    }
  }

  lemma KeyFields(metadata: Metadata)
    ensures KeyOf(metadata) ==
            if !InUnit(metadata) then NoKey
            else if StructureOf(metadata) == "excel_sheet" then
              Sheet(metadata["parent_chunk_key"].s, TableOf(metadata))
            else Plain(StructureOf(metadata), metadata["parent_chunk_key"].s)
    ensures StructureOf(metadata) == "excel_sheet" <==> HasStructure(metadata, "excel_sheet")
  {}

  lemma SameStructure(a: Metadata, b: Metadata)
    ensures StructureOf(a) == StructureOf(b) <==> forall s :: HasStructure(a, s) <==> HasStructure(b, s)
  {
    hide StructureOf, HasStructure;
    assert HasStructure(a, StructureOf(a));
  }

  lemma SameTable(a: Metadata, b: Metadata)
    ensures TableOf(a) == TableOf(b) <==>
            forall i :: HasInt(a, "table_index", i) <==> HasInt(b, "table_index", i)
  {
    hide TableOf, HasInt;
    if TableOf(a).Some? {
      assert HasInt(a, "table_index", TableOf(a).value);
    }
    if TableOf(b).Some? {
      assert HasInt(b, "table_index", TableOf(b).value);
    }
  }

  function Flatten<T>(parts: seq<seq<T>>): seq<T> {
    if parts == [] then [] else Flatten(parts[..|parts| - 1]) + parts[|parts| - 1]
  }

  /**
    The segments of a token sequence: non-empty, together the sequence, one structural unit
    within each, and different units on both sides of every cut.
   */
  ghost predicate AreSegments(tokens: seq<Token>, segments: seq<seq<Token>>) {
    && Flatten(segments) == tokens
    && (forall i :: 0 <= i < |segments| ==> segments[i] != [])
    && (forall i, j :: 0 <= i < |segments| && 0 <= j < |segments[i]| ==>
          SameUnit(segments[i][j].metadata, segments[i][0].metadata))
    && (forall i :: 0 < i < |segments| ==>
          !SameUnit(segments[i][0].metadata, segments[i - 1][0].metadata))
  }

  /** The same, said of the boundary keys. */
  ghost predicate AreKeyed(tokens: seq<Token>, segments: seq<seq<Token>>) {
    && Flatten(segments) == tokens
    && (forall i :: 0 <= i < |segments| ==> segments[i] != [])
    && (forall i, j :: 0 <= i < |segments| && 0 <= j < |segments[i]| ==>
          KeyOf(segments[i][j].metadata) == KeyOf(segments[i][0].metadata))
    && (forall i :: 0 < i < |segments| ==>
          KeyOf(segments[i][0].metadata) != KeyOf(segments[i - 1][0].metadata))
  }

  function AddToken(segments: seq<seq<Token>>, token: Token): seq<seq<Token>> {
    if segments != [] && segments[|segments| - 1] != [] &&
       KeyOf(segments[|segments| - 1][0].metadata) == KeyOf(token.metadata)
    then segments[..|segments| - 1] + [segments[|segments| - 1] + [token]]
    else segments + [[token]]
  }

  function Segments(tokens: seq<Token>): seq<seq<Token>> {
    if tokens == [] then [] else AddToken(Segments(tokens[..|tokens| - 1]), tokens[|tokens| - 1])
  }

  lemma FlattenLast<T>(parts: seq<seq<T>>, last: seq<T>)
    ensures Flatten(parts + [last]) == Flatten(parts) + last
  {
    assert (parts + [last])[..|parts|] == parts;
  }

  lemma NewSegment(tokens: seq<Token>, segments: seq<seq<Token>>, token: Token)
    requires AreKeyed(tokens, segments)
    requires segments != [] ==> KeyOf(segments[|segments| - 1][0].metadata) != KeyOf(token.metadata)
    ensures AreKeyed(tokens + [token], segments + [[token]])
  {
    hide KeyOf, Flatten;
    FlattenLast(segments, [token]);
  }

  lemma ExtendedSegment(tokens: seq<Token>, segments: seq<seq<Token>>, token: Token)
    requires AreKeyed(tokens, segments)
    requires segments != [] && KeyOf(segments[|segments| - 1][0].metadata) == KeyOf(token.metadata)
    ensures AreKeyed(tokens + [token], segments[..|segments| - 1] + [segments[|segments| - 1] + [token]])
  {
    hide KeyOf, Flatten;
    var n := |segments| - 1;
    var front, last := segments[..n], segments[n];
    assert segments == front + [last];
    FlattenLast(front, last);
    FlattenLast(front, last + [token]);
    var more := front + [last + [token]];
    assert forall i :: 0 <= i < n ==> more[i] == segments[i];
    assert (last + [token])[0] == last[0];
    forall i, j | 0 <= i < |more| && 0 <= j < |more[i]|
      ensures KeyOf(more[i][j].metadata) == KeyOf(more[i][0].metadata)
    {
      if i == n && j < |last| {
        assert more[i][j] == segments[n][j];
      }
    }
  }

  lemma AddTokenKeeps(tokens: seq<Token>, segments: seq<seq<Token>>, token: Token)
    requires AreKeyed(tokens, segments)
    ensures AreKeyed(tokens + [token], AddToken(segments, token))
  {
    hide KeyOf, Flatten;
    assert segments != [] ==> segments[|segments| - 1] != [];
    if segments != [] && KeyOf(segments[|segments| - 1][0].metadata) == KeyOf(token.metadata) {
      ExtendedSegment(tokens, segments, token);
    } else {
      NewSegment(tokens, segments, token);
    }
  }

  lemma AddTokenTo(segments: seq<seq<Token>>, current: seq<Token>, token: Token)
    requires current != []
    ensures AddToken(segments + [current], token) ==
            if KeyOf(current[0].metadata) == KeyOf(token.metadata) then segments + [current + [token]]
            else segments + [current] + [[token]]
  {
    hide KeyOf;
    assert (segments + [current])[..|segments|] == segments;
  }

  lemma {:induction false} SegmentsAreKeyed(tokens: seq<Token>)
    ensures AreKeyed(tokens, Segments(tokens))
  {
    hide AreKeyed, AddToken;
    if tokens == [] {
      NoSegments();
    } else {
      var n := |tokens| - 1;
      SegmentsAreKeyed(tokens[..n]);
      AddTokenKeeps(tokens[..n], Segments(tokens[..n]), tokens[n]);
      assert tokens[..n] + [tokens[n]] == tokens;
    }
  }

  /** The segments are cut exactly where the structural unit changes. */
  lemma SegmentsAreSegments(tokens: seq<Token>)
    ensures AreSegments(tokens, Segments(tokens))
  {
    hide Segments, KeyOf, SameUnit, Flatten;
    SegmentsAreKeyed(tokens);
    forall a, b ensures KeyOf(a) == KeyOf(b) <==> SameUnit(a, b) {
      KeyIsUnit(a, b);
    }
  }

  lemma NoSegments()
    ensures AreKeyed([], [])
  {}

  lemma SegmentsStep(tokens: seq<Token>, n: nat)
    requires n < |tokens|
    ensures Segments(tokens[..n + 1]) == AddToken(Segments(tokens[..n]), tokens[n])
    ensures n == 0 ==> Segments(tokens[..n + 1]) == [[tokens[n]]]
  {
    assert tokens[..n + 1][..n] == tokens[..n];
    assert n == 0 ==> Segments(tokens[..n]) == [];
  }

  /** `_token_segments` */
  method TokenSegments(tokens: seq<Token>) returns (segments: seq<seq<Token>>)
    ensures segments == Segments(tokens)
  {
    hide KeyOf;
    segments := [];
    var current: seq<Token> := [];
    var currentKey := NoKey;
    var hasCurrentKey := false;
    for n := 0 to |tokens|
      invariant current == [] ==> n == 0 && segments == []
      invariant current != [] ==>
        && hasCurrentKey && currentKey == KeyOf(current[0].metadata)
        && Segments(tokens[..n]) == segments + [current]
      invariant n == 0 ==> current == []
    {
      var token := tokens[n];
      var key := KeyOf(token.metadata);
      SegmentsStep(tokens, n);
      if current != [] {
        AddTokenTo(segments, current, token);
      }
      assert [] + [token] == [token];
      if current != [] && hasCurrentKey && key != currentKey {
        segments := segments + [current];
        current := [];
      }
      current := current + [token];
      currentKey := key;
      hasCurrentKey := true;
    }
    assert tokens[..|tokens|] == tokens;
    if current != [] {
      segments := segments + [current];
    }
  }

  // ---- windows

  function WindowsFrom(segment: seq<Token>, start: nat, size: nat, step: nat): seq<seq<Token>>
    requires step > 0
    decreases |segment| - start
  {
    if start >= |segment| then []
    else [Window(segment, start, size)] + WindowsFrom(segment, start + step, size, step)
  }

  /** The window of `size` tokens at `start`, shorter at the end of the segment. */
  function Window(segment: seq<Token>, start: nat, size: nat): seq<Token>
    requires start <= |segment|
  {
    if start + size < |segment| then segment[start..start + size] else segment[start..]
  }

  function AllWindows(segments: seq<seq<Token>>, size: nat, step: nat): seq<seq<Token>>
    requires step > 0
  {
    if segments == [] then []
    else
      AllWindows(segments[..|segments| - 1], size, step) + WindowsFrom(segments[|segments| - 1], 0, size, step)
  }

  // ---- chunks

  function Values(tokens: seq<Token>): (r: seq<string>)
    ensures |r| == |tokens|
    ensures forall i :: 0 <= i < |r| ==> r[i] == tokens[i].value
  {
    seq(|tokens|, i requires 0 <= i < |tokens| => tokens[i].value)
  }

  /** `estimate_token_count` */
  function EstimateTokenCount(text: string): nat {
    |WordsOf(text)|
  }

  /** `normalize_chunk_text` */
  function NormalizeChunkText(text: string): string {
    Strip(Join(WordsOf(text), ' '))
  }

  function ContentOf(window: seq<Token>): string {
    Strip(Join(Values(window), ' '))
  }

  /** The least or the greatest page number of a window. */
  function PageBound(window: seq<Token>, least: bool): Option<int> {
    if window == [] then None
    else
      var rest, here := PageBound(window[1..], least), window[0].page;
      if here.None? then rest
      else if rest.None? || (if least then here.value <= rest.value else here.value >= rest.value) then here
      else rest
  }

  /** `_first_section_title`; an empty title counts as none. */
  function FirstTitle(window: seq<Token>): Option<string> {
    if window == [] then None
    else if window[0].title.Some? && window[0].title.value != "" then window[0].title
    else FirstTitle(window[1..])
  }

  function ChunkOf(window: seq<Token>, index: nat): Chunk {
    var content := ContentOf(window);
    Chunk(index, content, EstimateTokenCount(content), |content|, PageBound(window, true), PageBound(window, false),
          FirstTitle(window))
  }

  function ChunksOf(windows: seq<seq<Token>>): (r: seq<Chunk>)
    ensures |r| == |windows|
    ensures forall i :: 0 <= i < |r| ==> r[i] == ChunkOf(windows[i], i)
  {
    seq(|windows|, i requires 0 <= i < |windows| => ChunkOf(windows[i], i))
  }

  ghost predicate AreTokens(tokens: seq<Token>) {
    forall i :: 0 <= i < |tokens| ==> IsWord(tokens[i].value)
  }

  /** Reading a window's content back gives its tokens. */
  lemma ContentReadsBack(window: seq<Token>)
    requires AreTokens(window)
    ensures WordsOf(ContentOf(window)) == Values(window)
  {
    hide WordsOf, IsWord, Strip;
    WordsOfStrip(Join(Values(window), ' '));
    assert IsSpace(' ');
    WordsOfJoin(Values(window), ' ');
    WordsOfWords(Values(window));
  }

  /** The guard on the normalised text never drops a window. */
  lemma GuardHolds(window: seq<Token>)
    requires AreTokens(window) && window != []
    ensures NormalizeChunkText(ContentOf(window)) != ""
  {
    assert IsSpace(' ');
    hide ContentOf, IsSpace;
    ContentReadsBack(window);
    var words := Values(window);
    WordsOfStrip(Join(words, ' '));
    WordsOfJoin(words, ' ');
    WordsOfWords(words);
    SpaceHasNoWords("");
  }

  /** The inner loop of `chunk`: the windows of one segment, appended to the chunks so far. */
  method ChunkSegment(segment: seq<Token>, size: nat, step: nat, before: seq<Chunk>, ghost windows: seq<seq<Token>>)
    returns (chunks: seq<Chunk>)
    requires 0 < step <= size && AreTokens(segment) && before == ChunksOf(windows)
    ensures chunks == ChunksOf(windows + WindowsFrom(segment, 0, size, step))
  {
    hide ChunkOf, ContentOf, NormalizeChunkText, PageBound, FirstTitle, EstimateTokenCount, AreTokens, ChunksOf, Window,
         WindowsFrom, Remaining;
    chunks := before;
    var start: nat := 0;
    ghost var seen, goal := windows, windows + WindowsFrom(segment, 0, size, step);
    AllRemain(windows, segment, size, step);
    while start < |segment|
      invariant Remaining(seen, segment, start, size, step, goal)
      invariant chunks == ChunksOf(seen)
      decreases |segment| - start
    {
      var window := Window(segment, start, size);
      WindowsStep(seen, segment, start, size, step, goal);
      WindowTokens(segment, start, size);
      var content := ContentOf(window);
      var normalized := NormalizeChunkText(content);
      GuardHolds(window);
      if normalized != "" {
        ChunkFields(window, |chunks|);
        OneMoreChunk(seen, window);
        chunks := chunks + [Chunk(|chunks|, content, EstimateTokenCount(content), |content|, PageBound(window, true),
                                  PageBound(window, false), FirstTitle(window))];
        seen := seen + [window];
      }
      start := start + step;
    }
    NoMoreWindows(seen, segment, start, size, step, goal);
  }

  /** `chunk` */
  method ChunkDocument(pages: seq<Page>, size: nat, overlap: nat) returns (r: Chunking)
    requires overlap < size
    ensures r == ChunkingOf(pages, size, overlap)
  {
    hide ChunksOf, WindowsFrom, AllWindows, AreTokens, AreKeyed, Segments, DocumentTokensOf;
    AllWindowsOfNone(size, size - overlap);
    var tokens := DocumentTokens(pages);
    TokensAreWords(pages);
    if tokens == [] {
      NoTokensNoSegments();
      return NoChunksCreated;
    }
    var chunks: seq<Chunk> := [];
    var step := size - overlap;
    var segments := TokenSegments(tokens);
    SegmentsAreKeyed(tokens);
    for n := 0 to |segments|
      invariant chunks == ChunksOf(AllWindows(segments[..n], size, step))
    {
      SegmentTokens(tokens, segments, n);
      WindowsOfSegment(segments, n, size, step);
      chunks := ChunkSegment(segments[n], size, step, chunks, AllWindows(segments[..n], size, step));
    }
    assert segments[..|segments|] == segments;
    if chunks == [] {
      return NoChunksCreated;
    }
    r := Chunked(chunks);
  }

  lemma NoTokensNoSegments()
    ensures Segments([]) == []
  {}

  lemma AllWindowsOfNone(size: nat, step: nat)
    requires step > 0
    ensures AllWindows([], size, step) == [] && ChunksOf([]) == []
  {}

  /** The windows seen so far, and those of the segment from `start` on, make up the goal. */
  ghost predicate Remaining(seen: seq<seq<Token>>, segment: seq<Token>, start: nat, size: nat, step: nat,
                            goal: seq<seq<Token>>)
  {
    step > 0 && seen + WindowsFrom(segment, start, size, step) == goal
  }

  lemma WindowsOfSegment(segments: seq<seq<Token>>, n: nat, size: nat, step: nat)
    requires step > 0 && n < |segments|
    ensures AllWindows(segments[..n + 1], size, step) ==
            AllWindows(segments[..n], size, step) + WindowsFrom(segments[n], 0, size, step)
  {
    assert segments[..n + 1][..n] == segments[..n];
  }

  lemma AllRemain(windows: seq<seq<Token>>, segment: seq<Token>, size: nat, step: nat)
    requires step > 0
    ensures Remaining(windows, segment, 0, size, step, windows + WindowsFrom(segment, 0, size, step))
  {}

  lemma WindowsStep(seen: seq<seq<Token>>, segment: seq<Token>, start: nat, size: nat, step: nat,
                    goal: seq<seq<Token>>)
    requires start < |segment| && Remaining(seen, segment, start, size, step, goal)
    ensures Remaining(seen + [Window(segment, start, size)], segment, start + step, size, step, goal)
  {
    assert seen + WindowsFrom(segment, start, size, step) ==
           (seen + [Window(segment, start, size)]) + WindowsFrom(segment, start + step, size, step);
  }

  lemma NoMoreWindows(seen: seq<seq<Token>>, segment: seq<Token>, start: nat, size: nat, step: nat,
                      goal: seq<seq<Token>>)
    requires start >= |segment| && Remaining(seen, segment, start, size, step, goal)
    ensures seen == goal
  {}

  lemma OneMoreChunk(windows: seq<seq<Token>>, window: seq<Token>)
    ensures ChunksOf(windows + [window]) == ChunksOf(windows) + [ChunkOf(window, |windows|)]
  {
    hide ChunkOf;
  }

  lemma WindowTokens(segment: seq<Token>, start: nat, size: nat)
    requires AreTokens(segment) && start < |segment| && size > 0
    ensures AreTokens(Window(segment, start, size)) && Window(segment, start, size) != []
  {}

  lemma ChunkFields(window: seq<Token>, index: nat)
    ensures ChunkOf(window, index) ==
            Chunk(index, ContentOf(window), EstimateTokenCount(ContentOf(window)), |ContentOf(window)|,
                  PageBound(window, true), PageBound(window, false), FirstTitle(window))
  {}

  /** What chunking yields, as one expression. */
  function ChunkingOf(pages: seq<Page>, size: nat, overlap: nat): Chunking
    requires overlap < size
  {
    var windows := AllWindows(Segments(DocumentTokensOf(pages)), size, size - overlap);
    if windows == [] then NoChunksCreated else Chunked(ChunksOf(windows))
  }

  lemma {:induction false} TokensAreWords(pages: seq<Page>)
    ensures AreTokens(DocumentTokensOf(pages))
  {
    hide WordsOf, NormalizePageText, IsWord;
    if pages != [] {
      TokensAreWords(pages[..|pages| - 1]);
      WordsAreWords(NormalizePageText(pages[|pages| - 1].text));
    }
  }

  lemma {:induction false} SegmentIsPart(segments: seq<seq<Token>>, n: nat)
    requires n < |segments|
    ensures forall j :: 0 <= j < |segments[n]| ==> segments[n][j] in Flatten(segments)
  {
    if n < |segments| - 1 {
      SegmentIsPart(segments[..|segments| - 1], n);
    }
  }

  lemma SegmentTokens(tokens: seq<Token>, segments: seq<seq<Token>>, n: nat)
    requires AreTokens(tokens) && AreKeyed(tokens, segments) && n < |segments|
    ensures AreTokens(segments[n])
  {
    hide IsWord;
    SegmentIsPart(segments, n);
  }

  // ---- the round trip

  lemma {:induction false} StrippedLinesKeepWords(lines: seq<string>)
    ensures WordsOfAll(StripAll(lines)) == WordsOfAll(lines)
  {
    hide WordsOf, Strip;
    if lines != [] {
      WordsOfStrip(lines[0]);
      StrippedLinesKeepWords(lines[1..]);
    }
  }

  /** Normalising a page keeps its words. */
  lemma PageKeepsWords(text: string)
    ensures WordsOf(NormalizePageText(text)) == WordsOf(text)
  {
    assert IsSpace('\n');
    hide WordsOf, Strip, IsSpace;
    var lines := StripAll(SplitLines(text));
    WordsOfStrip(Join(lines, '\n'));
    WordsOfJoin(lines, '\n');
    StrippedLinesKeepWords(SplitLines(text));
    WordsOfLines(text);
  }

  /** The words of the raw pages, in order. */
  function PageWords(pages: seq<Page>): seq<string> {
    if pages == [] then [] else PageWords(pages[..|pages| - 1]) + WordsOf(pages[|pages| - 1].text)
  }

  lemma {:induction false} DocumentKeepsWords(pages: seq<Page>)
    ensures Values(DocumentTokensOf(pages)) == PageWords(pages)
  {
    hide WordsOf, NormalizePageText;
    if pages != [] {
      DocumentKeepsWords(pages[..|pages| - 1]);
      PageKeepsWords(pages[|pages| - 1].text);
    }
  }

  function Take<T>(s: seq<T>, n: nat): seq<T> {
    if n < |s| then s[..n] else s
  }

  /** The first `step` tokens of every window. */
  function Heads(windows: seq<seq<Token>>, step: nat): seq<Token> {
    if windows == [] then []
    else Heads(windows[..|windows| - 1], step) + Take(windows[|windows| - 1], step)
  }

  lemma HeadsLast(front: seq<seq<Token>>, last: seq<Token>, step: nat)
    ensures Heads(front + [last], step) == Heads(front, step) + Take(last, step)
  {
    hide Take;
    var all := front + [last];
    assert all[..|all| - 1] == front;
  }

  lemma {:induction false} HeadsConcat(a: seq<seq<Token>>, b: seq<seq<Token>>, step: nat)
    ensures Heads(a + b, step) == Heads(a, step) + Heads(b, step)
  {
    if b == [] {
      assert a + b == a;
      NoHeads(step);
    } else {
      hide Heads, Take;
      var front, last := b[..|b| - 1], b[|b| - 1];
      assert b == front + [last] && a + b == (a + front) + [last];
      HeadsLast(a + front, last, step);
      HeadsLast(front, last, step);
      HeadsConcat(a, front, step);
      assert (Heads(a, step) + Heads(front, step)) + Take(last, step)
          == Heads(a, step) + (Heads(front, step) + Take(last, step));
    }
  }

  lemma HeadsOne(window: seq<Token>, step: nat)
    ensures Heads([window], step) == Take(window, step)
  {
    assert [window][..0] == [];
  }

  lemma {:induction false} WindowsCover(segment: seq<Token>, start: nat, size: nat, step: nat)
    requires 0 < step <= size && start <= |segment|
    ensures Heads(WindowsFrom(segment, start, size, step), step) == segment[start..]
    decreases |segment| - start
  {
    hide Heads;
    if start == |segment| {
      NoHeads(step);
    } else {
      var window := Window(segment, start, size);
      var rest := WindowsFrom(segment, start + step, size, step);
      HeadsConcat([window], rest, step);
      HeadsOne(window, step);
      if start + step <= |segment| {
        WindowsCover(segment, start + step, size, step);
        assert Take(window, step) == segment[start..start + step];
      } else {
        NoHeads(step);
        assert rest == [];
      }
    }
  }

  lemma NoHeads(step: nat)
    ensures Heads([], step) == []
  {}

  lemma {:induction false} AllWindowsCover(segments: seq<seq<Token>>, size: nat, step: nat)
    requires 0 < step <= size
    ensures Heads(AllWindows(segments, size, step), step) == Flatten(segments)
  {
    hide Heads, WindowsFrom;
    if segments == [] {
      NoHeads(step);
    } else {
      var n := |segments| - 1;
      AllWindowsCover(segments[..n], size, step);
      HeadsConcat(AllWindows(segments[..n], size, step), WindowsFrom(segments[n], 0, size, step), step);
      WindowsCover(segments[n], 0, size, step);
    }
  }

  /** A segment of length L > 0 yields ceil(L / step) windows. */
  lemma {:induction false} WindowCount(segment: seq<Token>, start: nat, size: nat, step: nat)
    requires step > 0
    ensures var k := |WindowsFrom(segment, start, size, step)|;
      if start >= |segment| then k == 0
      else (k - 1) * step < |segment| - start <= k * step
    decreases |segment| - start
  {
    if start < |segment| {
      WindowCount(segment, start + step, size, step);
      var k := |WindowsFrom(segment, start, size, step)|;
      assert k * step == (k - 1) * step + step;
      assert k > 1 ==> (k - 1) * step == (k - 2) * step + step;
    }
  }

  /** Every window is a non-empty stretch of at most `size` tokens of one segment. */
  ghost predicate IsWindow(segments: seq<seq<Token>>, size: nat, window: seq<Token>) {
    exists n, a, b :: 0 <= n < |segments| && 0 <= a < b <= |segments[n]| && b - a <= size && window == segments[n][a..b]
  }

  lemma {:induction false} SegmentWindows(segment: seq<Token>, start: nat, size: nat, step: nat, window: seq<Token>)
    requires 0 < step <= size && window in WindowsFrom(segment, start, size, step)
    ensures exists a, b :: 0 <= a < b <= |segment| && b - a <= size && window == segment[a..b]
    decreases |segment| - start
  {
    if window == Window(segment, start, size) {
      var end := if start + size < |segment| then start + size else |segment|;
      assert window == segment[start..end];
    } else {
      SegmentWindows(segment, start + step, size, step, window);
    }
  }

  lemma {:induction false} AllAreWindows(segments: seq<seq<Token>>, size: nat, step: nat, window: seq<Token>)
    requires 0 < step <= size && window in AllWindows(segments, size, step)
    ensures IsWindow(segments, size, window)
  {
    hide WindowsFrom;
    var n := |segments| - 1;
    if window in WindowsFrom(segments[n], 0, size, step) {
      SegmentWindows(segments[n], 0, size, step, window);
      var a, b :| 0 <= a < b <= |segments[n]| && b - a <= size && window == segments[n][a..b];
    } else {
      var front := segments[..n];
      AllAreWindows(front, size, step, window);
      var m, a, b :| 0 <= m < |front| && 0 <= a < b <= |front[m]| && b - a <= size && window == front[m][a..b];
      assert segments[m] == front[m];
    }
  }

  /** All tokens of a window have one boundary key, and each is a word. */
  lemma WindowIsUniform(tokens: seq<Token>, size: nat, step: nat, window: seq<Token>)
    requires 0 < step <= size && AreTokens(tokens) && window in AllWindows(Segments(tokens), size, step)
    ensures 0 < |window| <= size && AreTokens(window)
    ensures forall i :: 0 <= i < |window| ==> KeyOf(window[i].metadata) == KeyOf(window[0].metadata)
  {
    hide Segments, AllWindows, KeyOf, IsWord, Flatten;
    var segments := Segments(tokens);
    SegmentsAreKeyed(tokens);
    AllAreWindows(segments, size, step, window);
    var n, a, b :| 0 <= n < |segments| && 0 <= a < b <= |segments[n]| && b - a <= size && window == segments[n][a..b];
    SegmentTokens(tokens, segments, n);
    forall i | 0 <= i < |window| ensures KeyOf(window[i].metadata) == KeyOf(segments[n][0].metadata) {
      assert window[i] == segments[n][a + i];
    }
  }

  /** The first `step` words of every chunk, read back from the chunk texts alone. */
  function HeadWords(chunks: seq<Chunk>, step: nat): seq<string> {
    if chunks == [] then []
    else HeadWords(chunks[..|chunks| - 1], step) + Take(WordsOf(chunks[|chunks| - 1].content), step)
  }

  lemma {:induction false} HeadsReadBack(windows: seq<seq<Token>>, step: nat)
    requires forall i :: 0 <= i < |windows| ==> AreTokens(windows[i])
    ensures HeadWords(ChunksOf(windows), step) == Values(Heads(windows, step))
  {
    hide WordsOf, AreTokens, ContentOf, PageBound, FirstTitle, EstimateTokenCount;
    if windows != [] {
      var n := |windows| - 1;
      var chunks, front := ChunksOf(windows), windows[..n];
      HeadsReadBack(front, step);
      assert chunks[..n] == ChunksOf(front);
      HeadReadsBack(windows[n], n, step);
      hide ChunkOf, Values, Take;
      ValuesConcat(Heads(front, step), Take(windows[n], step));
    }
  }

  lemma HeadReadsBack(window: seq<Token>, index: nat, step: nat)
    requires AreTokens(window)
    ensures Take(WordsOf(ChunkOf(window, index).content), step) == Values(Take(window, step))
  {
    ContentReadsBack(window);
    hide WordsOf, AreTokens, ContentOf, PageBound, FirstTitle, EstimateTokenCount;
  }

  lemma ValuesConcat(a: seq<Token>, b: seq<Token>)
    ensures Values(a + b) == Values(a) + Values(b)
  {}

  /**
    The chunk texts alone give the document back: the first (size - overlap) words of each
    chunk, in index order, are the words of the raw pages. There are no chunks exactly when
    the pages have no words.
   */
  lemma ChunkingRoundTrip(pages: seq<Page>, size: nat, overlap: nat)
    requires overlap < size
    ensures var r := ChunkingOf(pages, size, overlap);
      && (r.NoChunksCreated? <==> PageWords(pages) == [])
      && (r.Chunked? ==> HeadWords(r.chunks, size - overlap) == PageWords(pages))
  {
    hide WordsOf, AreTokens, AllWindows, Segments, DocumentTokensOf, Flatten, AreKeyed, Heads, ChunkOf, HeadWords,
         PageWords;
    var step := size - overlap;
    var tokens := DocumentTokensOf(pages);
    var windows := AllWindows(Segments(tokens), size, step);
    TokensAreWords(pages);
    DocumentKeepsWords(pages);
    SegmentsFlatten(tokens);
    AllWindowsCover(Segments(tokens), size, step);
    forall i | 0 <= i < |windows| ensures AreTokens(windows[i]) && windows[i] != [] {
      WindowIsUniform(tokens, size, step, windows[i]);
    }
    HeadsReadBack(windows, step);
    HeadsOfSome(windows, step);
  }

  lemma SegmentsFlatten(tokens: seq<Token>)
    ensures Flatten(Segments(tokens)) == tokens
  {
    hide Flatten, Segments;
    SegmentsAreKeyed(tokens);
  }

  lemma HeadsOfSome(windows: seq<seq<Token>>, step: nat)
    requires step > 0 && forall i :: 0 <= i < |windows| ==> windows[i] != []
    ensures Heads(windows, step) == [] <==> windows == []
  {
    if windows != [] {
      assert Take(windows[|windows| - 1], step) != [];
    }
  }

  // ---- every chunk

  /** The least and the greatest page number of a window, if it has any. */
  ghost predicate IsPageRange(window: seq<Token>, from: Option<int>, to: Option<int>) {
    && (from.Some? <==> to.Some?)
    && (from.Some? <==> exists j :: 0 <= j < |window| && window[j].page.Some?)
    && (from.Some? ==> exists j :: 0 <= j < |window| && window[j].page == from)
    && (to.Some? ==> exists j :: 0 <= j < |window| && window[j].page == to)
    && (from.Some? ==> forall j :: 0 <= j < |window| && window[j].page.Some? ==>
                         from.value <= window[j].page.value <= to.value)
  }

  predicate HasTitle(token: Token) {
    token.title.Some? && token.title.value != ""
  }

  /** The first section title that is not empty. */
  ghost predicate IsTitle(window: seq<Token>, title: Option<string>) {
    if title.None? then forall j :: 0 <= j < |window| ==> !HasTitle(window[j])
    else
      exists j :: 0 <= j < |window| && HasTitle(window[j]) && window[j].title == title &&
                  forall i :: 0 <= i < j ==> !HasTitle(window[i])
  }

  /**
    The chunk of a window: its words with single blanks between them, which reading gives back,
    their number, the length, the page range and the first title.
   */
  ghost predicate IsChunkOf(chunk: Chunk, window: seq<Token>, index: nat) {
    && chunk.index == index
    && chunk.content == Join(Values(window), ' ') && WordsOf(chunk.content) == Values(window)
    && chunk.tokenCount == |window| && chunk.charCount == |chunk.content|
    && IsPageRange(window, chunk.pageFrom, chunk.pageTo) && IsTitle(window, chunk.title)
  }

  lemma {:induction false} JoinEnds(words: seq<string>)
    requires AreWords(words) && words != []
    ensures Trimmed(Join(words, ' '))
  {
    hide IsSpace;
    if |words| > 1 {
      JoinEnds(words[1..]);
      assert Join(words, ' ') == words[0] + [' '] + Join(words[1..], ' ');
      assert Join(words, ' ')[|Join(words, ' ')| - 1] == Join(words[1..], ' ')[|Join(words[1..], ' ')| - 1];
    }
  }

  lemma {:induction false} TitleIsFirst(window: seq<Token>)
    ensures IsTitle(window, FirstTitle(window))
  {
    if window != [] && !HasTitle(window[0]) {
      var rest := window[1..];
      TitleIsFirst(rest);
      assert forall j :: 0 <= j < |rest| ==> rest[j] == window[j + 1];
      if FirstTitle(rest).Some? {
        var j :| 0 <= j < |rest| && HasTitle(rest[j]) && rest[j].title == FirstTitle(rest) &&
                 forall i :: 0 <= i < j ==> !HasTitle(rest[i]);
        assert HasTitle(window[j + 1]) && forall i :: 0 <= i < j + 1 ==> !HasTitle(window[i]);
      }
    }
  }

  lemma PagesAreRange(window: seq<Token>)
    ensures IsPageRange(window, PageBound(window, true), PageBound(window, false))
  {
    hide PageBound;
    PageBoundsHold(window);
  }

  lemma ChunkExact(window: seq<Token>, index: nat)
    requires AreTokens(window) && window != []
    ensures IsChunkOf(ChunkOf(window, index), window, index)
  {
    ContentReadsBack(window);
    JoinEnds(Values(window));
    StripTrimmed(Join(Values(window), ' '));
    PagesAreRange(window);
    TitleIsFirst(window);
    hide WordsOf, Join, Strip, PageBound, FirstTitle, IsPageRange, IsTitle;
  }

  /** The k-th window of a segment starts behind k steps and has `size` tokens, or those that are left. */
  lemma {:induction false} WindowAt(segment: seq<Token>, start: nat, size: nat, step: nat, k: nat)
    requires step > 0 && start + Batches.Start(k, step) < |segment|
    ensures var from := start + Batches.Start(k, step);
      var to := if from + size < |segment| then from + size else |segment|;
      k < |WindowsFrom(segment, start, size, step)| &&
      WindowsFrom(segment, start, size, step)[k] == segment[from..to]
    decreases k
  {
    if k > 0 {
      Batches.NextBatch(k - 1, step);
      hide Batches.Start;
      WindowAt(segment, start + step, size, step, k - 1);
    }
  }

  /** Where the windows of a segment stand among all. */
  lemma {:induction false} WindowsStand(segments: seq<seq<Token>>, size: nat, step: nat, n: nat, k: nat)
    requires step > 0 && n < |segments| && k < |WindowsFrom(segments[n], 0, size, step)|
    ensures var i := |AllWindows(segments[..n], size, step)| + k;
      i < |AllWindows(segments, size, step)| &&
      AllWindows(segments, size, step)[i] == WindowsFrom(segments[n], 0, size, step)[k]
  {
    hide WindowsFrom;
    var m := |segments| - 1;
    if n < m {
      WindowsStand(segments[..m], size, step, n, k);
      assert segments[..m][..n] == segments[..n];
    }
  }

  /** The segments of a document, and the number of chunks that those before the n-th one give. */
  function SegmentsOf(pages: seq<Page>): seq<seq<Token>> {
    Segments(DocumentTokensOf(pages))
  }

  function ChunksBefore(pages: seq<Page>, size: nat, overlap: nat, n: nat): nat
    requires overlap < size && n <= |SegmentsOf(pages)|
  {
    |AllWindows(SegmentsOf(pages)[..n], size, size - overlap)|
  }

  /** Every chunk is that of a window of a segment, and lies within one structural unit. */
  lemma ChunksAreWindows(pages: seq<Page>, size: nat, overlap: nat, i: nat)
    requires overlap < size
    requires ChunkingOf(pages, size, overlap).Chunked? && i < |ChunkingOf(pages, size, overlap).chunks|
    ensures var chunk := ChunkingOf(pages, size, overlap).chunks[i];
      var window := AllWindows(SegmentsOf(pages), size, size - overlap)[i];
      && IsWindow(SegmentsOf(pages), size, window) && IsChunkOf(chunk, window, i)
      && 1 <= chunk.tokenCount <= size
      && forall j :: 0 <= j < |window| ==> SameUnit(window[j].metadata, window[0].metadata)
  {
    var tokens, step := DocumentTokensOf(pages), size - overlap;
    var window := AllWindows(Segments(tokens), size, step)[i];
    TokensAreWords(pages);
    hide WordsOf, AreTokens, AllWindows, Segments, DocumentTokensOf, KeyOf, SameUnit, ContentOf, IsChunkOf, ChunkOf,
         IsWindow;
    WindowIsUniform(tokens, size, step, window);
    AllAreWindows(Segments(tokens), size, step, window);
    ChunkExact(window, i);
    forall j | 0 <= j < |window| ensures SameUnit(window[j].metadata, window[0].metadata) {
      KeyIsUnit(window[j].metadata, window[0].metadata);
    }
  }

  /** Chunk `i` has the tokens of the segment from `from` on, `size` of them or those that are left. */
  ghost predicate IsPlaced(chunks: seq<Chunk>, i: nat, segment: seq<Token>, from: nat, size: nat) {
    && i < |chunks| && from < |segment|
    && var to := if from + size < |segment| then from + size else |segment|;
       IsChunkOf(chunks[i], segment[from..to], i)
  }

  /**
    Which chunk is where: the k-th chunk of the n-th segment has the segment's tokens from
    k * (size - overlap) on, with everything that follows from them.
   */
  lemma ChunkAt(pages: seq<Page>, size: nat, overlap: nat, n: nat, k: nat)
    requires overlap < size && n < |SegmentsOf(pages)|
    requires Batches.Start(k, size - overlap) < |SegmentsOf(pages)[n]|
    ensures var r := ChunkingOf(pages, size, overlap);
      && r.Chunked?
      && IsPlaced(r.chunks, ChunksBefore(pages, size, overlap, n) + k, SegmentsOf(pages)[n],
                  Batches.Start(k, size - overlap), size)
  {
    hide *;
    var segments, step := SegmentsOf(pages), size - overlap;
    var i := ChunksBefore(pages, size, overlap, n) + k;
    BeforeIs(pages, size, overlap, n);
    WindowPlaced(segments, size, step, n, k);
    SomeChunk(pages, size, overlap, i);
    ChunksAreWindows(pages, size, overlap, i);
    Placed(ChunkingOf(pages, size, overlap).chunks, i, segments[n], Batches.Start(k, step), size,
           AllWindows(segments, size, step)[i]);
  }

  lemma Placed(chunks: seq<Chunk>, i: nat, segment: seq<Token>, from: nat, size: nat, window: seq<Token>)
    requires i < |chunks| && IsChunkOf(chunks[i], window, i) && from < |segment|
    requires window == segment[from..if from + size < |segment| then from + size else |segment|]
    ensures IsPlaced(chunks, i, segment, from, size)
  {}

  lemma BeforeIs(pages: seq<Page>, size: nat, overlap: nat, n: nat)
    requires overlap < size && n <= |SegmentsOf(pages)|
    ensures ChunksBefore(pages, size, overlap, n) == |AllWindows(SegmentsOf(pages)[..n], size, size - overlap)|
  {}

  lemma SomeChunk(pages: seq<Page>, size: nat, overlap: nat, i: nat)
    requires overlap < size && i < |AllWindows(SegmentsOf(pages), size, size - overlap)|
    ensures ChunkingOf(pages, size, overlap).Chunked? && i < |ChunkingOf(pages, size, overlap).chunks|
  {}

  lemma WindowPlaced(segments: seq<seq<Token>>, size: nat, step: nat, n: nat, k: nat)
    requires step > 0 && n < |segments| && Batches.Start(k, step) < |segments[n]|
    ensures var i, from := |AllWindows(segments[..n], size, step)| + k, Batches.Start(k, step);
      var to := if from + size < |segments[n]| then from + size else |segments[n]|;
      && i < |AllWindows(segments, size, step)|
      && AllWindows(segments, size, step)[i] == segments[n][from..to]
  {
    hide Batches.Start, AllWindows, WindowsFrom;
    WindowAt(segments[n], 0, size, step, k);
    WindowsStand(segments, size, step, n, k);
  }

  lemma {:induction false} PageBoundsHold(window: seq<Token>)
    ensures forall j :: 0 <= j < |window| && window[j].page.Some? ==>
      && PageBound(window, true).Some? && PageBound(window, true).value <= window[j].page.value
      && PageBound(window, false).Some? && window[j].page.value <= PageBound(window, false).value
    ensures forall least :: PageBound(window, least).Some? ==>
      exists j :: 0 <= j < |window| && window[j].page == PageBound(window, least)
  {
    if window != [] {
      var rest := window[1..];
      PageBoundsHold(rest);
      assert forall j :: 0 <= j < |rest| ==> rest[j] == window[j + 1];
      forall least | PageBound(window, least).Some?
        ensures exists j :: 0 <= j < |window| && window[j].page == PageBound(window, least)
      {
        if PageBound(window, least) != window[0].page {
          var j :| 0 <= j < |rest| && rest[j].page == PageBound(rest, least);
          assert window[j + 1].page == PageBound(window, least);
        }
      }
    }
  }
}

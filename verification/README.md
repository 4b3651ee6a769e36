# Verification of the RAG backend's core

A Dafny model of the parts of the backend that decide what an answer may rest on, with proofs
of what they promise. `dafny verify dfyconfig.toml` checks everything.

| module | what it models |
|---|---|
| `Text`, `Words`, `CaseFolding`, `Sets` | Python's `strip`, `find`, `split`, `splitlines`, `join`, `\s+` collapsing, and `str.lower` character by character; sizes of sets |
| `SpanSearch`, `SpanChoice`, `SpanLimits` | finding an LLM's quotation in a chunk through a whitespace- and case-insensitive search with a map back to raw offsets |
| `EvidenceSpan`, `EntityRefs`, `Collecting`, `EntityNames`, `Grounding`, `EmittedEntities`, `EmittedRelations`, `GroundedChunk`, `GroundingLimits` | turning one LLM payload into entities and relations anchored in the chunk |
| `LlmJson`, `GraphExtraction`, `GroundedRun` | finding the JSON object in a reply, the run over all chunks with retries, failures and usage, and the two with the grounding put together |
| `CandidateMerge`, `MergedEntries`, `Sufficiency`, `ComparisonLimits`, `AgenticLoop`, `FallbackChoice`, `FinalDecision` | the bounded retrieval loop, its stopping rule, and the merge of its attempts |
| `Chunker` | overlapping token windows over structural segments |
| `RateLimiter`, `LimiterCapacity` | the login rate limiter as a cache of the full failure history, and what its bounded number of keys makes it forget |
| `VectorStore`, `ConsistencySweep` | the in-memory point store, paging through it, and the sweep that compares it with the database |
| `Batches`, `Indexing`, `Ingest` | batched embedding and indexing with calls and requests that fail, and the ingest handler with its chunk rows and its cleanups |
| `ContextPacking`, `Citations`, `AnswerCitations`, `Confidence` | the context handed to the generator, citation markers, both put together from raw answer to cited items, and the confidence composite |

Code that runs step by step is a method, proved equal to a function or to a predicate that
does not mention the steps; the lemmas are about that function or predicate. The parties the
backend does not control (planner, retriever, generator, JSON decoder, regular expressions,
`str.lower`, the clock) are arbitrary inputs, restricted only where a `requires` says so.

Eight results are about where the code does not do what it is for; each comes with the exact
condition under which it does.

- `str.lower` can lengthen a text (U+0130 lowers to two characters), and the direct search then
  reports offsets of the lowered text. A text, or a needle, is searched correctly for all
  partners if and only if lowering keeps its length (`SpanLimits`), and a chunk is grounded
  right for all payloads under the same condition (`GroundingLimits.SafeChunks`).
- Comparison questions: one more retrieval attempt can make sufficient context insufficient. It
  cannot if and only if the settings let no context suffice at all: top_k or rerank_top_n below
  2, or a minimum that top_k or rerank_top_n cannot reach
  (`ComparisonLimits.ComparisonStaysSufficient`). For all other questions it never can.
- The first sufficiency decision is taken on the list as retrieved, but the merged list is
  returned. The decision holds for the returned candidates if and only if dropping repeats and
  cutting at top_k leaves enough of them (`FinalDecision.FirstDecisionStands`).
- A scroll misses points if the point it is to resume at is deleted: it ends there, and of the
  points stored throughout it has returned exactly those before the lost one
  (`VectorStore.ScrollExact`). A consumer that deletes only points of the page just received, as
  the consistency sweep does, keeps the point to resume at (`VectorStore.SweepKeepsOffset`).
- The consistency sweep stops after max_points points, and its next run starts from the first
  point again. With nobody else writing, a run scans a point if and only if fewer than max_points
  points have smaller ids, so it scans all of them if and only if there are at most max_points
  (`ConsistencySweep.SweepCompleteIff`). However often it runs, again with nobody else writing, it
  gets to a point if and only if fewer than max_points points before it are kept
  (`ConsistencySweep.ScannedIff`).
- The login limiter evicts the least recently seen keys beyond max_keys, locked or not, and checks
  create keys as failures do. All checks of all runs over at most K keys answer by the failures
  since the last reset if and only if K is at most max_keys (`LimiterCapacity.AnswersIfRoom`).
- A Medium confidence comes with Medium retrieval support if and only if the Medium threshold is
  not zero, which the configuration allows it to be (`Confidence.MediumScoresAreMedium`).
- The returned confidence is rounded after the label is chosen, so it can read as High while the
  label says otherwise: exactly when groundedness and support are high and the composite of the
  signals lies less than half a millionth below the first millionth at the threshold, or at half
  with that millionth even (`Confidence.LabelDisagreesByRounding`).

## Model

| member | source | states |
|---|---|---|
| SpanSearch.FindDirectSpan | backend/app/graph/llm_extraction.py:772-786 | The verbatim or lower-cased search returns the first match of the (lowered) needle whose raw slice has token boundaries, as the scan `DirectSpan` does; a boundary check past the end of the text is an exception |
| SpanSearch.NormalizedTextWithOffsets | backend/app/graph/llm_extraction.py:806-823 | The character loop yields the collapsed, stripped text and for each of its characters the raw offset it came from |
| SpanSearch.NormalizedIsTidy | backend/app/graph/llm_extraction.py:806-823 | The normalised text starts and ends with no blank and has no two in a row |
| SpanSearch.FindNormalizedSpan | backend/app/graph/llm_extraction.py:789-803 | The search in the normalised copy, mapped back through the offsets, is the scan `NormalizedSpan` |
| SpanSearch.FindSpan | backend/app/graph/llm_extraction.py:757-769 | The five searches in their order give `Span`, the function the theorems below are about |
| SpanSearch.KeptAt | backend/app/graph/llm_extraction.py:806-823 | The k-th offset points at the raw character behind the k-th normalised one, with exactly k normalised characters before it |
| SpanSearch.KeptIncreases | backend/app/graph/llm_extraction.py:806-823 | The offset map is strictly increasing |
| SpanSearch.WindowPullsBack | backend/app/graph/llm_extraction.py:789-803 | Every window of the normalised text that starts and ends visibly is the collapsed form of the raw slice its offsets delimit |
| SpanSearch.SlicePushesForward | backend/app/graph/llm_extraction.py:789-803 | Conversely every raw slice with visible ends is such a window of the normalised text |
| SpanSearch.SpanMeetsPromise | backend/app/graph/llm_extraction.py:757-842 | Where lowering keeps lengths, a returned span lies in the text, equals the needle up to blanks and case and stands alone as a token; None means the text has no such place; nothing is raised |
| SpanSearch.SpanExact | backend/app/graph/llm_extraction.py:757-842 | Where lowering keeps the lengths of text and needle, and for a needle without NUL, as the extractor passes it, a span comes back if and only if the text mentions the needle somewhere |
| SpanChoice.SpanIsFirst | backend/app/graph/llm_extraction.py:757-842 | Where lowering keeps the lengths of text and needle, the span is the leftmost place of the first reading that occurs: the stripped needle verbatim as a token, then but for case, the same two for the needle with its blanks collapsed, then the leftmost shortest place that equals it but for case and blanks; None if there is none of them |
| SpanLimits.SafeTexts | backend/app/graph/llm_extraction.py:772-803 | A text is searched correctly for every ordinary needle if and only if lowering it keeps its length |
| SpanLimits.SafeNeedles | backend/app/graph/llm_extraction.py:772-803 | A needle is searched for correctly in every ordinary text if and only if lowering it keeps its length |
| SpanLimits.DottedCapitalOverruns | backend/app/graph/llm_extraction.py:772-786 | In the one-character text U+0130 the needle "i" + U+0307 is reported at (0, 2), past the end |
| EvidenceSpan.SentenceIsLargest | backend/app/graph/llm_extraction.py:885-928 | The fallback sentence contains the position, has no sentence marker except possibly as its last character, and contains every other stretch with these properties |
| EvidenceSpan.ContainsRefExact | backend/app/graph/llm_extraction.py:949-951 | Where lowering keeps the slice's length, a slice covers an endpoint by name exactly when it mentions one of its refs |
| EvidenceSpan.EvidenceExact | backend/app/graph/llm_extraction.py:885-951 | Where lowering keeps the lengths of text and quotation, the evidence is the quotation if the text has it, else the sentence around the earlier mention; it is in bounds and is returned exactly when both endpoints are mentioned in it or named in it |
| EntityRefs.StoreEntityRef | backend/app/graph/llm_extraction.py:954-965 | Storing a ref turns a table that records some holders into one that records one more holder; other refs are untouched |
| EntityRefs.BuildTables | backend/app/graph/llm_extraction.py:438-446 | Although aliases are filtered against a half-built exact table, in the end the exact table records all exact holders and, for a ref nobody holds exactly, the alias table records all alias holders |
| EntityRefs.ResolveIsDenoted | backend/app/graph/llm_extraction.py:968-980 | Looking a ref up in the tables gives what it denotes by its holders |
| EntityRefs.DenotedExact | backend/app/graph/llm_extraction.py:968-980 | A ref resolves to key k if and only if all its exact holders have key k or, with none, all its alias holders do; otherwise to nothing |
| EntityRefs.DenotedIsLastHolder | backend/app/graph/llm_extraction.py:954-980 | The entity behind a ref, whose span and names decide the evidence, is the last one that holds it exactly, if all of these have its key; if nobody holds it exactly, the last that holds it as alias, if all of these have its key |
| EntityRefs.OrderIrrelevant | backend/app/graph/llm_extraction.py:438-446 | Reordering or repeating the entities does not change the key that any ref resolves to |
| EntityRefs.OrderIrrelevantIff | backend/app/graph/llm_extraction.py:954-980 | The entity behind a ref, whose span and names decide the evidence, is the same in every order if and only if the holders that decide are one entity or disagree about the key |
| Grounding.GroundEntities | backend/app/graph/llm_extraction.py:331-423 | The loop over raw entities, with its skips, its cap, its exceptions and its dedupe set, is `Entities` |
| Grounding.GroundRelations | backend/app/graph/llm_extraction.py:425-521 | The loop over raw relations, with its tables, skips, cap, exceptions and dedupe set, is `Relations`, in which names are resolved by holders and not by tables |
| Grounding.RelationsIgnoreOrder | backend/app/graph/llm_extraction.py:425-521 | When no two grounded entities share a key, their order does not change the relations that are emitted |
| EmittedRelations.RelationsExact | backend/app/graph/llm_extraction.py:425-521 | Where lowering keeps the lengths of the text and the quoted evidence, and the entities are places of the text, the relations emitted are those that the raw ones state: from the entity the raw source stands for to the one the raw target stands for, with different keys, its type, its confidence if high enough, and its evidence; in order, of equal triples the first, up to the cap; none is left out, and it raises at the first unreadable confidence of a raw relation between two such entities |
| Collecting.CollectExact | backend/app/graph/llm_extraction.py:340-423 | What such a loop delivers: the accepted items in input order, of equal ones the first, stopping exactly at the end of the input, at the cap, or at an item that raises |
| EntityNames.GroundAliases | backend/app/graph/llm_extraction.py:845-865 | The alias loop, with its skips, its dedupe set and its break at 32, is `GroundedAliases` |
| EntityNames.AliasesAreGrounded | backend/app/graph/llm_extraction.py:845-865 | Where lowering keeps the lengths of the chunk's text and the proposed aliases, every alias kept is the checked form of a proposed one that the chunk mentions; no two are alike but for case; at most 32 |
| EntityNames.CanonicalNameIsGrounded | backend/app/graph/llm_extraction.py:868-882 | The canonical name is the mention, or has the key of the mention or of a kept alias |
| EmittedEntities.AliasesExact | backend/app/graph/llm_extraction.py:845-865 | Where lowering keeps the lengths of the text and the proposed aliases, the aliases kept are the checked forms of the proposed ones that the text mentions, in order, of those alike but for case the first, up to 32, and none is left out |
| EmittedEntities.EntitiesExact | backend/app/graph/llm_extraction.py:331-423 | Where lowering keeps the lengths of the text, the mentions and the aliases, the entities emitted are those that the raw ones name, with the type, key, label, place, text, confidence, names and aliases each leads to; in order, of those with the same key and place the first, up to the cap; none is left out, and it raises at the first unreadable confidence of a raw entity that is mentioned |
| GroundedChunk.EntitiesAreGrounded | backend/app/graph/llm_extraction.py:331-423 | Where lowering keeps the lengths of the chunk's text, the mentions and the aliases, every emitted entity is an occurrence in the chunk of a mention the LLM named, at sufficient confidence; no two share key and span; at most the cap; only an unreadable confidence makes the payload invalid |
| GroundedChunk.RelationsAreGrounded | backend/app/graph/llm_extraction.py:425-521 | Where lowering keeps the lengths of the chunk's text and the quoted evidence, every emitted relation joins two different keys of grounded entities of that chunk, in a slice of the chunk that anchors both; no (source, target, type) twice; only an unreadable confidence makes the payload invalid |
| Grounding.GroundChunk | backend/app/graph/llm_extraction.py:316-329 | The payload checks, then the entities, then the relations give `ChunkFrom` |
| GroundedChunk.ChunkIsGrounded | backend/app/graph/llm_extraction.py:316-329 | Where lowering keeps the lengths of the chunk's text and the payload's strings, one payload end to end: grounded entities, then relations between exactly those; nothing crashes, and it is unreadable only for a field that is no array or an unreadable confidence |
| GroundingLimits.SafeChunks | backend/app/graph/llm_extraction.py:316-423 | For a text without NUL: every payload of clean strings is grounded right, none of it raising or leaving ungrounded, if and only if lowering keeps the text's length |
| GroundedChunk.RefKeyIsRefKey | backend/app/graph/llm_extraction.py:1028-1039 | A ref key is lower case and free of NUL, which is what the evidence search needs of it |
| LlmJson.ThinkBlockSpans | backend/app/graph/llm_extraction.py:644-654 | The spans are in order and disjoint, each runs from an opening tag to behind the next closing tag or to the end, and no opening tag lies outside them |
| LlmJson.ThinkBlocksUnique | backend/app/graph/llm_extraction.py:644-654 | There is only one list of spans like that |
| LlmJson.JsonObjectCandidates | backend/app/graph/llm_extraction.py:619-641 | Candidates have increasing disjoint ranges, none starts inside a think span, each is a decodable object, and every decodable `{` outside the spans starts one or lies inside one |
| LlmJson.CandidatesUnique | backend/app/graph/llm_extraction.py:619-641 | There is only one list of candidates like that |
| LlmJson.ChoosePayload | backend/app/graph/llm_extraction.py:598-612 | The choice is the last candidate of the highest payload score, else the first candidate, else none |
| LlmJson.ChoiceUnique | backend/app/graph/llm_extraction.py:598-612 | That determines the choice |
| LlmJson.ParseLlmJson | backend/app/graph/llm_extraction.py:592-616 | Blank content is an empty response; otherwise the result is the choice among the candidates of the content without its code fence, and an invalid response exactly when there are none |
| LlmJson.ParseUnique | backend/app/graph/llm_extraction.py:592-616 | The text of a reply determines what is parsed from it |
| LlmJson.FenceIsTransparent | backend/app/graph/llm_extraction.py:615-616 | A fenced body is read as the bare body |
| GraphExtraction.ExtractChunk | backend/app/graph/llm_extraction.py:230-289 | A chunk costs one call, and a second one exactly when the first reply was no usable JSON; the last call decides the outcome; the totals grow by the usage of every call that returned some and by the time of every call, whatever comes of it |
| GraphExtraction.ReplyDecides | backend/app/graph/llm_extraction.py:230-289 | The outcome of a chunk for every kind of last reply: a provider error about login, rate, connection or time aborts the run, a time-out with the code "failed" and the others with "unavailable"; any other provider error or a broken call fails the chunk |
| GraphExtraction.Extract | backend/app/graph/llm_extraction.py:178-213 | A completed run returns the in-order mentions and relations of the successful chunks, the failures by reason, and as many retries as calls beyond one per chunk; it raises exactly on a provider failure that concerns the whole document or when every chunk failed, then with the dominant reason |
| GraphExtraction.CallsInOrder | backend/app/graph/llm_extraction.py:178-289 | Which calls a run makes: one for each chunk in turn, and directly behind it a second one exactly where no JSON object could be read from the first reply |
| GraphExtraction.CallsAreBounded | backend/app/graph/llm_extraction.py:230-289 | n chunks cost between n and 2n calls |
| GraphExtraction.FailuresAddUp | backend/app/graph/llm_extraction.py:178-213 | The failed count is the sum of the reason counts |
| GraphExtraction.FailuresAreCounted | backend/app/graph/llm_extraction.py:178-213 | The count of a reason is the number of chunks that failed for it |
| GraphExtraction.UsageAddsUp | backend/app/graph/llm_extraction.py:230-289 | A fresh accumulator ends with the sum of each number over the calls that reported it, failed parses included, and with the time of all calls, never counted negative |
| GraphExtraction.SuccessesContribute | backend/app/graph/llm_extraction.py:178-213 | A successful chunk contributes all it found, right behind the chunks before it |
| GroundedRun.ReadReply | backend/app/graph/llm_extraction.py:242-245 | From the text of a reply to mentions and relations, or to the failure: parse, then ground the payload parsed |
| GroundedRun.RunIsGrounded | backend/app/graph/llm_extraction.py:178-213 | Where lowering keeps the lengths of the chunks' texts and the payloads' strings, every mention and relation a run returns lies at the place of a chunk that succeeded and is grounded in that chunk's text, relations between mentions of that chunk |
| GraphExtraction.DominantFailureReason | backend/app/graph/llm_extraction.py:751-754 | The reason returned has the highest count and, among those, the first code |
| GraphExtraction.RankIsCodeOrder | backend/app/graph/llm_extraction.py:751-754 | One reason ranks before another if and only if its code comes first as a string |
| CandidateMerge.MergePayloads | backend/app/rag/agentic.py:622-639 | Score keys keep the higher number, other keys the left value unless it is missing or None |
| CandidateMerge.MergeDedupeCandidates | backend/app/rag/agentic.py:557-608 | The nested loops over attempts and candidates give `Merge`, the function the theorems below are about |
| CandidateMerge.MergeIsTop | backend/app/rag/agentic.py:557-608 | The result has distinct chunk ids, each with its highest score over all attempts, by score descending and id ascending, ranks from 1, length min(limit, distinct ids), and everything left out is worse |
| CandidateMerge.TopUnique | backend/app/rag/agentic.py:557-608 | That determines the (id, score) list |
| CandidateMerge.MergeIgnoresOrder | backend/app/rag/agentic.py:557-608 | The (id, score) list depends only on the set of pairs returned, not on the order of attempts or candidates |
| CandidateMerge.MergeIncrementally | backend/app/rag/agentic.py:557-608 | Merging an already truncated merge with one more attempt at the same limit gives the list that merging everything gives |
| CandidateMerge.EntryIsFolded | backend/app/rag/agentic.py:563-588 | What is collected for a chunk is made from the occurrences of that chunk, in order |
| CandidateMerge.MergedWasReturned | backend/app/rag/agentic.py:557-608 | Every merged candidate is one that some attempt returned, but for rank and payload |
| MergedEntries.MergedExact | backend/app/rag/agentic.py:557-639 | Every merged candidate, on what the attempts returned for its chunk: the first with the highest score, ranked by its position; its payload has every key that was reported, with the highest number (else the last value) under a score key and the first value that is not None under any other |
| CandidateMerge.EntryKeepsFirstBest | backend/app/rag/agentic.py:611-619 | The candidate kept is the first one with the highest score |
| CandidateMerge.EntryRemembersAll | backend/app/rag/agentic.py:622-639 | An entry names exactly the attempts that returned its chunk and holds the highest number reported under each score key |
| Sufficiency.Check | backend/app/rag/agentic.py:174-236 | The chain of checks gives `Decide`, the function that the rows below are about |
| Sufficiency.DecisionExact | backend/app/rag/agentic.py:174-236 | One reason code for every condition that fails, in the fixed order, and the code for sufficient alone when none does; the score is 0.35, 0.25, 0.3 and 0.1 for the conditions met; the top score is the highest, the diversity the number of documents among the selected |
| Sufficiency.FullScoreMeansSufficient | backend/app/rag/agentic.py:174-236 | With positive minimums the score is 1 exactly when the decision is sufficient, and the code says so exactly then |
| Sufficiency.MoreStaysSufficient | backend/app/rag/agentic.py:174-236 | Except for comparisons, a merged set that suffices still suffices after any further attempt at the same top_k and rerank_top_n |
| Sufficiency.ComparisonCanRegress | backend/app/rag/agentic.py:174-236 | For a comparison a further attempt can take sufficiency away (concrete attempts) |
| ComparisonLimits.ComparisonStaysSufficient | backend/app/rag/agentic.py:174-236 | For a comparison, sufficiency survives every further attempt if and only if top_k < 2, rerank_top_n < 2, min_candidates > top_k or min_selected > min(top_k, rerank_top_n) |
| ComparisonLimits.CrowdFillsMerge | backend/app/rag/agentic.py:557-608 | Chunks that outscore everything else fill the merge on their own |
| AgenticLoop.Execute | backend/app/rag/agentic.py:250-363 | The loop terminates and gives `Run`; its branch that skips an attempted family is never taken |
| FallbackChoice.RunIsRight | backend/app/rag/agentic.py:250-403 | For every planner and retriever: the loop stops early only when the context suffices, the planner ends it, the calls or fallbacks are used up, or no configured strategy of a family not attempted is left; it says that the budget is exhausted exactly in the latter two cases, and gives a reason for its fallbacks unless the planner ended it; every request of a fallback is for the strategy of the next row |
| FallbackChoice.RoundExact | backend/app/rag/agentic.py:365-510 | What one round of the loop asks for: in llm mode the strategy the planner names if that is open, else hybrid if open, else the configured dense fallback if open; whether the planner ends the loop, and what is recorded of it |
| FallbackChoice.AvailableAreOpen | backend/app/rag/agentic.py:471-510 | The strategies offered to the planner are, in this order, hybrid and the configured dense fallback, each when the settings enable it and no attempt was of its family |
| AgenticLoop.NextIsFresh | backend/app/rag/agentic.py:365-494 | Whatever the planner says, the next strategy is a configured fallback of a family not attempted yet |
| AgenticLoop.RunIsSafe | backend/app/rag/agentic.py:250-363 | For every planner and retriever: at most min(3, max_calls) retrievals and max_fallback_calls fallbacks, one decision per attempt with all but the last insufficient, and exactly one of sufficient, budget exhausted, planner finalised |
| AgenticLoop.FamiliesDiffer | backend/app/rag/agentic.py:743-756 | With a retriever that reports the strategy it was asked for, no execution family is attempted twice |
| FinalDecision.FirstDecisionStands | backend/app/rag/agentic.py:272-292 | A sufficient decision on the retrieved list holds for the merged list if and only if enough distinct chunks are left at top_k, enough of them are selected and, for a comparison, the best of them come from two documents |
| FinalDecision.LastDecisionIsFinal | backend/app/rag/agentic.py:250-363 | With a fallback the last decision is the decision on the returned candidates; without one, that condition decides |
| FinalDecision.FirstDecisionCanFall | backend/app/rag/agentic.py:272-292 | One chunk retrieved twice counts as two candidates at first and as one when merged |
| AgenticLoop.UselessPlannerChangesNothing | backend/app/rag/agentic.py:365-469 | A planner whose replies are always missing, failed or rejected gives the run of rule-based mode, except for the planner events |
| Chunker.DocumentTokens | backend/app/ingest/chunking.py:152-165 | The tokens are the words of the normalised page texts, each with its page's number, title and metadata |
| Chunker.TokenSegments | backend/app/ingest/chunking.py:179-194 | The loop gives `Segments` |
| Chunker.KeyIsUnit | backend/app/ingest/chunking.py:198-211 | Two tokens have the same boundary key if and only if both lack a parent key, or both have the same one, the same structure type and, in an Excel sheet, the same table index or none |
| Chunker.SegmentsAreSegments | backend/app/ingest/chunking.py:179-211 | The segments concatenate to the tokens, none is empty, each lies within one structural unit (same parent, structure type and table), and neighbours are of different units |
| Chunker.ChunkSegment | backend/app/ingest/chunking.py:70-99 | The window loop over one segment appends exactly the chunks of its windows |
| Chunker.ChunkDocument | backend/app/ingest/chunking.py:63-103 | Chunking gives one chunk for every window of every segment, numbered from 0, or the error when there is none |
| Chunker.ContentReadsBack | backend/app/ingest/chunking.py:74-76 | Re-tokenising a chunk's text gives back exactly its window |
| Chunker.GuardHolds | backend/app/ingest/chunking.py:75-76 | The guard on the normalised text never drops a window |
| Chunker.ChunkingRoundTrip | backend/app/ingest/chunking.py:63-103 | The first (size - overlap) words of the chunk texts, in index order, are the words of the raw pages; there is no chunk exactly when the pages have no words |
| Chunker.WindowCount | backend/app/ingest/chunking.py:70-99 | A segment of length L yields ceil(L / step) chunks |
| Chunker.ChunksAreWindows | backend/app/ingest/chunking.py:63-103 | Each chunk is that of one window of one structural unit: its words joined by blanks, their number, between 1 and size, its length, its first title and the range of its pages |
| Chunker.ChunkAt | backend/app/ingest/chunking.py:63-105 | Which tokens each chunk has: the k-th one of a segment those from k * (size - overlap) on, size of them or as many as are left |
| RateLimiter.LoginRateLimiter.CheckAllowed | backend/app/core/security.py:74-83 | A check is a step of the limiter: the entry is touched and trimmed, or refused while locked |
| RateLimiter.LoginRateLimiter.RecordFailure | backend/app/core/security.py:85-95 | A failure is a step of the limiter: prune, trim, append, and lock on a full window; at most max_keys + 1 entries remain |
| RateLimiter.LoginRateLimiter.Prune | backend/app/core/security.py:103-124 | Pruning removes exactly the stale entries and, beyond max_keys, exactly as many others as needed, none of them seen later than one that stays |
| RateLimiter.LoginRateLimiter.ResetKey | backend/app/core/security.py:97-98 | A reset is a step of the limiter: exactly the entry of the key is gone |
| RateLimiter.LoginRateLimiter.ResetEverything | backend/app/core/security.py:100-101 | A reset of everything leaves no entry |
| RateLimiter.PrunedFits | backend/app/core/security.py:103-124 | After pruning at most max_keys entries are left, unchanged, and whatever else went was stale |
| RateLimiter.ChecksAnswerTheHistory | backend/app/core/security.py:74-124 | In every run under a clock that does not go back, a check says no exactly when some failure since the key was last reset, or evicted by overflow, completed a window of max_attempts failures and is less than lock_seconds old |
| RateLimiter.PruneInStep | backend/app/core/security.py:103-124 | Pruning is invisible to every key that overflow does not evict |
| RateLimiter.UnevictedHistory | backend/app/core/security.py:85-101 | For a key that overflow never evicts that history is read off the calls alone |
| LimiterCapacity.AnswersIfRoom | backend/app/core/security.py:74-124 | All checks of all runs over at most K keys, reset and evicted or not, answer by the failures since the last reset alone, if and only if K is at most max_keys |
| LimiterCapacity.ForgottenLock | backend/app/core/security.py:103-124 | For every configuration there is a run over at most max_keys + 1 keys at whose end a check lets a key in that its failures since the last reset lock |
| LimiterCapacity.RoomForAll | backend/app/core/security.py:74-124 | While checks and failures use at most max_keys keys nothing is evicted, and every check answers by the failures since the last reset |
| VectorStore.InMemoryClient.UpsertPoints | backend/app/ingest/qdrant.py:298-305 | Later points replace earlier ones with the same id; other collections are untouched; a failure changes nothing |
| VectorStore.InMemoryClient.DeletePoints | backend/app/ingest/qdrant.py:307-312 | Exactly the given ids are gone |
| VectorStore.InMemoryClient.SetPayloadByPointIds | backend/app/ingest/qdrant.py:335-347 | The payloads of exactly the given points are updated |
| VectorStore.InMemoryClient.SetPayloadByDocumentVersion | backend/app/ingest/qdrant.py:322-333 | The payloads of exactly the points of the version are updated |
| VectorStore.PayloadUpdateKeepsPoints | backend/app/ingest/qdrant.py:335-347 | A payload update keeps all points, vectors and scroll pages, leaves other points alone, and changes nothing the second time |
| VectorStore.SyncThenDelete | backend/app/ingest/qdrant.py:314-333 | Deleting a version's points comes to the same after an update of their payloads if and only if the update keeps the version or there are no such points |
| VectorStore.SyncedExact | backend/app/ingest/qdrant.py:545-560 | What the service writes: the two statuses and the active flag into the payload of every point of the version; all other keys, points and vectors stay |
| VectorStore.SyncedThenDeleted | backend/app/ingest/qdrant.py:545-560 | The payload that the service writes never changes which points are deleted with their version |
| VectorStore.InMemoryClient.ScrollPoints | backend/app/ingest/qdrant.py:349-374 | A page is the slice of the ascending ids that starts at the offset, with the id behind it as next offset |
| VectorStore.PageHolds | backend/app/ingest/qdrant.py:349-374 | A page holds exactly the ids from its offset up to the next offset |
| VectorStore.ScrollExact | backend/app/ingest/qdrant.py:349-374 | Whatever is upserted and deleted between the pages: ids come in strictly ascending order, and a point stored throughout is received if and only if the last point to resume at was still there or it comes before that lost point |
| VectorStore.ScrollIsComplete | backend/app/ingest/qdrant.py:349-374 | If the last point to resume at was still there, every point stored throughout is received, for any limit >= 1 |
| VectorStore.SweepIsComplete | backend/app/ingest/qdrant.py:349-374 | A scroll that is read to the end, with any upserts between the pages and deletes only of points of the page just received: every point present at the start is received, each id once, ascending |
| VectorStore.SweepReceives | backend/app/ingest/qdrant.py:349-374 | The same scroll stopped after any page: a point present at the start is received if and only if it comes before the point to resume at |
| VectorStore.ScrollCanLose | backend/app/ingest/qdrant.py:358-367 | Three points, pages of one: the second is deleted and the third is never returned |
| VectorStore.PageCount | backend/app/ingest/qdrant.py:349-374 | Undisturbed, a scroll over n points takes max(1, ceil(n / limit)) pages |
| VectorStore.LostOffsetEndsScroll | backend/app/ingest/qdrant.py:358-367 | If the point to resume at is gone the page is empty and the scroll is over, and a page at an offset is empty only then |
| VectorStore.SweepKeepsOffset | backend/app/workers/handlers/qdrant_consistency_sweep_handler.py:99-110 | A consumer that deletes only points of the page just received keeps the point to resume at |
| ConsistencySweep.ProcessBatch | backend/app/workers/handlers/qdrant_consistency_sweep_handler.py:127-244 | The points of a page that are to be deleted are gone, those to be repaired are marked inactive, all else is as before; after a failure some of them have been dealt with and nothing else changed |
| ConsistencySweep.Sweep | backend/app/workers/handlers/qdrant_consistency_sweep_handler.py:92-125 | With nobody else writing, a run deals with exactly the max_points first points, for every batch size; if the store fails, with some of these and no others |
| ConsistencySweep.SweepExact | backend/app/workers/handlers/qdrant_consistency_sweep_handler.py:99-110 | With others upserting meanwhile: at most max_points points are scanned, ids ascending, and of those stored at the start exactly the ones before the place where the run stopped |
| ConsistencySweep.SweepReaches | backend/app/workers/handlers/qdrant_consistency_sweep_handler.py:99-110 | With nobody else writing, a point is scanned if and only if fewer than max_points points stored at the start have smaller ids, whatever the run deletes |
| ConsistencySweep.SweepCompleteIff | backend/app/workers/handlers/qdrant_consistency_sweep_handler.py:99-110 | Such a run scans every point if and only if there are at most max_points |
| ConsistencySweep.ScannedIff | backend/app/workers/handlers/qdrant_consistency_sweep_handler.py:99-110 | Over repeated runs, with nobody else writing and verdicts that a repair does not turn into or out of a deletion, some run gets to a point if and only if fewer than max_points points with smaller ids are not to be deleted |
| ConsistencySweep.CapHidesTheRest | backend/app/workers/handlers/qdrant_consistency_sweep_handler.py:99-110 | Three points that are kept and max_points 2: no run ever scans the third, with nobody else writing |
| Indexing.EmbedChunks | backend/app/ingest/embedding.py:304-327 | Embedding in batches, when any call may raise or return a wrong number of vectors, is `EmbedInBatches`; the second validation of the whole list never fails |
| Indexing.BatchesDoNotShow | backend/app/ingest/embedding.py:304-327 | When every call answers, vectors and errors are those of embedding all texts at once, for every batch size; embedding succeeds only then |
| Indexing.CallDecides | backend/app/ingest/embedding.py:304-327 | The first call that does not answer gives the error when no vector before its batch is faulty |
| Indexing.FaultDecides | backend/app/ingest/embedding.py:304-327 | A faulty vector gives the error when all calls up to its batch answer, whatever later ones would do |
| Indexing.EmbedFailsBecause | backend/app/ingest/embedding.py:304-399 | For chunks with text, the error of a failure with its code: of the first vector with a wrong dimension or a component that is not finite, when all calls up to it answered, or of the first call that did not answer, when all vectors before it are usable |
| Indexing.EmbeddingSucceeds | backend/app/ingest/embedding.py:374-399 | Embedding everything succeeds exactly when there are chunks, all with text, and every vector has the right dimension and finite components |
| Indexing.QdrantVectorStore.Upsert | backend/app/ingest/qdrant.py:404-423 | A success leaves the store upserted with all points, for every batch size; each error has its exact condition; a failure, at whatever batch, leaves it upserted with exactly the batches that arrived, and unchanged when it comes before the first request |
| Indexing.ArrivedExact | backend/app/ingest/qdrant.py:404-423 | What arrived is settled by the fate of the requests and is whole batches; it is everything exactly if no request failed but perhaps the last one by a lost answer |
| Indexing.QdrantVectorStore.Cleanup | backend/app/ingest/qdrant.py:425-434 | Deletes the given ids or, with none, the points of the document version; a refused request deletes nothing, one whose answer is lost deletes and fails |
| Indexing.QdrantVectorStore.EnsureCollection | backend/app/ingest/qdrant.py:389-402 | The outcome for every state of the collection, with its error code; no points change |
| Indexing.IndexChunks | backend/app/ingest/qdrant.py:503-532 | The outcome with its error code is that of the first step that fails; a success leaves the old store overridden by the document's points, for every embedding and upsert batch size; a failure leaves it overridden by the batches that had arrived |
| Indexing.IndexingSucceeds | backend/app/ingest/qdrant.py:503-532 | Indexing succeeds if and only if there are chunks, all with text and a positive id, every call answers, every vector has the right dimension and finite components, the collection is there or can be made and every upsert is delivered; which error comes first otherwise |
| Indexing.IndexedPoints | backend/app/ingest/qdrant.py:503-532 | Id by id: the embedding of the text and the payload of the last chunk with that id, and nothing else changed |
| Indexing.CleanupAfterIndexing | backend/app/ingest/qdrant.py:534-543 | Cleaning up with the same ids, after all points or any first part of them arrived, leaves the store before indexing without those ids |
| Ingest.CleanupPoints | backend/app/ingest/qdrant.py:534-543 | Removes exactly the given points; refuses an id that is not positive before it asks the store |
| Ingest.FailVersion | backend/app/workers/handlers/document_ingest_handler.py:587-661 | A failing run removes the points of the version's chunks and then their rows, the rows only if the removal is known to have worked; no point is left without a row and other versions are untouched |
| Ingest.EmbedIndexAndFinalize | backend/app/workers/handlers/document_ingest_handler.py:461-529 | Indexing, marking ready and cleaning up after either fails: a success leaves all points, a failure whose cleanup works no rows; no point is ever left without a row |
| Ingest.CleanupExisting | backend/app/workers/handlers/document_ingest_handler.py:299-353 | The earlier chunks' points go before their rows; the run goes on only with both gone |
| Ingest.Ingest | backend/app/workers/handlers/document_ingest_handler.py:152-208 | Wherever a run fails or loses its lease: no point is newly left without a chunk row, other versions keep rows and points, a success replaces the version's chunks and points, and a failure whose cleanup works leaves no chunk rows of it |
| Ingest.ReplacedIs | backend/app/workers/handlers/document_ingest_handler.py:152-208 | After a success every chunk has its row and, as point, its embedding and payload; nothing of the version's earlier chunks is left, however earlier runs ended; all else is as it was |
| Ingest.NoOrphansEver | backend/app/workers/handlers/document_ingest_handler.py:134-208 | Over any number of runs of any versions, however they end, no point is ever without a chunk row |
| Ingest.OthersKeep | backend/app/workers/handlers/document_ingest_handler.py:134-208 | Over any number of runs a version that none of them is about keeps its rows and its points |
| Citations.NormalizeIdempotent | backend/app/rag/citations.py:118-120 | Normalising a normalised answer changes nothing |
| Citations.NormalizeKeepsMarkers | backend/app/rag/citations.py:118-120 | The normalised answer has the `[n]` markers of the raw content, in the same order |
| Citations.MatchesExact | backend/app/rag/citations.py:48-58 | The matches are exactly the stretches `[`, digits, `]` of the text, in order and disjoint |
| Citations.ParsedMarkersAreRaw | backend/app/rag/citations.py:45-64 | The slices of the answer at the reported offsets are, in order, all the stretches `[`, digits, `]` of the raw content |
| Citations.ParseGenerationOutput | backend/app/rag/citations.py:45-64 | Parsing fails exactly when a marker has more than six digits; otherwise it reports the offsets and the decimal value of every match, and the distinct values |
| Citations.NumberIsPlaceValue | backend/app/rag/citations.py:50-58 | Reading the digits one by one gives the sum of each digit times its power of ten |
| Citations.NumberRoundTrip | backend/app/rag/citations.py:50-58 | A number written in decimal is read back, with leading zeros too |
| Citations.UniqueInOrderOf | backend/app/rag/citations.py:106-115 | The loop with its set gives `UniqueInOrder` |
| Citations.UniqueExact | backend/app/rag/citations.py:106-115 | Each value once, ordered by where it first appears |
| Citations.TextOutsideMarkers | backend/app/rag/citations.py:74-75 | Nothing is left without the markers exactly when every visible character lies in one |
| Citations.IndexSources | backend/app/rag/citations.py:80-93 | The loop over the sources fails exactly when an id is not positive or repeated, and otherwise maps each id to its source and finds the largest id |
| Citations.ValidateGenerationCitations | backend/app/rag/citations.py:67-103 | Validation succeeds exactly when there is a marker, there is other text, source ids are positive, distinct and not none, and every marker id is a source id; each refusal has its exact condition |
| Citations.CitedInOrder | backend/app/rag/citations.py:103-115 | The cited sources are distinct, in the order of first appearance, and every cited number is among them |
| Confidence.RenormalizedMonotone | backend/app/rag/confidence.py:145-151 | For any weighted signals of fixed presence, no signal lowers the composite by getting stronger |
| Confidence.CompositeIsFlat | backend/app/rag/confidence.py:51-59 | With both scores present the composite is the flat weighted formula |
| Confidence.AbsentSignalIsIgnored | backend/app/rag/confidence.py:145-151 | An absent signal weighs nothing, wherever it stands in the list |
| Confidence.ClampIsIdle | backend/app/rag/confidence.py:94-98 | The composite lies within [0, 1] without the clamp |
| Confidence.CalculateExact | backend/app/rag/confidence.py:43-181 | All three returned values: the weighted mean of the signals that are present, capped just below the high threshold for support under 0.60 and just below the medium one under 0.30, up to half a millionth; the groundedness; and the label, by both thresholds and the support |
| Confidence.CoverageIsAllOrNothing | backend/app/rag/confidence.py:184-202 | Citation coverage is 1 with any citation and 0 without, whatever was selected |
| Confidence.ScoresWithinUnit | backend/app/rag/confidence.py:43-109 | Both returned scores lie within [0, 1] |
| Confidence.CalculateMonotone | backend/app/rag/confidence.py:43-142 | With presence of the scores fixed, both scores and the label rank are monotone in both top-1 scores, marker, citation and selected count |
| Confidence.HighScoresAreHigh | backend/app/rag/confidence.py:123-177 | A confidence at the high threshold implies support of at least 0.60, so the label is High exactly when confidence and groundedness are at their high thresholds |
| Confidence.MediumScoresAreMedium | backend/app/rag/confidence.py:167-181 | A confidence at the medium threshold implies support of at least 0.30, for all inputs, if and only if that threshold is above 0 |
| Confidence.RoundingIsSmall | backend/app/rag/confidence.py:105-109 | Rounding leaves groundedness as it is and moves the confidence by half a millionth at most |
| Confidence.LabelDisagreesByRounding | backend/app/rag/confidence.py:94-109 | The returned scores read as High under another label exactly when groundedness and support are high and the composite of the signals is below the high threshold but, by its distance to the first millionth there, rounds up to it; for thresholds on and off the grid of millionths |
| Confidence.RoundingCanDisagree | backend/app/rag/confidence.py:94-109 | At the default thresholds two scores of 0.642857 with one citation give 0.75 and Medium |
| ContextPacking.ContextItemsFromSearchItems | backend/app/evaluation/rag_service.py:1810-1846 | The loop with its remaining budget, skips and early stop is `Pack` |
| ContextPacking.PackedIsPrefix | backend/app/evaluation/rag_service.py:1810-1846 | The concatenated item texts are exactly the first min(budget, total) characters of the concatenated cleaned texts of the found chunks, and none for a budget of 0 or less |
| ContextPacking.PackExact | backend/app/evaluation/rag_service.py:1810-1846 | An item is packed exactly when it has text and the texts before it leave room, with strictly increasing numbers, its own fields and as much text as its room allows |
| ContextPacking.OnlyLastIsClipped | backend/app/evaluation/rag_service.py:1810-1846 | No item is empty and only the last one can be shorter than its cleaned chunk |
| ContextPacking.PromptSourcesAgree | backend/app/services/rag_service.py:4443-4451 | The sources kept for the prompt are one for each context item, in order, with the same number, chunk, label and pages |
| ContextPacking.PromptSourcesAreUsable | backend/app/evaluation/rag_service.py:831-843 | The citation check never refuses those sources themselves and accepts exactly the numbers of the context items |
| AnswerCitations.AnswerFrom | backend/app/evaluation/rag_service.py:831-880 | From raw answer and search items: accepted exactly when something was packed, the raw text has markers, none of more than six digits and all with the decimal value of a packed item, and text besides; it then cites the search items with these numbers, each once, in the order the raw text first names them |
| AnswerCitations.NormalizeKeepsText | backend/app/rag/citations.py:118-120 | The normalised answer has text besides its markers exactly when the raw one does |
| AnswerCitations.ParsedIsRaw | backend/app/rag/citations.py:45-64 | Parsing fails exactly when a raw marker is too long, and otherwise reports the numbers of the raw markers in order |
| ContextPacking.CleanKeepsWords | backend/app/evaluation/rag_service.py:1867-1868 | Cleaning keeps the words and is idempotent |
| ContextPacking.NamespaceFits | backend/app/evaluation/rag_service.py:1970-1980 | A namespace is at most 80 characters and ends with the whole suffix exactly when that fits |
| ContextPacking.NamespaceExact | backend/app/evaluation/rag_service.py:1970-1980 | The whole namespace: name and suffix if they fit into 80 characters, else the part of the name there is room for, its trailing separators dropped, with hash and suffix, else the end of hash and suffix |
| ContextPacking.CutKeepsHash | backend/app/evaluation/rag_service.py:1970-1980 | A namespace that does not fit ends with its hash and the suffix, as long as the suffix leaves room |
| ContextPacking.CutNamespacesDiffer | backend/app/evaluation/rag_service.py:1970-1980 | Two such namespaces differ whenever their hashes do |

## Left out

- SQLAlchemy sessions, migrations, HTTP, Bedrock, Neo4j and Qdrant network clients, and the internals of planner, retriever, LLM and embedding models: they enter as arbitrary inputs, or as the in-memory store.
- SpanSearch.SpanMeetsPromise: assumes that lowering keeps the lengths of text and needle; `SpanLimits` shows that this is exactly what correctness needs. The context-dependent lower case of the Greek final sigma is not modelled.
- SpanSearch.SpanExact: is stated for needles without NUL, which is what the text cleaner produces; for other needles `SpanMeetsPromise` says what holds.
- Grounding.GroundEntities: the label check, the label normaliser and `_confidence_decimal` are inputs; hashes and metadata dictionaries are left out, an item keeps the text that would be hashed.
- Grounding.GroundRelations: `_relation_type` is an input; `frozenset` iteration is a fixed sequence, and its order decides nothing that is proved.
- LlmJson.ParseLlmJson: the two regular expressions for think tags and `raw_decode` are inputs given per position; a recursion error of the decoder is not modelled.
- GraphExtraction.Extract: provider capabilities, request building and the metadata block are left out; the time an attempt takes is part of its reply.
- CandidateMerge.MergeDedupeCandidates: the `agentic_*` payload notes are represented by the set of source names; the result's `top_k` is a natural number, as the API validates it.
- Sufficiency.Check: the rounding of the score to six decimals changes none of its possible values and is left out.
- AgenticLoop.Execute: latency spans, token usage totals and trace dictionaries are left out.
- FinalDecision.FirstDecisionStands: for comparisons, assumes that one chunk id always comes with one document, as in the database.
- Chunker.ChunkDocument: chunk hashes, chunk metadata and `chunk_statistics` are left out; the inner loop is a method of its own, `ChunkSegment`.
- RateLimiter.LoginRateLimiter.Prune: among keys seen last at the same time overflow evicts any (the source takes the first inserted); entries are values in a map, so a reference held across calls is not modelled.
- RateLimiter.LoginRateLimiter.CheckAllowed: the key hash is the key, and the clock is a parameter that starts at 0 or later.
- VectorStore.InMemoryClient.UpsertPoints: payload dictionaries are values, so a payload shared by two stored points and updated in place is not modelled; offsets are integers.
- ConsistencySweep.Sweep: the verdict on a point (database lookups, payload checks, lease check) is an input, a function of its id and payload that is fixed during a run; the counters other than the scanned points are left out.
- Indexing.EmbedChunks: a call that answers does so pointwise, by a function of one text.
- Indexing.IndexChunks: payload building is an input.
- Indexing.QdrantVectorStore.Upsert: a batch is written whole or not at all, and a request whose answer is lost is not applied later.
- Ingest.Ingest: preparing the version, extraction and chunking yield an input; rows are the ids of the chunks with their versions, as a value; a failing read of those ids, statuses, metadata and graph jobs are left out; two workers on one version at once are not modelled.
- AnswerCitations.AnswerFrom: the safety check of the output and the detection of answers that say the context is insufficient are left out.
- Confidence.CalculateMonotone: arithmetic is over the reals; only the final rounding to six decimals is modelled.
- Citations.ParseGenerationOutput: decimal digits and their values are a parameter, restricted to be neither blanks nor brackets.
- ContextPacking.ContextItemsFromSearchItems: the chunks the database finds are a map; snippets, section titles, source types and URLs are left out.
- Redaction, MCP tools, CSRF and permissions, experiments, metrics, the regex rules of the non-LLM graph extractor, and the frontend.

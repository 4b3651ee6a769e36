/**
  One extraction run over a document's chunks (`LLMGraphExtractor.extract` and
  `_extract_chunk` of llm_extraction.py): retries, failures and usage.

  The generator is arbitrary: a reply for every chunk and attempt. A reply that was
  generated says what parsing and grounding its content leads to.
 */
module GraphExtraction {
  import opened Text
  import opened EntityRefs
  import G = Grounding

  // ---- failure reasons

  datatype Reason = EmptyResponse | Failed | InvalidResponse | Unavailable

  const CODE_PREFIX := "graph_extraction_llm_"

  function CodeSuffix(r: Reason): string {
    match r
    case EmptyResponse => "empty_response"
    case Failed => "failed"
    case InvalidResponse => "invalid_response"
    case Unavailable => "unavailable"
  }

  function Code(r: Reason): string {
    CODE_PREFIX + CodeSuffix(r)
  }

  /** The reasons as `sorted` lists their codes. */
  const SORTED_REASONS: seq<Reason> := [EmptyResponse, Failed, InvalidResponse, Unavailable]

  function Rank(r: Reason): nat {
    match r
    case EmptyResponse => 0
    case Failed => 1
    case InvalidResponse => 2
    case Unavailable => 3
  }

  /** Python's `<` on strings. */
  ghost predicate Before(a: string, b: string) {
    exists k :: 0 <= k < |b| && k <= |a| && a[..k] == b[..k] && (k == |a| || a[k] < b[k])
  }

  lemma BeforeIsStrict(a: string, b: string)
    requires Before(a, b)
    ensures !Before(b, a) && a != b
  {
    var k :| 0 <= k < |b| && k <= |a| && a[..k] == b[..k] && (k == |a| || a[k] < b[k]);
    if m :| 0 <= m < |a| && m <= |b| && b[..m] == a[..m] && (m == |b| || b[m] < a[m]) {
      assert false;
    }
  }

  /** Reasons are compared as their codes are. */
  lemma RankIsCodeOrder(a: Reason, b: Reason)
    ensures Rank(a) < Rank(b) <==> Before(Code(a), Code(b))
  {
    hide Before, Code, CodeSuffix;
    if Rank(a) < Rank(b) {
      RankedBefore(a, b);
    } else if Rank(b) < Rank(a) {
      RankedBefore(b, a);
      BeforeIsStrict(Code(b), Code(a));
    } else {
      assert a == b;
      if Before(Code(a), Code(b)) {
        BeforeIsStrict(Code(a), Code(b));
      }
    }
  }

  lemma RankedBefore(a: Reason, b: Reason)
    requires Rank(a) < Rank(b)
    ensures Before(Code(a), Code(b))
  {
    var k := |CODE_PREFIX|;
    assert Code(a)[..k] == CODE_PREFIX == Code(b)[..k];
    assert CodeSuffix(a)[0] < CodeSuffix(b)[0];
    assert Code(a)[k] == CodeSuffix(a)[0] && Code(b)[k] == CodeSuffix(b)[0];
  }

  type Counts = map<Reason, nat>

  function CountOf(counts: Counts, r: Reason): nat {
    if r in counts then counts[r] else 0
  }

  /** `r` is counted most often, and among those its code comes first. */
  ghost predicate IsDominant(counts: Counts, r: Reason) {
    && r in counts
    && forall other :: other in counts ==>
         counts[other] < counts[r] || (counts[other] == counts[r] && Rank(r) <= Rank(other))
  }

  /** `_dominant_failure_reason` */
  method DominantFailureReason(counts: Counts) returns (r: Reason)
    ensures counts == map[] ==> r == Failed
    ensures counts != map[] ==> IsDominant(counts, r)
  {
    if counts == map[] {
      return Failed;
    }
    var best: Option<Reason> := None;
    for n := 0 to |SORTED_REASONS|
      invariant best.None? ==> forall other :: other in counts ==> Rank(other) >= n
      invariant best.Some? ==> best.value in counts && Rank(best.value) < n
      invariant best.Some? ==> forall other :: other in counts && Rank(other) < n ==>
        counts[other] < counts[best.value] ||
        (counts[other] == counts[best.value] && Rank(best.value) <= Rank(other))
    {
      var reason := SORTED_REASONS[n];
      assert Rank(reason) == n && forall other :: Rank(other) == n ==> other == reason;
      if reason in counts && (best.None? || counts[reason] > counts[best.value]) {
        best := Some(reason);
      }
    }
    assert best.Some? by {
      var other :| other in counts;
      assert Rank(other) < |SORTED_REASONS|;
    }
    r := best.value;
  }

  // ---- replies

  datatype Category = Auth | Connection | RateLimited | Timeout | OtherCategory

  datatype Usage = Usage(input: Option<int>, output: Option<int>, total: Option<int>)

  datatype Content = Parsed(mentions: seq<Entity>, relations: seq<G.Relation>) | Unusable(reason: Reason) | Broken

  /**
    ProviderError is an AnswerGenerationError, CallBroken any other exception of the call. Each
    comes with the rounded milliseconds the attempt took by the clock.
   */
  datatype Reply =
    | Generated(elapsed: int, usage: Option<Usage>, content: Content)
    | ProviderError(elapsed: int, category: Category)
    | CallBroken(elapsed: int)

  /** The reply for a chunk's attempt 0 and, where it comes to that, attempt 1. */
  type Generator = (nat, nat) -> Reply

  /** `_is_document_level_provider_failure` */
  predicate IsDocumentLevel(c: Category) {
    c != OtherCategory
  }

  /** `_llm_failure_reason` */
  function FailureReason(c: Category): Reason {
    if c == Auth || c == RateLimited || c == Connection then Unavailable else Failed
  }

  datatype Outcome = Outcome(mentions: seq<Entity>, relations: seq<G.Relation>, retryCount: nat,
                             failure: Option<Reason>)

  /** Abort is the exception that ends the whole run. */
  datatype ChunkRun = Done(outcome: Outcome) | Abort(reason: Reason)

  const MAX_RETRIES: nat := 1

  // ---- usage

  /** `_add_optional` */
  function AddOptional(left: Option<int>, right: Option<int>): Option<int> {
    if right.None? then left else Some((if left.None? then 0 else left.value) + right.value)
  }

  function AddUsageTo(totals: Usage, usage: Option<Usage>): Usage {
    match usage
    case None => totals
    case Some(u) =>
      Usage(AddOptional(totals.input, u.input), AddOptional(totals.output, u.output),
            AddOptional(totals.total, u.total))
  }

  /** The state of an accumulator. */
  datatype Accumulated = Accumulated(tokens: Usage, latency: nat)

  const NO_TOTALS: Accumulated := Accumulated(Usage(None, None, None), 0)

  /** `max(0, elapsed)` */
  function Spent(elapsed: int): nat {
    if elapsed > 0 then elapsed else 0
  }

  class UsageAccumulator {
    var input: Option<int>
    var output: Option<int>
    var total: Option<int>
    var latency: nat

    constructor ()
      ensures Totals() == NO_TOTALS
    {
      input, output, total, latency := None, None, None, 0;
    }

    function Totals(): Accumulated
      reads this
    {
      Accumulated(Usage(input, output, total), latency)
    }

    method AddLatency(elapsed: int)
      modifies this
      ensures Totals() == old(Totals()).(latency := old(Totals()).latency + Spent(elapsed))
    {
      latency := latency + Spent(elapsed);
    }

    method AddUsage(usage: Option<Usage>)
      modifies this
      ensures Totals() == old(Totals()).(tokens := AddUsageTo(old(Totals()).tokens, usage))
    {
      if usage.None? {
        return;
      }
      input := AddOptional(input, usage.value.input);
      output := AddOptional(output, usage.value.output);
      total := AddOptional(total, usage.value.total);
    }
  }

  // ---- one chunk

  /** A first reply that could not be used as JSON is asked for again. */
  predicate AsksAgain(r: Reply) {
    r.Generated? && r.content == Unusable(InvalidResponse)
  }

  /** The calls a chunk costs. */
  function ChunkCalls(generate: Generator, chunk: nat): (r: seq<Reply>)
    ensures 1 <= |r| <= 1 + MAX_RETRIES
  {
    [generate(chunk, 0)] + (if AsksAgain(generate(chunk, 0)) then [generate(chunk, 1)] else [])
  }

  /** The last call decides what becomes of the chunk. */
  function ChunkResult(generate: Generator, chunk: nat): ChunkRun {
    var calls := ChunkCalls(generate, chunk);
    Settled(calls[|calls| - 1], |calls| - 1)
  }

  function Settled(last: Reply, retries: nat): ChunkRun {
    match last
    case Generated(_, _, Parsed(mentions, relations)) => Done(Outcome(mentions, relations, retries, None))
    case Generated(_, _, Unusable(reason)) => Done(Outcome([], [], retries, Some(reason)))
    case Generated(_, _, Broken) => Done(Outcome([], [], retries, Some(Failed)))
    case CallBroken(_) => Done(Outcome([], [], retries, Some(Failed)))
    case ProviderError(_, c) =>
      if IsDocumentLevel(c) then Abort(FailureReason(c)) else Done(Outcome([], [], retries, Some(FailureReason(c))))
  }

  function UsageOf(r: Reply): Option<Usage> {
    if r.Generated? then r.usage else None
  }

  function AddCallTo(totals: Accumulated, call: Reply): Accumulated {
    Accumulated(AddUsageTo(totals.tokens, UsageOf(call)), totals.latency + Spent(call.elapsed))
  }

  /** The totals after some calls: the time of every call is added, and all usage returned, used or not. */
  function Tally(before: Accumulated, calls: seq<Reply>): Accumulated {
    if calls == [] then before else AddCallTo(Tally(before, calls[..|calls| - 1]), calls[|calls| - 1])
  }

  lemma {:induction false} TallyConcat(before: Accumulated, a: seq<Reply>, b: seq<Reply>)
    ensures Tally(before, a + b) == Tally(Tally(before, a), b)
  {
    if b == [] {
      assert a + b == a;
    } else {
      var n := |b| - 1;
      assert (a + b)[..|a + b| - 1] == a + b[..n];
      TallyConcat(before, a, b[..n]);
    }
  }

  /** `_extract_chunk` */
  method ExtractChunk(generate: Generator, chunk: nat, usage: UsageAccumulator) returns (r: ChunkRun)
    modifies usage
    ensures r == ChunkResult(generate, chunk)
    ensures usage.Totals() == Tally(old(usage.Totals()), ChunkCalls(generate, chunk))
  {
    ghost var totals := usage.Totals();
    CallsMade(generate, chunk, totals);
    hide Tally, ChunkCalls, ChunkResult;
    var retryCount: nat := 0;
    for attempt := 0 to 1 + MAX_RETRIES
      invariant retryCount == attempt <= 1
      invariant attempt == 0 ==> usage.Totals() == totals
      invariant attempt == 1 ==> AsksAgain(generate(chunk, 0)) &&
                                 usage.Totals() == AddCallTo(totals, generate(chunk, 0))
    {
      var reply := generate(chunk, attempt);
      var result: Option<ChunkRun> := None;
      match reply {
        case ProviderError(_, category) =>
          result := Some(if IsDocumentLevel(category) then Abort(FailureReason(category))
                         else Done(Outcome([], [], retryCount, Some(FailureReason(category)))));
        case CallBroken(_) =>
          result := Some(Done(Outcome([], [], retryCount, Some(Failed))));
        case Generated(_, u, content) =>
          usage.AddUsage(u);
          match content {
            case Parsed(mentions, relations) =>
              result := Some(Done(Outcome(mentions, relations, retryCount, None)));
            case Broken =>
              result := Some(Done(Outcome([], [], retryCount, Some(Failed))));
            case Unusable(reason) =>
              if reason == InvalidResponse && attempt < MAX_RETRIES {
                assert AsksAgain(reply);
                retryCount := retryCount + 1;
              } else {
                result := Some(Done(Outcome([], [], retryCount, Some(reason))));
              }
          }
      }
      // The `finally` clause, before whatever comes of the attempt.
      usage.AddLatency(reply.elapsed);
      assert result == if attempt == 0 && AsksAgain(reply) then None else Some(Settled(reply, attempt));
      if result.Some? {
        return result.value;
      }
    }
    assert false;
  }

  /** What one call or two come to. */
  lemma CallsMade(generate: Generator, chunk: nat, totals: Accumulated)
    ensures var first, second := generate(chunk, 0), generate(chunk, 1);
      if AsksAgain(first) then
        && Tally(totals, ChunkCalls(generate, chunk)) == AddCallTo(AddCallTo(totals, first), second)
        && ChunkResult(generate, chunk) == Settled(second, 1)
      else
        && Tally(totals, ChunkCalls(generate, chunk)) == AddCallTo(totals, first)
        && ChunkResult(generate, chunk) == Settled(first, 0)
  {
    hide Settled, AddCallTo;
    var calls := ChunkCalls(generate, chunk);
    assert calls[..1] == [generate(chunk, 0)] && calls[..1][..0] == [];
    assert Tally(totals, calls[..1]) == AddCallTo(Tally(totals, []), generate(chunk, 0));
    assert |calls| == 2 ==> calls[..|calls| - 1] == calls[..1];
    assert |calls| == 1 ==> calls == calls[..1];
  }

  // ---- the whole run, as functions of the generator

  predicate Succeeds(generate: Generator, chunk: nat) {
    ChunkResult(generate, chunk).Done? && ChunkResult(generate, chunk).outcome.failure.None?
  }

  predicate FailsWith(generate: Generator, chunk: nat, reason: Reason) {
    ChunkResult(generate, chunk).Done? && ChunkResult(generate, chunk).outcome.failure == Some(reason)
  }

  function CallsUpTo(generate: Generator, n: nat): seq<Reply> {
    if n == 0 then [] else CallsUpTo(generate, n - 1) + ChunkCalls(generate, n - 1)
  }

  function MentionsUpTo(generate: Generator, n: nat): seq<Entity> {
    if n == 0 then []
    else
      MentionsUpTo(generate, n - 1) +
      (if Succeeds(generate, n - 1) then ChunkResult(generate, n - 1).outcome.mentions else [])
  }

  function RelationsUpTo(generate: Generator, n: nat): seq<G.Relation> {
    if n == 0 then []
    else
      RelationsUpTo(generate, n - 1) +
      (if Succeeds(generate, n - 1) then ChunkResult(generate, n - 1).outcome.relations else [])
  }

  /** How many of the first `n` chunks failed for this reason. */
  function FailuresUpTo(generate: Generator, n: nat, reason: Reason): nat {
    if n == 0 then 0
    else FailuresUpTo(generate, n - 1, reason) + (if FailsWith(generate, n - 1, reason) then 1 else 0)
  }

  /** How many of the first `n` chunks did not succeed. */
  function FailedUpTo(generate: Generator, n: nat): nat {
    if n == 0 then 0 else FailedUpTo(generate, n - 1) + (if Succeeds(generate, n - 1) then 0 else 1)
  }

  ghost predicate NoAbort(generate: Generator, n: nat) {
    forall i :: 0 <= i < n ==> ChunkResult(generate, i).Done?
  }

  datatype Extraction =
    | Completed(mentions: seq<Entity>, relations: seq<G.Relation>, failed: nat, retries: nat, counts: Counts)
    | ExtractionError(reason: Reason)

  ghost predicate CountsAre(generate: Generator, n: nat, counts: Counts) {
    forall reason ::
      CountOf(counts, reason) == FailuresUpTo(generate, n, reason) && (reason in counts ==> counts[reason] > 0)
  }

  /** `extract`; `calls` lists the generator calls that were made. */
  method Extract(generate: Generator, chunkCount: nat, usage: UsageAccumulator)
    returns (r: Extraction, ghost calls: seq<Reply>)
    modifies usage
    ensures usage.Totals() == Tally(old(usage.Totals()), calls)
    ensures r.Completed? ==>
      && NoAbort(generate, chunkCount) && calls == CallsUpTo(generate, chunkCount)
      && r.mentions == MentionsUpTo(generate, chunkCount) && r.relations == RelationsUpTo(generate, chunkCount)
      && r.failed == FailedUpTo(generate, chunkCount) && CountsAre(generate, chunkCount, r.counts)
      && r.retries == |calls| - chunkCount
      && (chunkCount > 0 ==> r.failed < chunkCount)
    ensures r.ExtractionError? ==>
      || (exists i :: 0 <= i < chunkCount && NoAbort(generate, i) && ChunkResult(generate, i) == Abort(r.reason) &&
            calls == CallsUpTo(generate, i + 1))
      || (NoAbort(generate, chunkCount) && chunkCount > 0 && FailedUpTo(generate, chunkCount) == chunkCount &&
            calls == CallsUpTo(generate, chunkCount) &&
            exists counts :: CountsAre(generate, chunkCount, counts) && IsDominant(counts, r.reason))
  {
    hide ChunkCalls, ChunkResult, AddCallTo, IsDominant, Tally;
    calls := [];
    assert Tally(old(usage.Totals()), calls) == old(usage.Totals()) by { TallyEmpty(old(usage.Totals())); }
    var mentions: seq<Entity>, relations: seq<G.Relation> := [], [];
    var failedCount: nat, retryCount: nat := 0, 0;
    var counts: Counts := map[];
    for n := 0 to chunkCount
      invariant NoAbort(generate, n) && calls == CallsUpTo(generate, n)
      invariant usage.Totals() == Tally(old(usage.Totals()), calls)
      invariant mentions == MentionsUpTo(generate, n) && relations == RelationsUpTo(generate, n)
      invariant failedCount == FailedUpTo(generate, n) && CountsAre(generate, n, counts)
      invariant retryCount == |calls| - n
    {
      TallyConcat(old(usage.Totals()), calls, ChunkCalls(generate, n));
      calls := calls + ChunkCalls(generate, n);
      var run := ExtractChunk(generate, n, usage);
      if run.Abort? {
        r := ExtractionError(run.reason);
        return;
      }
      RetriesAreExtraCalls(generate, n);
      var outcome := run.outcome;
      retryCount := retryCount + outcome.retryCount;
      if outcome.failure.Some? {
        failedCount := failedCount + 1;
        ghost var before := counts;
        counts := counts[outcome.failure.value := CountOf(counts, outcome.failure.value) + 1];
        continue;
      }
      mentions := mentions + outcome.mentions;
      relations := relations + outcome.relations;
    }
    if chunkCount > 0 && failedCount == chunkCount {
      SomeReasonCounted(generate, chunkCount, counts);
      var reason := DominantFailureReason(counts);
      r := ExtractionError(reason);
      return;
    }
    FailedAtMost(generate, chunkCount);
    r := Completed(mentions, relations, failedCount, retryCount, counts);
  }

  lemma TallyEmpty(before: Accumulated)
    ensures Tally(before, []) == before
  {}

  lemma RetriesAreExtraCalls(generate: Generator, chunk: nat)
    requires ChunkResult(generate, chunk).Done?
    ensures ChunkResult(generate, chunk).outcome.retryCount == |ChunkCalls(generate, chunk)| - 1
  {}

  lemma {:induction false} FailedAtMost(generate: Generator, n: nat)
    ensures FailedUpTo(generate, n) <= n
  {
    if n > 0 {
      FailedAtMost(generate, n - 1);
    }
  }

  lemma SomeReasonCounted(generate: Generator, n: nat, counts: Counts)
    requires n > 0 && NoAbort(generate, n) && FailedUpTo(generate, n) == n && CountsAre(generate, n, counts)
    ensures counts != map[]
  {
    hide ChunkResult;
    FailuresAddUp(generate, n);
    assert exists reason :: FailuresUpTo(generate, n, reason) > 0;
    var reason :| FailuresUpTo(generate, n, reason) > 0;
    assert CountOf(counts, reason) > 0;
  }

  // ---- what each reply leads to

  /** The code reported for a provider error of this category. */
  ghost predicate IsErrorCode(category: Category, code: string) {
    match category
    case Auth => code == "graph_extraction_llm_unavailable"
    case Connection => code == "graph_extraction_llm_unavailable"
    case RateLimited => code == "graph_extraction_llm_unavailable"
    case Timeout => code == "graph_extraction_llm_failed"
    case OtherCategory => code == "graph_extraction_llm_failed"
  }

  lemma CodesAre()
    ensures Code(EmptyResponse) == "graph_extraction_llm_empty_response"
    ensures Code(Failed) == "graph_extraction_llm_failed"
    ensures Code(InvalidResponse) == "graph_extraction_llm_invalid_response"
    ensures Code(Unavailable) == "graph_extraction_llm_unavailable"
  {}

  /** The reply came, but no JSON object could be read from it. */
  ghost predicate NoJson(r: Reply) {
    match r
    case Generated(_, _, Unusable(InvalidResponse)) => true
    case _ => false
  }

  /**
    The last reply for a chunk decides: what it found, or why it failed. A provider error of any
    category but the last aborts the whole run, with the code of its category.
   */
  lemma ReplyDecides(generate: Generator, chunk: nat, last: Reply)
    requires last == (if NoJson(generate(chunk, 0)) then generate(chunk, 1) else generate(chunk, 0))
    ensures var r, retries := ChunkResult(generate, chunk), if NoJson(generate(chunk, 0)) then 1 else 0;
      match last
      case Generated(_, _, Parsed(mentions, relations)) => r == Done(Outcome(mentions, relations, retries, None))
      case Generated(_, _, Unusable(reason)) => r == Done(Outcome([], [], retries, Some(reason)))
      case Generated(_, _, Broken) => r == Done(Outcome([], [], retries, Some(Failed)))
      case CallBroken(_) => r == Done(Outcome([], [], retries, Some(Failed)))
      case ProviderError(_, category) =>
        if category == OtherCategory then
          r.Done? && r.outcome.failure.Some? && r.outcome == Outcome([], [], retries, r.outcome.failure) &&
          IsErrorCode(category, Code(r.outcome.failure.value))
        else r.Abort? && IsErrorCode(category, Code(r.reason))
  {
    CodesAre();
    hide Code;
    var calls := ChunkCalls(generate, chunk);
    assert calls[|calls| - 1] == last && |calls| - 1 == if NoJson(generate(chunk, 0)) then 1 else 0;
  }

  // ---- what the accounting adds up to

  /** At most two calls and one retry per chunk. */
  lemma {:induction false} CallsAreBounded(generate: Generator, n: nat)
    ensures n <= |CallsUpTo(generate, n)| <= 2 * n
  {
    if n > 0 {
      CallsAreBounded(generate, n - 1);
    }
  }

  /** Which calls are made: one for each chunk in turn, and a second one where the first gave no JSON. */
  lemma {:induction false} CallsInOrder(generate: Generator, n: nat, chunk: nat)
    requires chunk < n
    ensures CallsUpTo(generate, chunk) + [generate(chunk, 0)] +
            (if NoJson(generate(chunk, 0)) then [generate(chunk, 1)] else [])
            <= CallsUpTo(generate, n)
    ensures |CallsUpTo(generate, chunk + 1)| ==
            |CallsUpTo(generate, chunk)| + if NoJson(generate(chunk, 0)) then 2 else 1
    ensures CallsUpTo(generate, 0) == []
  {
    if chunk + 1 < n {
      CallsInOrder(generate, n - 1, chunk);
    }
  }

  /** The count of a reason is the number of chunks that failed for it. */
  lemma {:induction false} FailuresAreCounted(generate: Generator, n: nat, reason: Reason)
    ensures var fails := (chunk: nat) => FailsWith(generate, chunk, reason);
      FailuresUpTo(generate, n, reason) == |set chunk: nat | chunk < n && fails(chunk)|
  {
    hide FailsWith;
    if n > 0 {
      FailuresAreCounted(generate, n - 1, reason);
      OneMoreBelow(n - 1, (chunk: nat) => FailsWith(generate, chunk, reason));
    }
  }

  lemma OneMoreBelow(n: nat, p: nat -> bool)
    ensures |set k: nat | k < n + 1 && p(k)| == |set k: nat | k < n && p(k)| + if p(n) then 1 else 0
  {
    var before, all := set k: nat | k < n && p(k), set k: nat | k < n + 1 && p(k);
    assert all == if p(n) then before + {n} else before;
  }

  lemma FailureStep(generate: Generator, n: nat, reason: Reason)
    requires n > 0 && ChunkResult(generate, n - 1).Done?
    ensures FailuresUpTo(generate, n, reason) ==
            FailuresUpTo(generate, n - 1, reason) +
            (if ChunkResult(generate, n - 1).outcome.failure == Some(reason) then 1 else 0)
  {
    hide ChunkResult;
  }

  /** The failed chunks are exactly the ones counted under some reason. */
  lemma {:induction false} FailuresAddUp(generate: Generator, n: nat)
    requires NoAbort(generate, n)
    ensures FailedUpTo(generate, n) ==
            FailuresUpTo(generate, n, EmptyResponse) + FailuresUpTo(generate, n, Failed) +
            FailuresUpTo(generate, n, InvalidResponse) + FailuresUpTo(generate, n, Unavailable)
  {
    if n > 0 {
      FailuresAddUp(generate, n - 1);
      var failure := ChunkResult(generate, n - 1).outcome.failure;
      FailureStep(generate, n, EmptyResponse);
      FailureStep(generate, n, Failed);
      FailureStep(generate, n, InvalidResponse);
      FailureStep(generate, n, Unavailable);
      assert FailedUpTo(generate, n) == FailedUpTo(generate, n - 1) + (if failure.None? then 0 else 1);
      if failure.Some? {
        match failure.value {
          case EmptyResponse =>
          case Failed =>
          case InvalidResponse =>
          case Unavailable =>
        }
      }
    }
  }

  /** The sum of the reported numbers, or None when no call reported one. */
  function Reported(calls: seq<Reply>, field: Usage -> Option<int>): Option<int> {
    if calls == [] then None
    else
      var last := UsageOf(calls[|calls| - 1]);
      AddOptional(Reported(calls[..|calls| - 1], field), if last.None? then None else field(last.value))
  }

  /** The time of all calls. */
  function TimeOf(calls: seq<Reply>): nat {
    if calls == [] then 0
    else
      var last := calls[|calls| - 1].elapsed;
      TimeOf(calls[..|calls| - 1]) + (if last > 0 then last else 0)
  }

  /**
    A fresh accumulator ends with the sums over all calls that returned usage, failed parses
    included, and the time of all calls, failed ones included.
   */
  lemma {:induction false} UsageAddsUp(calls: seq<Reply>)
    ensures Tally(NO_TOTALS, calls) ==
            Accumulated(Usage(Reported(calls, (u: Usage) => u.input), Reported(calls, (u: Usage) => u.output),
                              Reported(calls, (u: Usage) => u.total)),
                        TimeOf(calls))
  {
    if calls != [] {
      UsageAddsUp(calls[..|calls| - 1]);
    }
  }

  /** Every chunk that succeeded contributes all it found, right behind the chunks before it. */
  lemma {:induction false} SuccessesContribute(generate: Generator, n: nat, chunk: nat)
    requires chunk < n && Succeeds(generate, chunk)
    ensures MentionsUpTo(generate, chunk) + ChunkResult(generate, chunk).outcome.mentions <= MentionsUpTo(generate, n)
    ensures RelationsUpTo(generate, chunk) + ChunkResult(generate, chunk).outcome.relations
            <= RelationsUpTo(generate, n)
  {
    hide ChunkResult;
    if chunk + 1 < n {
      SuccessesContribute(generate, n - 1, chunk);
    }
  }
}

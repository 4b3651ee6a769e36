/**
  The agentic retrieval loop (`AgenticRetrievalExecutor.execute` and its helpers in
  agentic.py), for an arbitrary retriever and an arbitrary planner.

  Both are functions of the history. The history grows with every call, so they stand for
  any sequence of replies. The retriever reports a strategy with each attempt, which need
  not be the one it was asked for.
 */
module AgenticLoop {
  import opened Text
  import opened CandidateMerge
  import opened Sufficiency

  datatype Strategy =
    | Dense | Sparse | Hybrid | Graph | MultiQueryDense | MultiQueryHybrid | MetadataFiltered | VersionAware
    | AgenticRouter | LlmToolOrchestrator | LangchainAgentic | LanggraphAgentic | FallbackDense

  datatype Role = Initial | Fallback

  datatype Attempt = Attempt(strategy: Strategy, role: Role, source: string, candidates: seq<Candidate>)

  datatype Settings = Settings(
    limits: Limits,
    maxRetrievalCalls: int,
    maxFallbackCalls: int,
    llmMode: bool,
    fallbackToDense: bool,
    enableFallbackDense: bool,
    enableFallbackHybrid: bool,
    sparseEnabled: bool,
    hybridEnabled: bool,
    hybridUsesSparse: bool,
    noContextAfterBudgetExhausted: bool
  )

  datatype Plan = Finalize | Retrieve(strategy: Option<Strategy>)

  /** What the planner said and what became of it, as `planner_events` records it. */
  datatype Event =
    | PlannerUnavailable
    | PlannerFailed
    | PlannerFinalized
    | MissingStrategy
    | Rejected(strategy: Strategy, reason: Rejection)
    | Used(strategy: Strategy)

  datatype Rejection = AlreadyAttempted | FamilyAlreadyAttempted | Unavailable

  type Planner = (seq<Attempt>, seq<Decision>) -> Option<Plan>

  type Retriever = (Strategy, Role, seq<Attempt>) -> Attempt

  datatype Request = Request(initial: Strategy, comparison: bool, topK: nat, rerankTopN: nat)

  datatype Result = Result(
    attempts: seq<Attempt>,
    decisions: seq<Decision>,
    finalCandidates: seq<Candidate>,
    fallbackReason: bool,
    noContext: bool,
    budgetExhausted: bool,
    events: seq<Event>
  )

  // ---- strategies

  /** `_execution_family` */
  function Family(s: Strategy): Strategy {
    if s == FallbackDense then Dense else s
  }

  /** `_strategy_available` */
  predicate StrategyAvailable(s: Strategy, settings: Settings) {
    match s
    case Dense => settings.enableFallbackDense
    case FallbackDense => settings.enableFallbackDense
    case Sparse => settings.sparseEnabled
    case Hybrid =>
      settings.enableFallbackHybrid && settings.hybridEnabled && (!settings.hybridUsesSparse || settings.sparseEnabled)
    case _ => false
  }

  function Filter<T>(s: seq<T>, keep: T -> bool): seq<T> {
    if s == [] then []
    else (if keep(s[0]) then [s[0]] else []) + Filter(s[1..], keep)
  }

  lemma {:induction false} FilterKeeps<T>(s: seq<T>, keep: T -> bool)
    ensures forall x :: x in Filter(s, keep) <==> x in s && keep(x)
  {
    if s != [] {
      FilterKeeps(s[1..], keep);
      assert s == [s[0]] + s[1..];
    }
  }

  /** `_fallback_strategies` */
  function FallbackStrategies(settings: Settings, initial: Strategy): seq<Strategy> {
    var fallbackDense := if settings.fallbackToDense then Dense else FallbackDense;
    var strategies :=
      if initial == Dense || initial == FallbackDense || initial == Sparse
      then [Hybrid, fallbackDense] else [fallbackDense];
    Filter(strategies, s => StrategyAvailable(s, settings) && Family(s) != Family(initial))
  }

  predicate StrategyAttempted(s: Strategy, attempts: seq<Attempt>) {
    exists i :: 0 <= i < |attempts| && attempts[i].strategy == s
  }

  predicate FamilyAttempted(f: Strategy, attempts: seq<Attempt>) {
    exists i :: 0 <= i < |attempts| && Family(attempts[i].strategy) == f
  }

  /** `_available_fallback_strategies` */
  function Available(settings: Settings, initial: Strategy, attempts: seq<Attempt>): seq<Strategy> {
    Filter(FallbackStrategies(settings, initial),
           s => !StrategyAttempted(s, attempts) && !FamilyAttempted(Family(s), attempts))
  }

  lemma AvailableIs(settings: Settings, initial: Strategy, attempts: seq<Attempt>, s: Strategy)
    ensures s in Available(settings, initial, attempts) <==>
            s in FallbackStrategies(settings, initial) && !StrategyAttempted(s, attempts) &&
            !FamilyAttempted(Family(s), attempts)
  {
    hide FallbackStrategies;
    FilterKeeps(FallbackStrategies(settings, initial),
                s => !StrategyAttempted(s, attempts) && !FamilyAttempted(Family(s), attempts));
  }

  /** `_planner_strategy_rejection` */
  function StrategyRejection(s: Strategy, available: seq<Strategy>, attempts: seq<Attempt>): Option<Rejection> {
    if StrategyAttempted(s, attempts) then Some(AlreadyAttempted)
    else if FamilyAttempted(Family(s), attempts) then Some(FamilyAlreadyAttempted)
    else if s !in available then Some(Unavailable)
    else None
  }

  /** The outcome of `_planned_fallback_strategy`: a strategy, whether to stop, and the events recorded. */
  datatype Planned = Planned(strategy: Option<Strategy>, finalize: bool, events: seq<Event>)

  function PlannedFallback(settings: Settings, planner: Option<Planner>, initial: Strategy, attempts: seq<Attempt>,
                           decisions: seq<Decision>): Planned
  {
    var available := Available(settings, initial, attempts);
    if !settings.llmMode || available == [] then Planned(None, false, [])
    else if planner.None? then Planned(None, false, [PlannerUnavailable])
    else
      match planner.value(attempts, decisions)
      case None => Planned(None, false, [PlannerFailed])
      case Some(Finalize) => Planned(None, true, [PlannerFinalized])
      case Some(Retrieve(None)) => Planned(None, false, [MissingStrategy])
      case Some(Retrieve(Some(s))) =>
        var rejection := StrategyRejection(s, available, attempts);
        if rejection.Some? then Planned(None, false, [Rejected(s, rejection.value)])
        else Planned(Some(s), false, [Used(s)])
  }

  /** The strategy of the next fallback: the planner's, else the first available one, else none. */
  function NextFallback(settings: Settings, initial: Strategy, attempts: seq<Attempt>,
                        planned: Planned): Option<Strategy>
  {
    var available := Available(settings, initial, attempts);
    if planned.strategy.Some? then planned.strategy
    else if available != [] then Some(available[0])
    else None
  }

  // ---- the loop as a function

  /** `_bounded_max_calls` */
  function BoundedMaxCalls(value: int): (r: nat)
    ensures 1 <= r <= 3
  {
    if value < 1 then 1 else if value > 3 then 3 else value
  }

  function MaxCalls(settings: Settings): (r: nat)
    ensures 1 <= r <= 3
  {
    BoundedMaxCalls(settings.maxRetrievalCalls)
  }

  function MaxFallbackCalls(settings: Settings): int {
    var room := MaxCalls(settings) - 1;
    if settings.maxFallbackCalls < room then settings.maxFallbackCalls else room
  }

  function Batches(attempts: seq<Attempt>): (r: seq<Batch>)
    ensures |r| == |attempts|
    ensures forall i :: 0 <= i < |r| ==> r[i] == Batch(attempts[i].source, attempts[i].candidates)
  {
    seq(|attempts|, i requires 0 <= i < |attempts| => Batch(attempts[i].source, attempts[i].candidates))
  }

  /** `_result_from_attempts` */
  function ResultOf(settings: Settings, request: Request, attempts: seq<Attempt>, decisions: seq<Decision>,
                    fallbackReason: bool, budgetExhausted: bool, events: seq<Event>): Result
  {
    Result(attempts, decisions, Merge(Batches(attempts), request.topK), fallbackReason && |attempts| > 1,
           decisions != [] && !decisions[|decisions| - 1].sufficient && settings.noContextAfterBudgetExhausted,
           budgetExhausted, events)
  }

  /** The decision after the initial attempt looks at what was retrieved, before any merging. */
  function FirstDecision(settings: Settings, request: Request, first: Attempt): Decision {
    Decide(first.candidates, SelectedCount(first.candidates, request.rerankTopN), request.comparison, settings.limits)
  }

  function LaterDecision(settings: Settings, request: Request, attempts: seq<Attempt>): Decision {
    DecideMerged(Batches(attempts), request.topK, request.rerankTopN, request.comparison, settings.limits)
  }

  function Loop(settings: Settings, planner: Option<Planner>, retrieve: Retriever, request: Request,
                attempts: seq<Attempt>, decisions: seq<Decision>, events: seq<Event>): Result
    requires attempts != []
    decreases MaxCalls(settings) - |attempts|
  {
    if |attempts| - 1 >= MaxFallbackCalls(settings) || |attempts| >= MaxCalls(settings) then
      ResultOf(settings, request, attempts, decisions, true, true, events)
    else
      var planned := PlannedFallback(settings, planner, request.initial, attempts, decisions);
      var recorded := events + planned.events;
      if planned.finalize then ResultOf(settings, request, attempts, decisions, false, false, recorded)
      else
        match NextFallback(settings, request.initial, attempts, planned)
        case None => ResultOf(settings, request, attempts, decisions, true, true, recorded)
        case Some(s) =>
          var more := attempts + [retrieve(s, Fallback, attempts)];
          var decision := LaterDecision(settings, request, more);
          if decision.sufficient then ResultOf(settings, request, more, decisions + [decision], true, false, recorded)
          else Loop(settings, planner, retrieve, request, more, decisions + [decision], recorded)
  }

  function Run(settings: Settings, planner: Option<Planner>, retrieve: Retriever, request: Request): Result {
    var first := retrieve(request.initial, Initial, []);
    var decision := FirstDecision(settings, request, first);
    if decision.sufficient || MaxCalls(settings) <= 1 || MaxFallbackCalls(settings) <= 0 then
      ResultOf(settings, request, [first], [decision], false, !decision.sufficient, [])
    else Loop(settings, planner, retrieve, request, [first], [decision], [])
  }

  // ---- the loop, as the source runs it

  /** `execute`. The branch that skips an attempted family cannot be taken. */
  method Execute(settings: Settings, planner: Option<Planner>, retrieve: Retriever, request: Request)
    returns (r: Result)
    ensures r == Run(settings, planner, retrieve, request)
  {
    hide Decide, Merge, DecideMerged, Available, PlannedFallback;
    var maxCalls := MaxCalls(settings);
    var maxFallbackCalls := MaxFallbackCalls(settings);
    var initialAttempt := retrieve(request.initial, Initial, []);
    var attempts := [initialAttempt];
    var initialDecision := Check(initialAttempt.candidates,
                                 SelectedCount(initialAttempt.candidates, request.rerankTopN),
                                 request.comparison, settings.limits);
    var decisions := [initialDecision];
    var events: seq<Event> := [];
    if initialDecision.sufficient || maxCalls <= 1 || maxFallbackCalls <= 0 {
      var budgetExhausted := !initialDecision.sufficient && (maxCalls <= 1 || maxFallbackCalls <= 0);
      return ResultOf(settings, request, attempts, decisions, false, budgetExhausted, events);
    }
    var fallbackCalls := 0;
    while fallbackCalls < maxFallbackCalls && |attempts| < maxCalls
      invariant fallbackCalls == |attempts| - 1
      invariant Run(settings, planner, retrieve, request) ==
                Loop(settings, planner, retrieve, request, attempts, decisions, events)
      decreases maxCalls - |attempts|
    {
      var planned := PlannedFallback(settings, planner, request.initial, attempts, decisions);
      events := events + planned.events;
      if planned.finalize {
        return ResultOf(settings, request, attempts, decisions, false, false, events);
      }
      var next := NextFallback(settings, request.initial, attempts, planned);
      if next.None? {
        return ResultOf(settings, request, attempts, decisions, true, true, events);
      }
      NextIsFresh(settings, planner, request.initial, attempts, decisions);
      if FamilyAttempted(Family(next.value), attempts) {
        assert false;
      }
      var fallbackAttempt := retrieve(next.value, Fallback, attempts);
      attempts := attempts + [fallbackAttempt];
      fallbackCalls := fallbackCalls + 1;
      var merged := MergeDedupeCandidates(Batches(attempts), request.topK);
      var decision := Check(merged, SelectedCount(merged, request.rerankTopN), request.comparison, settings.limits);
      DecideMergedIs(attempts, settings, request);
      decisions := decisions + [decision];
      if decision.sufficient {
        return ResultOf(settings, request, attempts, decisions, true, false, events);
      }
    }
    r := ResultOf(settings, request, attempts, decisions, true, true, events);
  }

  lemma DecideMergedIs(attempts: seq<Attempt>, settings: Settings, request: Request)
    ensures LaterDecision(settings, request, attempts) ==
            (var merged := Merge(Batches(attempts), request.topK);
             Decide(merged, SelectedCount(merged, request.rerankTopN), request.comparison, settings.limits))
  {
    hide Merge, Decide;
  }

  /** What the loop asks for next is a configured fallback of a family not attempted yet. */
  lemma NextIsFresh(settings: Settings, planner: Option<Planner>, initial: Strategy, attempts: seq<Attempt>,
                    decisions: seq<Decision>)
    ensures var planned := PlannedFallback(settings, planner, initial, attempts, decisions);
      var next := NextFallback(settings, initial, attempts, planned);
      && (next.Some? ==>
            next.value in FallbackStrategies(settings, initial) && !FamilyAttempted(Family(next.value), attempts))
      && (planned.finalize ==> planned.events == [PlannerFinalized])
      && (!planned.finalize ==> PlannerFinalized !in planned.events)
      && (!settings.llmMode ==> planned.events == [] && !planned.finalize && planned.strategy == None)
  {
    hide Available, FallbackStrategies;
    var available := Available(settings, initial, attempts);
    var planned := PlannedFallback(settings, planner, initial, attempts, decisions);
    var next := NextFallback(settings, initial, attempts, planned);
    if next.Some? {
      AvailableIs(settings, initial, attempts, next.value);
      assert available != [] ==> available[0] in available;
    }
  }

  // ---- safety

  /** Each fallback attempt answers a request for a configured strategy of a new family. */
  ghost predicate FallbackRequested(settings: Settings, retrieve: Retriever, request: Request, attempts: seq<Attempt>,
                                    i: nat)
    requires i < |attempts|
  {
    exists s :: FreshRequest(settings, request, attempts[..i], s) && attempts[i] == retrieve(s, Fallback, attempts[..i])
  }

  ghost predicate FreshRequest(settings: Settings, request: Request, before: seq<Attempt>, s: Strategy) {
    s in FallbackStrategies(settings, request.initial) && !FamilyAttempted(Family(s), before)
  }

  /** What holds of the history whenever the loop comes around. */
  ghost predicate History(settings: Settings, retrieve: Retriever, request: Request, attempts: seq<Attempt>,
                          decisions: seq<Decision>)
  {
    && 1 <= |attempts| == |decisions|
    && attempts[0] == retrieve(request.initial, Initial, [])
    && decisions[0] == FirstDecision(settings, request, attempts[0])
    && (forall i :: 1 <= i < |attempts| ==>
          FallbackRequested(settings, retrieve, request, attempts, i) &&
          decisions[i] == LaterDecision(settings, request, attempts[..i + 1]))
  }

  ghost predicate WithinBudget(settings: Settings, attempts: seq<Attempt>) {
    && |attempts| <= MaxCalls(settings) <= 3
    && (|attempts| == 1 || |attempts| - 1 <= MaxFallbackCalls(settings))
  }

  /** All decisions but the last are negative. */
  ghost predicate StopsWhenSufficient(decisions: seq<Decision>) {
    forall i :: 0 <= i < |decisions| - 1 ==> !decisions[i].sufficient
  }

  predicate Finalized(events: seq<Event>) {
    events != [] && events[|events| - 1] == PlannerFinalized
  }

  /** Exactly one of the three reasons to stop applies. */
  ghost predicate OneReason(r: Result)
    requires r.decisions != []
  {
    var sufficient := r.decisions[|r.decisions| - 1].sufficient;
    && (sufficient || r.budgetExhausted || Finalized(r.events))
    && !(sufficient && r.budgetExhausted) && !(sufficient && Finalized(r.events))
    && !(r.budgetExhausted && Finalized(r.events))
  }

  ghost predicate Safe(settings: Settings, retrieve: Retriever, request: Request, r: Result) {
    && History(settings, retrieve, request, r.attempts, r.decisions)
    && WithinBudget(settings, r.attempts) && StopsWhenSufficient(r.decisions) && OneReason(r)
    && r.finalCandidates == Merge(Batches(r.attempts), request.topK)
    && r.noContext == (!r.decisions[|r.decisions| - 1].sufficient && settings.noContextAfterBudgetExhausted)
  }

  lemma HistoryGrows(settings: Settings, retrieve: Retriever, request: Request, attempts: seq<Attempt>,
                     decisions: seq<Decision>, s: Strategy)
    requires History(settings, retrieve, request, attempts, decisions) && FreshRequest(settings, request, attempts, s)
    ensures var more := attempts + [retrieve(s, Fallback, attempts)];
      History(settings, retrieve, request, more, decisions + [LaterDecision(settings, request, more)])
  {
    hide FreshRequest, LaterDecision, FirstDecision;
    var more := attempts + [retrieve(s, Fallback, attempts)];
    var all := decisions + [LaterDecision(settings, request, more)];
    var n := |attempts|;
    assert more[..n] == attempts && more[..n + 1] == more;
    forall i | 1 <= i < |more|
      ensures FallbackRequested(settings, retrieve, request, more, i)
      ensures all[i] == LaterDecision(settings, request, more[..i + 1])
    {
      if i < n {
        assert FallbackRequested(settings, retrieve, request, attempts, i);
        assert more[..i] == attempts[..i] && more[..i + 1] == attempts[..i + 1];
      }
    }
  }

  lemma {:induction false} LoopIsSafe(settings: Settings, planner: Option<Planner>, retrieve: Retriever,
                                      request: Request,
                                      attempts: seq<Attempt>, decisions: seq<Decision>, events: seq<Event>)
    requires History(settings, retrieve, request, attempts, decisions) && WithinBudget(settings, attempts)
    requires forall i :: 0 <= i < |decisions| ==> !decisions[i].sufficient
    requires PlannerFinalized !in events
    ensures Safe(settings, retrieve, request, Loop(settings, planner, retrieve, request, attempts, decisions, events))
    decreases MaxCalls(settings) - |attempts|
  {
    hide History, PlannedFallback, NextFallback, LaterDecision, Merge, FirstDecision, Safe, WithinBudget;
    assert |attempts| == |decisions| >= 1 by { HistoryCounts(settings, retrieve, request, attempts, decisions); }
    if |attempts| - 1 >= MaxFallbackCalls(settings) || |attempts| >= MaxCalls(settings) {
      ResultIsSafe(settings, retrieve, request, attempts, decisions, true, true, events);
    } else {
      var planned := PlannedFallback(settings, planner, request.initial, attempts, decisions);
      var next := NextFallback(settings, request.initial, attempts, planned);
      NextIsFresh(settings, planner, request.initial, attempts, decisions);
      var recorded := events + planned.events;
      if planned.finalize {
        ResultIsSafe(settings, retrieve, request, attempts, decisions, false, false, recorded);
      } else if next.None? {
        ResultIsSafe(settings, retrieve, request, attempts, decisions, true, true, recorded);
      } else {
        var s := next.value;
        HistoryGrows(settings, retrieve, request, attempts, decisions, s);
        var more := attempts + [retrieve(s, Fallback, attempts)];
        var decision := LaterDecision(settings, request, more);
        BudgetGrows(settings, attempts, more);
        if decision.sufficient {
          ResultIsSafe(settings, retrieve, request, more, decisions + [decision], true, false, recorded);
        } else {
          LoopIsSafe(settings, planner, retrieve, request, more, decisions + [decision], recorded);
        }
      }
    }
  }

  lemma BudgetGrows(settings: Settings, attempts: seq<Attempt>, more: seq<Attempt>)
    requires WithinBudget(settings, attempts) && |more| == |attempts| + 1
    requires |attempts| - 1 < MaxFallbackCalls(settings) && |attempts| < MaxCalls(settings)
    ensures WithinBudget(settings, more)
  {}

  lemma ResultIsSafe(settings: Settings, retrieve: Retriever, request: Request, attempts: seq<Attempt>,
                     decisions: seq<Decision>, fallbackReason: bool, budgetExhausted: bool, events: seq<Event>)
    requires History(settings, retrieve, request, attempts, decisions) && WithinBudget(settings, attempts)
    requires StopsWhenSufficient(decisions)
    requires OneReason(ResultOf(settings, request, attempts, decisions, fallbackReason, budgetExhausted, events))
    ensures Safe(settings, retrieve, request,
                 ResultOf(settings, request, attempts, decisions, fallbackReason, budgetExhausted, events))
  {
    hide Merge, WithinBudget, StopsWhenSufficient, FirstDecision, LaterDecision;
  }

  lemma HistoryCounts(settings: Settings, retrieve: Retriever, request: Request, attempts: seq<Attempt>,
                      decisions: seq<Decision>)
    requires History(settings, retrieve, request, attempts, decisions)
    ensures |attempts| == |decisions| >= 1
  {}

  /**
    Whatever the planner says and the retriever returns: at most min(3, max_calls) retrievals
    and max_fallback_calls fallbacks, one decision per attempt with all but the last
    insufficient, only fallbacks that are configured and of a new family, and exactly one
    reason to stop.
   */
  lemma RunIsSafe(settings: Settings, planner: Option<Planner>, retrieve: Retriever, request: Request)
    ensures Safe(settings, retrieve, request, Run(settings, planner, retrieve, request))
  {
    var first := retrieve(request.initial, Initial, []);
    var decision := FirstDecision(settings, request, first);
    hide FirstDecision, LaterDecision, Loop, Merge;
    if !(decision.sufficient || MaxCalls(settings) <= 1 || MaxFallbackCalls(settings) <= 0) {
      LoopIsSafe(settings, planner, retrieve, request, [first], [decision], []);
    }
  }

  /** The retriever reports the strategy it was asked for. */
  ghost predicate Honest(retrieve: Retriever) {
    forall s, role, history :: retrieve(s, role, history).strategy == s
  }

  /** With an honest retriever no two attempts belong to the same execution family. */
  lemma FamiliesDiffer(settings: Settings, planner: Option<Planner>, retrieve: Retriever, request: Request)
    requires Honest(retrieve)
    ensures var attempts := Run(settings, planner, retrieve, request).attempts;
      forall i, j :: 0 <= i < j < |attempts| ==> Family(attempts[i].strategy) != Family(attempts[j].strategy)
  {
    RunIsSafe(settings, planner, retrieve, request);
    hide Run, FallbackStrategies, LaterDecision, FirstDecision, Merge;
    var r := Run(settings, planner, retrieve, request);
    forall i, j | 0 <= i < j < |r.attempts| ensures Family(r.attempts[i].strategy) != Family(r.attempts[j].strategy) {
      assert FallbackRequested(settings, retrieve, request, r.attempts, j);
      var s :| FreshRequest(settings, request, r.attempts[..j], s) &&
               r.attempts[j] == retrieve(s, Fallback, r.attempts[..j]);
      assert r.attempts[..j][i] == r.attempts[i];
    }
  }

  // ---- a useless planner changes nothing

  /** At this history the planner's reply is missing, failed or rejected. */
  ghost predicate UselessAt(settings: Settings, planner: Planner, initial: Strategy, attempts: seq<Attempt>,
                            decisions: seq<Decision>)
  {
    match planner(attempts, decisions)
    case None => true
    case Some(Finalize) => false
    case Some(Retrieve(None)) => true
    case Some(Retrieve(Some(s))) => s !in Available(settings, initial, attempts)
  }

  ghost predicate Useless(settings: Settings, planner: Option<Planner>, initial: Strategy) {
    planner.Some? ==> forall attempts, decisions :: UselessAt(settings, planner.value, initial, attempts, decisions)
  }

  lemma UselessIsIgnored(settings: Settings, planner: Option<Planner>, initial: Strategy, attempts: seq<Attempt>,
                         decisions: seq<Decision>)
    requires Useless(settings, planner, initial)
    ensures var planned := PlannedFallback(settings, planner, initial, attempts, decisions);
      planned.strategy == None && !planned.finalize
  {
    if planner.Some? {
      assert UselessAt(settings, planner.value, initial, attempts, decisions);
      match planner.value(attempts, decisions) {
        case Some(Retrieve(Some(s))) => AvailableIs(settings, initial, attempts, s);
        case _ =>
      }
    }
  }

  lemma SettingsModeOnly(settings: Settings, rules: Settings, initial: Strategy, attempts: seq<Attempt>)
    requires rules == settings.(llmMode := false)
    ensures MaxCalls(rules) == MaxCalls(settings) && MaxFallbackCalls(rules) == MaxFallbackCalls(settings)
    ensures Available(rules, initial, attempts) == Available(settings, initial, attempts)
  {
    FilterSame([Hybrid, Dense], settings, rules, initial);
    FilterSame([Hybrid, FallbackDense], settings, rules, initial);
    FilterSame([Dense], settings, rules, initial);
    FilterSame([FallbackDense], settings, rules, initial);
  }

  lemma {:induction false} FilterSame(s: seq<Strategy>, settings: Settings, rules: Settings, initial: Strategy)
    requires rules == settings.(llmMode := false)
    ensures Filter(s, x => StrategyAvailable(x, settings) && Family(x) != Family(initial)) ==
            Filter(s, x => StrategyAvailable(x, rules) && Family(x) != Family(initial))
  {
    if s != [] {
      FilterSame(s[1..], settings, rules, initial);
      assert StrategyAvailable(s[0], settings) == StrategyAvailable(s[0], rules);
    }
  }

  /** One round with a useless planner asks for what rule-based mode asks for. */
  lemma UselessRound(settings: Settings, planner: Option<Planner>, initial: Strategy, attempts: seq<Attempt>,
                     decisions: seq<Decision>)
    requires Useless(settings, planner, initial)
    ensures var rules := settings.(llmMode := false);
      var planned := PlannedFallback(settings, planner, initial, attempts, decisions);
      var ruled := PlannedFallback(rules, None, initial, attempts, decisions);
      && !planned.finalize && !ruled.finalize && ruled.events == []
      && NextFallback(settings, initial, attempts, planned) == NextFallback(rules, initial, attempts, ruled)
  {
    SettingsModeOnly(settings, settings.(llmMode := false), initial, attempts);
    hide Available, PlannedFallback, Useless;
    UselessIsIgnored(settings, planner, initial, attempts, decisions);
    NextIsFresh(settings.(llmMode := false), None, initial, attempts, decisions);
  }

  /** Decisions and results do not depend on the mode, nor on what is recorded. */
  lemma ModeIsNotReported(settings: Settings, request: Request)
    ensures var rules := settings.(llmMode := false);
      && (forall attempts :: LaterDecision(settings, request, attempts) == LaterDecision(rules, request, attempts))
      && (forall attempts, decisions, fallback, exhausted, events ::
            ResultOf(settings, request, attempts, decisions, fallback, exhausted, events).(events := []) ==
            ResultOf(rules, request, attempts, decisions, fallback, exhausted, []))
  {
    hide DecideMerged, Merge;
  }

  lemma {:induction false} UselessLoop(settings: Settings, planner: Option<Planner>, retrieve: Retriever,
                                       request: Request,
                                       attempts: seq<Attempt>, decisions: seq<Decision>, events: seq<Event>)
    requires Useless(settings, planner, request.initial) && attempts != []
    ensures Loop(settings, planner, retrieve, request, attempts, decisions, events).(events := []) ==
            Loop(settings.(llmMode := false), None, retrieve, request, attempts, decisions, [])
    decreases MaxCalls(settings) - |attempts|
  {
    var rules := settings.(llmMode := false);
    hide MaxCalls, MaxFallbackCalls, Available, PlannedFallback, NextFallback, ResultOf, LaterDecision, Useless;
    SettingsModeOnly(settings, rules, request.initial, attempts);
    ModeIsNotReported(settings, request);
    UselessRound(settings, planner, request.initial, attempts, decisions);
    if |attempts| - 1 < MaxFallbackCalls(settings) && |attempts| < MaxCalls(settings) {
      var planned := PlannedFallback(settings, planner, request.initial, attempts, decisions);
      var next := NextFallback(settings, request.initial, attempts, planned);
      assert [] + PlannedFallback(rules, None, request.initial, attempts, decisions).events == [];
      if next.Some? {
        var more := attempts + [retrieve(next.value, Fallback, attempts)];
        var decision := LaterDecision(settings, request, more);
        if !decision.sufficient {
          UselessLoop(settings, planner, retrieve, request, more, decisions + [decision], events + planned.events);
        }
      }
    }
  }

  /**
    A planner whose replies are always missing, failed or rejected gives the run of rule-based
    mode: same attempts, decisions, candidates and flags. Only the recorded events differ.
   */
  lemma UselessPlannerChangesNothing(settings: Settings, planner: Option<Planner>, retrieve: Retriever,
                                     request: Request)
    requires Useless(settings, planner, request.initial)
    ensures Run(settings, planner, retrieve, request).(events := []) ==
            Run(settings.(llmMode := false), None, retrieve, request)
  {
    var first := retrieve(request.initial, Initial, []);
    var decision := FirstDecision(settings, request, first);
    SettingsModeOnly(settings, settings.(llmMode := false), request.initial, [first]);
    hide MaxCalls, MaxFallbackCalls, Loop, Merge, Decide, Useless, Available;
    assert decision == FirstDecision(settings.(llmMode := false), request, first);
    UselessLoop(settings, planner, retrieve, request, [first], [decision], []);
  }
}

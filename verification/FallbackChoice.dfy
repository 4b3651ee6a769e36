/**
  Which fallbacks the retrieval loop tries and when it gives up (`execute`,
  `_planned_fallback_strategy` and `_fallback_strategies` of agentic.py), said on the settings,
  the planner's replies and the attempts so far.

  There are two fallbacks: hybrid search, for a dense or sparse start, and dense search, for
  any other than a dense start.
 */
module FallbackChoice {
  import opened Text
  import opened CandidateMerge
  import opened Sufficiency
  import opened AgenticLoop

  // ---- what is open

  predicate IsDense(s: Strategy) {
    s == Dense || s == FallbackDense
  }

  predicate HybridConfigured(settings: Settings, initial: Strategy) {
    && (IsDense(initial) || initial == Sparse)
    && settings.enableFallbackHybrid && settings.hybridEnabled && (settings.hybridUsesSparse ==> settings.sparseEnabled)
  }

  predicate DenseConfigured(settings: Settings, initial: Strategy) {
    !IsDense(initial) && settings.enableFallbackDense
  }

  /** Hybrid search is configured after this start, and not tried yet. */
  ghost predicate HybridOpen(settings: Settings, initial: Strategy, attempts: seq<Attempt>) {
    && HybridConfigured(settings, initial)
    && forall i :: 0 <= i < |attempts| ==> attempts[i].strategy != Hybrid
  }

  /** Dense search is configured after this start, and not tried yet under either name. */
  ghost predicate DenseOpen(settings: Settings, initial: Strategy, attempts: seq<Attempt>) {
    && DenseConfigured(settings, initial)
    && forall i :: 0 <= i < |attempts| ==> !IsDense(attempts[i].strategy)
  }

  function DenseName(settings: Settings): Strategy {
    if settings.fallbackToDense then Dense else FallbackDense
  }

  ghost predicate IsOpen(settings: Settings, initial: Strategy, attempts: seq<Attempt>, s: Strategy) {
    || (s == Hybrid && HybridOpen(settings, initial, attempts))
    || (s == DenseName(settings) && DenseOpen(settings, initial, attempts))
  }

  ghost predicate NothingOpen(settings: Settings, initial: Strategy, attempts: seq<Attempt>) {
    !HybridOpen(settings, initial, attempts) && !DenseOpen(settings, initial, attempts)
  }

  /** The configured maximum, which counts as at least 1 and at most 3, or that of fallbacks is reached. */
  ghost predicate OutOfBudget(settings: Settings, attempts: seq<Attempt>) {
    |attempts| >= 3 || |attempts| >= settings.maxRetrievalCalls || |attempts| - 1 >= settings.maxFallbackCalls
  }

  // ---- what is next

  /** The planner is asked only in llm mode. */
  ghost function Reply(settings: Settings, planner: Option<Planner>, attempts: seq<Attempt>,
                       decisions: seq<Decision>): Option<Plan>
  {
    if settings.llmMode && planner.Some? then planner.value(attempts, decisions) else None
  }

  ghost predicate PlannerNames(settings: Settings, planner: Option<Planner>, initial: Strategy, attempts: seq<Attempt>,
                               decisions: seq<Decision>, s: Strategy)
  {
    Reply(settings, planner, attempts, decisions) == Some(Retrieve(Some(s))) && IsOpen(settings, initial, attempts, s)
  }

  /** The planner's strategy if it names an open one, else hybrid before dense search. */
  ghost predicate IsNext(settings: Settings, planner: Option<Planner>, initial: Strategy, attempts: seq<Attempt>,
                         decisions: seq<Decision>, s: Strategy)
  {
    || PlannerNames(settings, planner, initial, attempts, decisions, s)
    || (&& (forall x :: !PlannerNames(settings, planner, initial, attempts, decisions, x))
        && IsOpen(settings, initial, attempts, s)
        && (HybridOpen(settings, initial, attempts) ==> s == Hybrid))
  }

  /** The planner ends the run; it is asked only while something is open. */
  ghost predicate PlannerEnds(settings: Settings, planner: Option<Planner>, initial: Strategy, attempts: seq<Attempt>,
                              decisions: seq<Decision>)
  {
    Reply(settings, planner, attempts, decisions) == Some(Finalize) && !NothingOpen(settings, initial, attempts)
  }

  // ---- what is recorded

  /** What asking the planner records, if it is asked. */
  ghost function Recorded(settings: Settings, planner: Option<Planner>, initial: Strategy, attempts: seq<Attempt>,
                          decisions: seq<Decision>): seq<Event>
  {
    if !settings.llmMode || NothingOpen(settings, initial, attempts) then []
    else if planner.None? then [PlannerUnavailable]
    else
      match planner.value(attempts, decisions)
      case None => [PlannerFailed]
      case Some(Finalize) => [PlannerFinalized]
      case Some(Retrieve(None)) => [MissingStrategy]
      case Some(Retrieve(Some(s))) =>
        if exists i :: 0 <= i < |attempts| && attempts[i].strategy == s then [Rejected(s, AlreadyAttempted)]
        else if IsDense(s) && exists i :: 0 <= i < |attempts| && IsDense(attempts[i].strategy)
        then [Rejected(s, FamilyAlreadyAttempted)]
        else if !IsOpen(settings, initial, attempts, s) then [Rejected(s, Unavailable)]
        else [Used(s)]
  }

  // ---- the helpers of the loop, in these terms

  lemma StrategiesAreConfigured(settings: Settings, initial: Strategy)
    ensures FallbackStrategies(settings, initial) ==
            (if HybridConfigured(settings, initial) then [Hybrid] else []) +
            (if DenseConfigured(settings, initial) then [DenseName(settings)] else [])
  {
    var keep := (s: Strategy) => StrategyAvailable(s, settings) && Family(s) != Family(initial);
    FilterTwo(Hybrid, DenseName(settings), keep);
    FilterOne(DenseName(settings), keep);
    hide Filter;
    if IsDense(initial) || initial == Sparse {
      assert FallbackStrategies(settings, initial) == Filter([Hybrid, DenseName(settings)], keep);
    } else {
      assert FallbackStrategies(settings, initial) == Filter([DenseName(settings)], keep);
    }
  }

  /** Hybrid search is of a family of its own, dense search goes by two names. */
  lemma FreshIs(settings: Settings, attempts: seq<Attempt>, s: Strategy)
    requires s == Hybrid || s == DenseName(settings)
    ensures !StrategyAttempted(s, attempts) && !FamilyAttempted(Family(s), attempts) <==>
            forall i :: 0 <= i < |attempts| ==>
              if s == Hybrid then attempts[i].strategy != Hybrid else !IsDense(attempts[i].strategy)
  {}

  lemma AvailableAreOpen(settings: Settings, initial: Strategy, attempts: seq<Attempt>)
    ensures Available(settings, initial, attempts) ==
            (if HybridOpen(settings, initial, attempts) then [Hybrid] else []) +
            (if DenseOpen(settings, initial, attempts) then [DenseName(settings)] else [])
  {
    var keep := (s: Strategy) => !StrategyAttempted(s, attempts) && !FamilyAttempted(Family(s), attempts);
    StrategiesAreConfigured(settings, initial);
    FreshIs(settings, attempts, Hybrid);
    FreshIs(settings, attempts, DenseName(settings));
    hide FallbackStrategies, StrategyAttempted, FamilyAttempted, Family, DenseName, Filter, HybridConfigured,
         DenseConfigured;
    FilterPair(HybridConfigured(settings, initial), Hybrid, DenseConfigured(settings, initial), DenseName(settings),
               keep);
  }

  lemma FilterPair(p: bool, a: Strategy, q: bool, b: Strategy, keep: Strategy -> bool)
    ensures Filter((if p then [a] else []) + (if q then [b] else []), keep) ==
            (if p && keep(a) then [a] else []) + (if q && keep(b) then [b] else [])
  {
    FilterOne(a, keep);
    FilterOne(b, keep);
    FilterTwo(a, b, keep);
    assert [a] + [b] == [a, b] && [a] + [] == [a] && [] + [b] == [b];
  }

  lemma FilterOne(a: Strategy, keep: Strategy -> bool)
    ensures Filter([a], keep) == if keep(a) then [a] else []
  {
    assert [a][1..] == [];
  }

  lemma FilterTwo(a: Strategy, b: Strategy, keep: Strategy -> bool)
    ensures Filter([a, b], keep) == (if keep(a) then [a] else []) + if keep(b) then [b] else []
  {
    assert [a, b][1..] == [b];
    FilterOne(b, keep);
  }

  lemma AvailableIsOpen(settings: Settings, initial: Strategy, attempts: seq<Attempt>)
    ensures forall s :: s in Available(settings, initial, attempts) <==> IsOpen(settings, initial, attempts, s)
    ensures Available(settings, initial, attempts) == [] <==> NothingOpen(settings, initial, attempts)
    ensures HybridOpen(settings, initial, attempts) ==>
              Available(settings, initial, attempts) != [] && Available(settings, initial, attempts)[0] == Hybrid
    ensures !HybridOpen(settings, initial, attempts) && DenseOpen(settings, initial, attempts) ==>
              Available(settings, initial, attempts) == [DenseName(settings)]
  {
    AvailableAreOpen(settings, initial, attempts);
    hide Available, HybridOpen, DenseOpen;
  }

  /** What asking the planner comes to. */
  lemma PlannedExact(settings: Settings, planner: Option<Planner>, initial: Strategy, attempts: seq<Attempt>,
                     decisions: seq<Decision>)
    ensures var planned := PlannedFallback(settings, planner, initial, attempts, decisions);
      && planned.events == Recorded(settings, planner, initial, attempts, decisions)
      && (planned.finalize <==> PlannerEnds(settings, planner, initial, attempts, decisions))
      && forall s :: planned.strategy == Some(s) <==> PlannerNames(settings, planner, initial, attempts, decisions, s)
  {
    AvailableIsOpen(settings, initial, attempts);
    hide Available, NothingOpen, StrategyRejection, IsOpen;
    if settings.llmMode && planner.Some? {
      match planner.value(attempts, decisions) {
        case Some(Retrieve(Some(s))) =>
          RejectionExact(settings, initial, attempts, s);
        case _ =>
      }
    }
  }

  /** One round of the loop: what it records, whether the planner ends it, and what is next. */
  lemma RoundExact(settings: Settings, planner: Option<Planner>, initial: Strategy, attempts: seq<Attempt>,
                   decisions: seq<Decision>)
    ensures var planned := PlannedFallback(settings, planner, initial, attempts, decisions);
      var next := NextFallback(settings, initial, attempts, planned);
      && planned.events == Recorded(settings, planner, initial, attempts, decisions)
      && (planned.finalize <==> PlannerEnds(settings, planner, initial, attempts, decisions))
      && (forall s :: IsNext(settings, planner, initial, attempts, decisions, s) <==> next == Some(s))
      && (next.None? <==> NothingOpen(settings, initial, attempts))
  {
    PlannedExact(settings, planner, initial, attempts, decisions);
    AvailableIsOpen(settings, initial, attempts);
    NamesOpen(settings, planner, initial, attempts, decisions);
    hide Available, PlannedFallback, Recorded, PlannerEnds, PlannerNames, HybridOpen, DenseOpen;
  }

  lemma NamesOpen(settings: Settings, planner: Option<Planner>, initial: Strategy, attempts: seq<Attempt>,
                  decisions: seq<Decision>)
    ensures forall s :: PlannerNames(settings, planner, initial, attempts, decisions, s) ==>
                          IsOpen(settings, initial, attempts, s)
  {}

  lemma RejectionExact(settings: Settings, initial: Strategy, attempts: seq<Attempt>, s: Strategy)
    ensures StrategyRejection(s, Available(settings, initial, attempts), attempts) ==
            if exists i :: 0 <= i < |attempts| && attempts[i].strategy == s then Some(AlreadyAttempted)
            else if IsDense(s) && exists i :: 0 <= i < |attempts| && IsDense(attempts[i].strategy)
            then Some(FamilyAlreadyAttempted)
            else if !IsOpen(settings, initial, attempts, s) then Some(Unavailable)
            else None
    ensures IsOpen(settings, initial, attempts, s) ==>
              StrategyRejection(s, Available(settings, initial, attempts), attempts).None?
  {
    AvailableAreOpen(settings, initial, attempts);
    hide Available;
    assert FamilyAttempted(Family(s), attempts) <==>
           exists i :: 0 <= i < |attempts| &&
                       (attempts[i].strategy == s || (IsDense(s) && IsDense(attempts[i].strategy)));
  }

  // ---- the whole run

  /** After these insufficient attempts the loop goes on, and the next attempt answers the next strategy. */
  ghost predicate GoesOn(settings: Settings, planner: Option<Planner>, retrieve: Retriever, request: Request,
                         before: seq<Attempt>, decisions: seq<Decision>, attempt: Attempt)
  {
    && decisions != [] && !decisions[|decisions| - 1].sufficient
    && !OutOfBudget(settings, before) && !PlannerEnds(settings, planner, request.initial, before, decisions)
    && exists s :: IsNext(settings, planner, request.initial, before, decisions, s) &&
                   attempt == retrieve(s, Fallback, before)
  }

  /** What was recorded before the last attempt. */
  ghost function RecordedBefore(settings: Settings, planner: Option<Planner>, initial: Strategy,
                                attempts: seq<Attempt>, decisions: seq<Decision>): seq<Event>
    requires |attempts| == |decisions|
  {
    if |attempts| <= 1 then []
    else
      var n := |attempts| - 1;
      RecordedBefore(settings, planner, initial, attempts[..n], decisions[..n]) +
      Recorded(settings, planner, initial, attempts[..n], decisions[..n])
  }

  ghost predicate Follows(settings: Settings, planner: Option<Planner>, retrieve: Retriever, request: Request,
                          attempts: seq<Attempt>, decisions: seq<Decision>, events: seq<Event>)
  {
    && 1 <= |attempts| == |decisions| && attempts[0] == retrieve(request.initial, Initial, [])
    && (forall i :: 1 <= i < |attempts| ==>
          GoesOn(settings, planner, retrieve, request, attempts[..i], decisions[..i], attempts[i]))
    && events == RecordedBefore(settings, planner, request.initial, attempts, decisions)
  }

  /**
    The run stops when the context suffices, when the planner says so, or when the budget or the
    open fallbacks are exhausted; it reports the last exactly then. It gives a reason for its
    fallbacks unless there are none or the planner ended it.
   */
  ghost predicate StopsRightly(settings: Settings, planner: Option<Planner>, request: Request, r: Result)
    requires r.attempts != [] && r.decisions != []
  {
    var sufficient := r.decisions[|r.decisions| - 1].sufficient;
    var exhausted := OutOfBudget(settings, r.attempts) || NothingOpen(settings, request.initial, r.attempts);
    && (r.budgetExhausted <==> !sufficient && exhausted)
    && (r.fallbackReason <==> |r.attempts| > 1 && (sufficient || exhausted))
    && (sufficient || exhausted || PlannerEnds(settings, planner, request.initial, r.attempts, r.decisions))
  }

  ghost predicate IsRightRun(settings: Settings, planner: Option<Planner>, retrieve: Retriever, request: Request,
                             r: Result)
  {
    && r.attempts != [] && r.decisions != [] && StopsRightly(settings, planner, request, r)
    && exists events ::
         && Follows(settings, planner, retrieve, request, r.attempts, r.decisions, events)
         && r.events == events + if r.decisions[|r.decisions| - 1].sufficient || r.budgetExhausted then []
                                 else [PlannerFinalized]
  }

  lemma BudgetIs(settings: Settings, attempts: seq<Attempt>)
    requires attempts != []
    ensures OutOfBudget(settings, attempts) <==>
            |attempts| - 1 >= MaxFallbackCalls(settings) || |attempts| >= MaxCalls(settings)
  {}

  lemma FollowsMore(settings: Settings, planner: Option<Planner>, retrieve: Retriever, request: Request,
                    attempts: seq<Attempt>, decisions: seq<Decision>, events: seq<Event>, attempt: Attempt,
                    decision: Decision)
    requires Follows(settings, planner, retrieve, request, attempts, decisions, events)
    requires GoesOn(settings, planner, retrieve, request, attempts, decisions, attempt)
    ensures Follows(settings, planner, retrieve, request, attempts + [attempt], decisions + [decision],
                    events + Recorded(settings, planner, request.initial, attempts, decisions))
  {
    hide GoesOn, Recorded;
    var more, all := attempts + [attempt], decisions + [decision];
    var n := |attempts|;
    assert more[..n] == attempts && all[..n] == decisions;
    forall i | 1 <= i < |more| ensures GoesOn(settings, planner, retrieve, request, more[..i], all[..i], more[i]) {
      if i < n {
        assert more[..i] == attempts[..i] && all[..i] == decisions[..i];
      }
    }
  }

  /** The loop ends after these attempts. */
  ghost predicate Ends(settings: Settings, planner: Option<Planner>, initial: Strategy, attempts: seq<Attempt>,
                       decisions: seq<Decision>)
  {
    var planned := PlannedFallback(settings, planner, initial, attempts, decisions);
    OutOfBudget(settings, attempts) || planned.finalize || NextFallback(settings, initial, attempts, planned).None?
  }

  lemma LoopEnds(settings: Settings, planner: Option<Planner>, retrieve: Retriever, request: Request,
                 attempts: seq<Attempt>, decisions: seq<Decision>, events: seq<Event>)
    requires Follows(settings, planner, retrieve, request, attempts, decisions, events)
    requires !decisions[|decisions| - 1].sufficient
    requires Ends(settings, planner, request.initial, attempts, decisions)
    ensures IsRightRun(settings, planner, retrieve, request,
                       Loop(settings, planner, retrieve, request, attempts, decisions, events))
  {
    var initial := request.initial;
    assert |attempts| == |decisions| >= 1;
    BudgetIs(settings, attempts);
    hide Follows, PlannedFallback, NextFallback, LaterDecision, Merge, Recorded, IsNext, PlannerEnds, NothingOpen,
         OutOfBudget, MaxCalls, MaxFallbackCalls, GoesOn, IsRightRun, ResultOf;
    RoundExact(settings, planner, initial, attempts, decisions);
    var planned := PlannedFallback(settings, planner, initial, attempts, decisions);
    if OutOfBudget(settings, attempts) {
      Stopped(settings, planner, retrieve, request, attempts, decisions, events, true, true);
    } else if planned.finalize {
      Finalizes(settings, planner, retrieve, request, attempts, decisions, events);
    } else {
      NothingRecorded(settings, planner, initial, attempts, decisions);
      assert events + planned.events == events;
      Stopped(settings, planner, retrieve, request, attempts, decisions, events, true, true);
    }
  }

  lemma {:induction false} LoopIsRight(settings: Settings, planner: Option<Planner>, retrieve: Retriever,
                                       request: Request, attempts: seq<Attempt>, decisions: seq<Decision>,
                                       events: seq<Event>)
    requires Follows(settings, planner, retrieve, request, attempts, decisions, events)
    requires !decisions[|decisions| - 1].sufficient
    ensures IsRightRun(settings, planner, retrieve, request,
                       Loop(settings, planner, retrieve, request, attempts, decisions, events))
    decreases MaxCalls(settings) - |attempts|
  {
    var initial := request.initial;
    assert |attempts| == |decisions| >= 1;
    BudgetIs(settings, attempts);
    hide Follows, PlannedFallback, NextFallback, LaterDecision, Merge, Recorded, IsNext, PlannerEnds, NothingOpen,
         OutOfBudget, MaxCalls, MaxFallbackCalls, GoesOn, IsRightRun, ResultOf;
    if Ends(settings, planner, initial, attempts, decisions) {
      LoopEnds(settings, planner, retrieve, request, attempts, decisions, events);
    } else {
      RoundExact(settings, planner, initial, attempts, decisions);
      var planned := PlannedFallback(settings, planner, initial, attempts, decisions);
      var s := NextFallback(settings, initial, attempts, planned).value;
      var more := attempts + [retrieve(s, Fallback, attempts)];
      var decision := LaterDecision(settings, request, more);
      OneMore(settings, planner, retrieve, request, attempts, decisions, events, s, decision);
      if decision.sufficient {
        Stopped(settings, planner, retrieve, request, more, decisions + [decision], events + planned.events, true,
                false);
      } else {
        LoopIsRight(settings, planner, retrieve, request, more, decisions + [decision], events + planned.events);
      }
    }
  }

  lemma NextGoesOn(settings: Settings, planner: Option<Planner>, retrieve: Retriever, request: Request,
                   attempts: seq<Attempt>, decisions: seq<Decision>, s: Strategy)
    requires decisions != [] && !decisions[|decisions| - 1].sufficient && !OutOfBudget(settings, attempts)
    requires !PlannerEnds(settings, planner, request.initial, attempts, decisions)
    requires IsNext(settings, planner, request.initial, attempts, decisions, s)
    ensures GoesOn(settings, planner, retrieve, request, attempts, decisions, retrieve(s, Fallback, attempts))
  {
    hide IsNext, PlannerEnds, OutOfBudget;
  }

  lemma OneMore(settings: Settings, planner: Option<Planner>, retrieve: Retriever, request: Request,
                attempts: seq<Attempt>, decisions: seq<Decision>, events: seq<Event>, s: Strategy, decision: Decision)
    requires Follows(settings, planner, retrieve, request, attempts, decisions, events)
    requires !decisions[|decisions| - 1].sufficient && !OutOfBudget(settings, attempts)
    requires !PlannerEnds(settings, planner, request.initial, attempts, decisions)
    requires IsNext(settings, planner, request.initial, attempts, decisions, s)
    ensures Follows(settings, planner, retrieve, request, attempts + [retrieve(s, Fallback, attempts)],
                    decisions + [decision],
                    events + Recorded(settings, planner, request.initial, attempts, decisions))
  {
    assert decisions != [];
    hide IsNext, PlannerEnds, OutOfBudget, GoesOn, Recorded, Follows;
    NextGoesOn(settings, planner, retrieve, request, attempts, decisions, s);
    FollowsMore(settings, planner, retrieve, request, attempts, decisions, events, retrieve(s, Fallback, attempts),
                decision);
  }

  lemma NothingRecorded(settings: Settings, planner: Option<Planner>, initial: Strategy, attempts: seq<Attempt>,
                        decisions: seq<Decision>)
    requires NothingOpen(settings, initial, attempts)
    ensures Recorded(settings, planner, initial, attempts, decisions) == []
  {}

  /** A result for a sufficient context, or for one that is not while nothing more can be tried. */
  lemma Stopped(settings: Settings, planner: Option<Planner>, retrieve: Retriever, request: Request,
                attempts: seq<Attempt>, decisions: seq<Decision>, events: seq<Event>, reason: bool, exhausted: bool)
    requires Follows(settings, planner, retrieve, request, attempts, decisions, events)
    requires decisions[|decisions| - 1].sufficient <==> !exhausted
    requires exhausted ==> OutOfBudget(settings, attempts) || NothingOpen(settings, request.initial, attempts)
    requires reason || |attempts| == 1
    ensures IsRightRun(settings, planner, retrieve, request,
                       ResultOf(settings, request, attempts, decisions, reason, exhausted, events))
  {
    hide GoesOn, Merge, OutOfBudget, NothingOpen, RecordedBefore;
    assert events + [] == events;
  }

  /** A result for a planner that ends the run while something is open and the budget not used up. */
  lemma Finalizes(settings: Settings, planner: Option<Planner>, retrieve: Retriever, request: Request,
                  attempts: seq<Attempt>, decisions: seq<Decision>, events: seq<Event>)
    requires Follows(settings, planner, retrieve, request, attempts, decisions, events)
    requires !decisions[|decisions| - 1].sufficient && !OutOfBudget(settings, attempts)
    requires PlannerEnds(settings, planner, request.initial, attempts, decisions)
    ensures IsRightRun(settings, planner, retrieve, request,
                       ResultOf(settings, request, attempts, decisions, false, false,
                                events + Recorded(settings, planner, request.initial, attempts, decisions)))
  {
    hide GoesOn, Merge, OutOfBudget, RecordedBefore;
    assert Recorded(settings, planner, request.initial, attempts, decisions) == [PlannerFinalized];
  }

  /**
    Every run, with any planner and retriever: each fallback asks for the planner's strategy if
    it names an open one and otherwise for hybrid before dense search; the loop goes on while
    the context does not suffice, the budget lasts, something is open and the planner does not
    end it; it reports the budget as exhausted exactly when the budget or the open fallbacks are.
   */
  lemma RunIsRight(settings: Settings, planner: Option<Planner>, retrieve: Retriever, request: Request)
    ensures IsRightRun(settings, planner, retrieve, request, Run(settings, planner, retrieve, request))
  {
    var first := retrieve(request.initial, Initial, []);
    var decision := FirstDecision(settings, request, first);
    BudgetIs(settings, [first]);
    hide FirstDecision, Loop, Merge, OutOfBudget, NothingOpen, IsRightRun, GoesOn;
    assert Follows(settings, planner, retrieve, request, [first], [decision], []);
    hide Follows;
    if decision.sufficient || MaxCalls(settings) <= 1 || MaxFallbackCalls(settings) <= 0 {
      Stopped(settings, planner, retrieve, request, [first], [decision], [], false, !decision.sufficient);
    } else {
      LoopIsRight(settings, planner, retrieve, request, [first], [decision], []);
    }
  }
}

/**
  Deciding whether retrieved context is good enough (`ContextSufficiencyChecker.check`,
  `_top_score`, `_source_diversity` and `_sufficiency_score` of agentic.py).
 */
module Sufficiency {
  import opened Text
  import opened Sets
  import opened CandidateMerge

  datatype Limits = Limits(minCandidates: int, minSelected: int, threshold: real)

  datatype Code =
    | NoCandidates
    | TooFewCandidates
    | TooFewSelected
    | MissingTopScore
    | LowTopScore
    | TooFewSelectedForComparison
    | InsufficientDiversityForComparison
    | SufficientContext

  datatype Decision = Decision(sufficient: bool, score: real, codes: seq<Code>, candidateCount: nat, selectedCount: nat,
                               topScore: Option<real>, diversity: nat)

  /** `_top_score` */
  function TopScore(candidates: seq<Candidate>): Option<real> {
    if candidates == [] then None
    else
      var rest := TopScore(candidates[1..]);
      if rest.Some? && rest.value > candidates[0].score then rest else Some(candidates[0].score)
  }

  /** `_source_diversity` */
  function Diversity(candidates: seq<Candidate>): nat {
    |set c | c in candidates :: c.document|
  }

  /** `_sufficiency_score` */
  function SufficiencyScore(candidateCount: nat, selectedCount: nat, topScore: Option<real>, limits: Limits,
                            diversity: nat, comparison: bool): real
  {
    var score :=
      (if candidateCount >= limits.minCandidates then 0.35 else 0.0) +
      (if selectedCount >= limits.minSelected then 0.25 else 0.0) +
      (if topScore.Some? && topScore.value >= limits.threshold then 0.3 else 0.0) +
      (if !comparison || diversity >= 2 then 0.1 else 0.0);
    if score < 1.0 then score else 1.0
  }

  function AddIf(codes: seq<Code>, condition: bool, code: Code): seq<Code> {
    if condition then codes + [code] else codes
  }

  /** The reasons against, in the order they are checked. */
  function Objections(count: nat, selectedCount: nat, top: Option<real>, diversity: nat, comparison: bool,
                      limits: Limits): seq<Code>
  {
    var c1 := AddIf([], count == 0, NoCandidates);
    var c2 := AddIf(c1, count < limits.minCandidates, TooFewCandidates);
    var c3 := AddIf(c2, selectedCount < limits.minSelected, TooFewSelected);
    var c4 := AddIf(c3, top.None?, MissingTopScore);
    var c5 := AddIf(c4, top.Some? && top.value < limits.threshold, LowTopScore);
    var c6 := AddIf(c5, comparison && selectedCount < 2, TooFewSelectedForComparison);
    AddIf(c6, comparison && diversity < 2, InsufficientDiversityForComparison)
  }

  function Decide(candidates: seq<Candidate>, selectedCount: nat, comparison: bool, limits: Limits): Decision {
    var top, diversity := TopScore(candidates), Diversity(Prefix(candidates, selectedCount));
    var objections := Objections(|candidates|, selectedCount, top, diversity, comparison, limits);
    Decision(objections == [],
             SufficiencyScore(|candidates|, selectedCount, top, limits, diversity, comparison),
             AddIf(objections, objections == [], SufficientContext),
             |candidates|, selectedCount, top, diversity)
  }

  /** `ContextSufficiencyChecker.check` */
  method Check(candidates: seq<Candidate>, selectedCount: nat, comparison: bool, limits: Limits) returns (r: Decision)
    ensures r == Decide(candidates, selectedCount, comparison, limits)
  {
    hide TopScore, Diversity, SufficiencyScore;
    var candidateCount := |candidates|;
    var topScore := TopScore(candidates);
    var diversity := Diversity(Prefix(candidates, selectedCount));
    var codes: seq<Code> := [];
    var sufficient := true;
    if candidateCount == 0 {
      sufficient, codes := false, codes + [NoCandidates];
    }
    if candidateCount < limits.minCandidates {
      sufficient, codes := false, codes + [TooFewCandidates];
    }
    if selectedCount < limits.minSelected {
      sufficient, codes := false, codes + [TooFewSelected];
    }
    if topScore.None? {
      sufficient, codes := false, codes + [MissingTopScore];
    } else if topScore.value < limits.threshold {
      sufficient, codes := false, codes + [LowTopScore];
    }
    if comparison && selectedCount < 2 {
      sufficient, codes := false, codes + [TooFewSelectedForComparison];
    }
    if comparison && diversity < 2 {
      sufficient, codes := false, codes + [InsufficientDiversityForComparison];
    }
    assert codes == Objections(candidateCount, selectedCount, topScore, diversity, comparison, limits);
    if sufficient {
      codes := codes + [SufficientContext];
    }
    var score := SufficiencyScore(candidateCount, selectedCount, topScore, limits, diversity, comparison);
    r := Decision(sufficient, score, codes, candidateCount, selectedCount, topScore, diversity);
  }

  // ---- the decision, condition by condition

  /** Candidate `i` is among the `selectedCount` first. */
  predicate IsSelected(candidates: seq<Candidate>, selectedCount: nat, i: int) {
    0 <= i < |candidates| && i < selectedCount
  }

  /** Two selected candidates come from different documents. */
  ghost predicate SelectsTwoDocuments(candidates: seq<Candidate>, selectedCount: nat) {
    exists i, j :: IsSelected(candidates, selectedCount, i) && IsSelected(candidates, selectedCount, j) &&
                   candidates[i].document != candidates[j].document
  }

  predicate Reaches(candidates: seq<Candidate>, threshold: real) {
    exists i :: 0 <= i < |candidates| && candidates[i].score >= threshold
  }

  /** What each reason against says; `SufficientContext` is not one. */
  ghost predicate Fails(code: Code, candidates: seq<Candidate>, selectedCount: nat, comparison: bool, limits: Limits) {
    match code
    case NoCandidates => candidates == []
    case TooFewCandidates => |candidates| < limits.minCandidates
    case TooFewSelected => selectedCount < limits.minSelected
    case MissingTopScore => candidates == []
    case LowTopScore => candidates != [] && !Reaches(candidates, limits.threshold)
    case TooFewSelectedForComparison => comparison && selectedCount < 2
    case InsufficientDiversityForComparison => comparison && !SelectsTwoDocuments(candidates, selectedCount)
    case SufficientContext => false
  }

  function Place(code: Code): nat {
    match code
    case NoCandidates => 0
    case TooFewCandidates => 1
    case TooFewSelected => 2
    case MissingTopScore => 3
    case LowTopScore => 4
    case TooFewSelectedForComparison => 5
    case InsufficientDiversityForComparison => 6
    case SufficientContext => 7
  }

  /** No reason twice, and always in the same order. */
  predicate InOrder(codes: seq<Code>) {
    forall i, j :: 0 <= i < j < |codes| ==> Place(codes[i]) < Place(codes[j])
  }

  lemma {:induction false} TopScoreIsLargest(candidates: seq<Candidate>, score: real)
    ensures TopScore(candidates) == Some(score) <==>
            && (exists i :: 0 <= i < |candidates| && candidates[i].score == score)
            && (forall i :: 0 <= i < |candidates| ==> candidates[i].score <= score)
  {
    if candidates != [] {
      var rest := candidates[1..];
      TopScoreExists(rest);
      assert forall i :: 0 < i < |candidates| ==> candidates[i] == rest[i - 1];
      if rest != [] {
        TopScoreIsLargest(rest, TopScore(rest).value);
        TopScoreIsLargest(rest, score);
      }
    }
  }

  lemma DiversityOfTwo(candidates: seq<Candidate>, selectedCount: nat)
    ensures Diversity(Prefix(candidates, selectedCount)) >= 2 <==> SelectsTwoDocuments(candidates, selectedCount)
  {
    var chosen := Prefix(candidates, selectedCount);
    var documents := set c | c in chosen :: c.document;
    assert forall i :: 0 <= i < |chosen| ==> candidates[i] in chosen && candidates[i] == chosen[i];
    if SelectsTwoDocuments(candidates, selectedCount) {
      var i, j :| IsSelected(candidates, selectedCount, i) && IsSelected(candidates, selectedCount, j) &&
                  candidates[i].document != candidates[j].document;
      SubsetSize({candidates[i].document, candidates[j].document}, documents);
    } else if chosen != [] {
      assert IsSelected(candidates, selectedCount, 0);
      forall d | d in documents ensures d == chosen[0].document {
        var i :| 0 <= i < |chosen| && chosen[i].document == d;
        assert IsSelected(candidates, selectedCount, i);
      }
      SubsetSize(documents, {chosen[0].document});
    }
  }

  lemma ReachesIsTopScore(candidates: seq<Candidate>, threshold: real)
    ensures Reaches(candidates, threshold) <==>
            TopScore(candidates).Some? && TopScore(candidates).value >= threshold
  {
    TopScoreExists(candidates);
    if candidates != [] {
      TopScoreIsLargest(candidates, TopScore(candidates).value);
    }
  }

  predicate Before(codes: seq<Code>, place: nat) {
    forall c :: c in codes ==> Place(c) < place
  }

  /** A reason added last keeps the order. */
  lemma AddIfInOrder(codes: seq<Code>, condition: bool, code: Code)
    requires InOrder(codes) && Before(codes, Place(code))
    ensures var r := AddIf(codes, condition, code); InOrder(r) && Before(r, Place(code) + 1)
  {
    assert forall i :: 0 <= i < |codes| ==> codes[i] in codes;
  }

  lemma NoCodes()
    ensures InOrder([]) && Before([], 0)
  {}

  lemma ObjectionsInOrder(count: nat, selectedCount: nat, top: Option<real>, diversity: nat, comparison: bool,
                          limits: Limits)
    ensures InOrder(Objections(count, selectedCount, top, diversity, comparison, limits))
  {
    hide AddIf, InOrder, Before;
    NoCodes();
    var c1 := AddIf([], count == 0, NoCandidates);
    var c2 := AddIf(c1, count < limits.minCandidates, TooFewCandidates);
    var c3 := AddIf(c2, selectedCount < limits.minSelected, TooFewSelected);
    var c4 := AddIf(c3, top.None?, MissingTopScore);
    var c5 := AddIf(c4, top.Some? && top.value < limits.threshold, LowTopScore);
    var c6 := AddIf(c5, comparison && selectedCount < 2, TooFewSelectedForComparison);
    AddIfInOrder([], count == 0, NoCandidates);
    AddIfInOrder(c1, count < limits.minCandidates, TooFewCandidates);
    AddIfInOrder(c2, selectedCount < limits.minSelected, TooFewSelected);
    AddIfInOrder(c3, top.None?, MissingTopScore);
    AddIfInOrder(c4, top.Some? && top.value < limits.threshold, LowTopScore);
    AddIfInOrder(c5, comparison && selectedCount < 2, TooFewSelectedForComparison);
    AddIfInOrder(c6, comparison && diversity < 2, InsufficientDiversityForComparison);
  }

  lemma AddIfHas(codes: seq<Code>, condition: bool, code: Code, c: Code)
    ensures c in AddIf(codes, condition, code) <==> c in codes || (condition && c == code)
  {}

  lemma ObjectionsExact(count: nat, selectedCount: nat, top: Option<real>, diversity: nat, comparison: bool,
                        limits: Limits, c: Code)
    ensures c in Objections(count, selectedCount, top, diversity, comparison, limits) <==>
            || (c == NoCandidates && count == 0)
            || (c == TooFewCandidates && count < limits.minCandidates)
            || (c == TooFewSelected && selectedCount < limits.minSelected)
            || (c == MissingTopScore && top.None?)
            || (c == LowTopScore && top.Some? && top.value < limits.threshold)
            || (c == TooFewSelectedForComparison && comparison && selectedCount < 2)
            || (c == InsufficientDiversityForComparison && comparison && diversity < 2)
  {
    hide AddIf;
    var c1 := AddIf([], count == 0, NoCandidates);
    var c2 := AddIf(c1, count < limits.minCandidates, TooFewCandidates);
    var c3 := AddIf(c2, selectedCount < limits.minSelected, TooFewSelected);
    var c4 := AddIf(c3, top.None?, MissingTopScore);
    var c5 := AddIf(c4, top.Some? && top.value < limits.threshold, LowTopScore);
    var c6 := AddIf(c5, comparison && selectedCount < 2, TooFewSelectedForComparison);
    AddIfHas([], count == 0, NoCandidates, c);
    AddIfHas(c1, count < limits.minCandidates, TooFewCandidates, c);
    AddIfHas(c2, selectedCount < limits.minSelected, TooFewSelected, c);
    AddIfHas(c3, top.None?, MissingTopScore, c);
    AddIfHas(c4, top.Some? && top.value < limits.threshold, LowTopScore, c);
    AddIfHas(c5, comparison && selectedCount < 2, TooFewSelectedForComparison, c);
    AddIfHas(c6, comparison && diversity < 2, InsufficientDiversityForComparison, c);
  }

  /**
    Every field of a decision: one reason for each condition that fails, in the fixed order, and
    `SufficientContext` alone when none does; the score of the four conditions it counts; the
    highest score; and the number of documents among the selected candidates.
   */
  lemma DecisionExact(candidates: seq<Candidate>, selectedCount: nat, comparison: bool, limits: Limits)
    ensures var d := Decide(candidates, selectedCount, comparison, limits);
      && InOrder(d.codes)
      && (forall code :: code != SufficientContext ==>
            (code in d.codes <==> Fails(code, candidates, selectedCount, comparison, limits)))
      && (SufficientContext in d.codes <==> d.sufficient)
      && (d.sufficient <==> forall code :: !Fails(code, candidates, selectedCount, comparison, limits))
      && d.candidateCount == |candidates| && d.selectedCount == selectedCount
    ensures var d := Decide(candidates, selectedCount, comparison, limits);
      d.score == (if |candidates| >= limits.minCandidates then 0.35 else 0.0)
                 + (if selectedCount >= limits.minSelected then 0.25 else 0.0)
                 + (if Reaches(candidates, limits.threshold) then 0.3 else 0.0)
                 + (if !comparison || SelectsTwoDocuments(candidates, selectedCount) then 0.1 else 0.0)
    ensures var top := Decide(candidates, selectedCount, comparison, limits).topScore;
      && (top.None? <==> candidates == [])
      && (top.Some? ==>
            && (exists i :: 0 <= i < |candidates| && candidates[i].score == top.value)
            && (forall i :: 0 <= i < |candidates| ==> candidates[i].score <= top.value))
    ensures forall documents: set<int> ::
      (forall x :: x in documents <==>
        exists i :: IsSelected(candidates, selectedCount, i) && candidates[i].document == x) ==>
      Decide(candidates, selectedCount, comparison, limits).diversity == |documents|
  {
    var d := Decide(candidates, selectedCount, comparison, limits);
    CodesExact(candidates, selectedCount, comparison, limits);
    ScoreExact(candidates, selectedCount, comparison, limits);
    TopScoreExists(candidates);
    if candidates != [] {
      TopScoreIsLargest(candidates, d.topScore.value);
    }
    forall documents: set<int> |
      forall x :: x in documents <==>
        exists i :: IsSelected(candidates, selectedCount, i) && candidates[i].document == x
      ensures d.diversity == |documents|
    {
      hide TopScore, SufficiencyScore, Objections;
      SelectedDocuments(candidates, selectedCount, documents);
    }
  }

  lemma CodesExact(candidates: seq<Candidate>, selectedCount: nat, comparison: bool, limits: Limits)
    ensures var d := Decide(candidates, selectedCount, comparison, limits);
      && InOrder(d.codes)
      && (forall code :: code != SufficientContext ==>
            (code in d.codes <==> Fails(code, candidates, selectedCount, comparison, limits)))
      && (SufficientContext in d.codes <==> d.sufficient)
      && (d.sufficient <==> forall code :: !Fails(code, candidates, selectedCount, comparison, limits))
  {
    hide TopScore, Diversity, SufficiencyScore, Objections, Fails;
    var d := Decide(candidates, selectedCount, comparison, limits);
    var objections := Objections(|candidates|, selectedCount, d.topScore, d.diversity, comparison, limits);
    forall code ensures code in objections <==> Fails(code, candidates, selectedCount, comparison, limits) {
      ReasonExact(candidates, selectedCount, comparison, limits, code);
    }
    ObjectionsInOrder(|candidates|, selectedCount, d.topScore, d.diversity, comparison, limits);
    ReasonExact(candidates, selectedCount, comparison, limits, SufficientContext);
    assert objections != [] ==> objections[0] in objections;
    assert SufficientContext in [SufficientContext];
    assert !Fails(SufficientContext, candidates, selectedCount, comparison, limits) by {
      NotAReason(candidates, selectedCount, comparison, limits);
    }
  }

  lemma NotAReason(candidates: seq<Candidate>, selectedCount: nat, comparison: bool, limits: Limits)
    ensures !Fails(SufficientContext, candidates, selectedCount, comparison, limits)
  {}

  lemma ReasonExact(candidates: seq<Candidate>, selectedCount: nat, comparison: bool, limits: Limits, code: Code)
    ensures code in Objections(|candidates|, selectedCount, TopScore(candidates),
                               Diversity(Prefix(candidates, selectedCount)), comparison, limits) <==>
            Fails(code, candidates, selectedCount, comparison, limits)
  {
    hide TopScore, Diversity, Objections, Reaches, SelectsTwoDocuments;
    var top, diversity := TopScore(candidates), Diversity(Prefix(candidates, selectedCount));
    TopScoreExists(candidates);
    ReachesIsTopScore(candidates, limits.threshold);
    DiversityOfTwo(candidates, selectedCount);
    ObjectionsExact(|candidates|, selectedCount, top, diversity, comparison, limits, code);
  }

  lemma ScoreExact(candidates: seq<Candidate>, selectedCount: nat, comparison: bool, limits: Limits)
    ensures Decide(candidates, selectedCount, comparison, limits).score ==
            (if |candidates| >= limits.minCandidates then 0.35 else 0.0)
            + (if selectedCount >= limits.minSelected then 0.25 else 0.0)
            + (if Reaches(candidates, limits.threshold) then 0.3 else 0.0)
            + (if !comparison || SelectsTwoDocuments(candidates, selectedCount) then 0.1 else 0.0)
  {
    hide TopScore, Diversity, Objections, Reaches, SelectsTwoDocuments;
    ReachesIsTopScore(candidates, limits.threshold);
    DiversityOfTwo(candidates, selectedCount);
  }

  lemma SelectedDocuments(candidates: seq<Candidate>, selectedCount: nat, documents: set<int>)
    requires forall x :: x in documents <==>
      exists i :: IsSelected(candidates, selectedCount, i) && candidates[i].document == x
    ensures Diversity(Prefix(candidates, selectedCount)) == |documents|
  {
    var chosen := Prefix(candidates, selectedCount);
    var found := set c | c in chosen :: c.document;
    forall x ensures x in documents <==> x in found {
      if x in documents {
        var i :| IsSelected(candidates, selectedCount, i) && candidates[i].document == x;
        assert chosen[i] == candidates[i];
      }
      if x in found {
        var i :| 0 <= i < |chosen| && chosen[i].document == x;
        assert IsSelected(candidates, selectedCount, i) && chosen[i] == candidates[i];
      }
    }
    assert documents == found;
  }

  // ---- the score and the decision agree

  lemma {:induction false} DiversityAtMost(candidates: seq<Candidate>)
    ensures Diversity(candidates) <= |candidates|
  {
    if candidates != [] {
      var rest := candidates[1..];
      DiversityAtMost(rest);
      var documents := set c | c in rest :: c.document;
      assert candidates == [candidates[0]] + rest;
      assert (set c | c in candidates :: c.document) == {candidates[0].document} + documents;
    }
  }

  /** With positive minimums the score is 1 exactly when the context is sufficient. */
  lemma FullScoreMeansSufficient(candidates: seq<Candidate>, selectedCount: nat, comparison: bool, limits: Limits)
    requires limits.minCandidates >= 1 && limits.minSelected >= 1
    ensures var d := Decide(candidates, selectedCount, comparison, limits);
      && 0.0 <= d.score <= 1.0
      && (d.score == 1.0 <==> d.sufficient)
      && (d.sufficient <==> d.codes == [SufficientContext])
      && (SufficientContext in d.codes ==> d.sufficient)
  {
    hide TopScore, Diversity;
    DiversityAtMost(Prefix(candidates, selectedCount));
    TopScoreExists(candidates);
    var d := Decide(candidates, selectedCount, comparison, limits);
    if d.sufficient {
      assert d.codes == [] + [SufficientContext];
    } else {
      assert SufficientContext !in d.codes;
      assert SufficientContext in [SufficientContext];
    }
  }

  lemma TopScoreExists(candidates: seq<Candidate>)
    ensures TopScore(candidates).Some? <==> candidates != []
  {}

  // ---- more retrieval does not hurt

  lemma {:induction false} TopScoreOfSorted(candidates: seq<Candidate>)
    requires candidates != []
    requires forall i, j :: 0 <= i < j < |candidates| ==> Better(Keyed(candidates[i]), Keyed(candidates[j]))
    ensures TopScore(candidates) == Some(candidates[0].score)
  {
    if |candidates| > 1 {
      assert Better(Keyed(candidates[0]), Keyed(candidates[1]));
      TopScoreOfSorted(candidates[1..]);
    }
  }

  /** How many of the merged candidates the reranker keeps. */
  function SelectedCount(candidates: seq<Candidate>, rerankTopN: nat): nat {
    if rerankTopN < |candidates| then rerankTopN else |candidates|
  }

  /** The decision the loop takes on everything retrieved so far. */
  function DecideMerged(batches: seq<Batch>, topK: nat, rerankTopN: nat, comparison: bool, limits: Limits): Decision {
    var merged := Merge(batches, topK);
    Decide(merged, SelectedCount(merged, rerankTopN), comparison, limits)
  }

  /** The top of a larger score table is no shorter and starts no lower. */
  lemma TopGrows(best: map<int, real>, more: map<int, real>, limit: nat, a: seq<(int, real)>, b: seq<(int, real)>)
    requires IsTop(best, limit, a) && IsTop(more, limit, b)
    requires forall id :: id in best ==> id in more && best[id] <= more[id]
    ensures |a| <= |b| && (a != [] ==> b[0].1 >= a[0].1)
  {
    assert best.Keys <= more.Keys by {
      forall id | id in best.Keys ensures id in more.Keys { assert id in best; }
    }
    SubsetSize(best.Keys, more.Keys);
    assert |best| == |best.Keys| && |more| == |more.Keys|;
    if a != [] {
      var id := a[0].0;
      if Listed(id, b) {
        var i :| 0 <= i < |b| && b[i].0 == id;
        assert i > 0 ==> Better(b[0], b[i]);
      }
    }
  }

  /** Except for comparisons, context that suffices still suffices after one more attempt. */
  lemma MoreStaysSufficient(batches: seq<Batch>, more: Batch, topK: nat, rerankTopN: nat, limits: Limits)
    requires DecideMerged(batches, topK, rerankTopN, false, limits).sufficient
    ensures DecideMerged(batches + [more], topK, rerankTopN, false, limits).sufficient
  {
    hide Merge, Best, Diversity;
    var old', new' := Merge(batches, topK), Merge(batches + [more], topK);
    assert (batches + [more])[..|batches|] == batches;
    assert AllSeen(batches + [more]) == AllSeen(batches) + SeenIn(more);
    MergeIsTop(batches, topK);
    MergeIsTop(batches + [more], topK);
    BestOfConcat(AllSeen(batches), SeenIn(more));
    TopGrows(Best(AllSeen(batches)), Best(AllSeen(batches + [more])), topK, Keys(old'), Keys(new'));
    TopScoreExists(old');
    MergedTopScore(batches, topK);
    MergedTopScore(batches + [more], topK);
  }

  lemma MergedTopScore(batches: seq<Batch>, topK: nat)
    requires Merge(batches, topK) != []
    ensures TopScore(Merge(batches, topK)) == Some(Merge(batches, topK)[0].score)
  {
    hide Merge, Best;
    var merged := Merge(batches, topK);
    MergeIsTop(batches, topK);
    forall i, j | 0 <= i < j < |merged| ensures Better(Keyed(merged[i]), Keyed(merged[j])) {
      assert Better(Keys(merged)[i], Keys(merged)[j]);
    }
    TopScoreOfSorted(merged);
  }

  // ---- comparisons are different

  /** Chunk `id` of document `document`. */
  function Chunk(id: int, document: int, score: real): Candidate {
    Candidate(id, document, score, 1, map[])
  }

  const FIRST: Batch := Batch("initial_dense", [Chunk(1, 10, 0.9), Chunk(2, 20, 0.8)])
  const SECOND: Batch := Batch("fallback_hybrid", [Chunk(3, 10, 0.85)])

  function EntryOf(source: string, c: Candidate): Entry {
    Entry(c, map[], {source})
  }

  lemma GatherTwo()
    ensures Gather(AllSeen([FIRST])) ==
            [EntryOf("initial_dense", Chunk(1, 10, 0.9)), EntryOf("initial_dense", Chunk(2, 20, 0.8))]
  {
    var a, b := Chunk(1, 10, 0.9), Chunk(2, 20, 0.8);
    assert [FIRST][..0] == [];
    var s := AllSeen([FIRST]);
    assert s == AllSeen([]) + SeenIn(FIRST) == SeenIn(FIRST);
    assert s == [Seen("initial_dense", a), Seen("initial_dense", b)];
    assert s[..1] == [Seen("initial_dense", a)] && s[..1][..0] == [];
    assert Gather(s[..1]) == [EntryOf("initial_dense", a)];
  }

  lemma GatherThree()
    ensures Gather(AllSeen([FIRST, SECOND])) ==
            [EntryOf("initial_dense", Chunk(1, 10, 0.9)), EntryOf("initial_dense", Chunk(2, 20, 0.8)),
             EntryOf("fallback_hybrid", Chunk(3, 10, 0.85))]
  {
    GatherTwo();
    assert [FIRST, SECOND][..1] == [FIRST];
    var s := AllSeen([FIRST, SECOND]);
    assert s == AllSeen([FIRST]) + [Seen("fallback_hybrid", Chunk(3, 10, 0.85))];
    assert s[..|s| - 1] == AllSeen([FIRST]);
    assert IndexOf(Gather(AllSeen([FIRST])), 3) == 2;
  }

  /**
    For a comparison one more attempt can take sufficient context away: a better chunk of
    an already chosen document pushes out the only chunk of the second one.
   */
  lemma ComparisonCanRegress()
    ensures var limits := Limits(1, 1, 0.5);
      && DecideMerged([FIRST], 5, 2, true, limits).sufficient
      && !DecideMerged([FIRST] + [SECOND], 5, 2, true, limits).sufficient
  {
    var limits := Limits(1, 1, 0.5);
    MergedTwo();
    MergedThree();
    assert [FIRST] + [SECOND] == [FIRST, SECOND];
    var two, three := Merge([FIRST], 5), Merge([FIRST, SECOND], 5);
    hide Merge, SufficiencyScore;
    assert Prefix(two, 2) == two;
    assert {two[0].document, two[1].document} == (set c | c in two :: c.document);
    assert |{10, 20}| == 2;
    assert TopScore(two[1..]) == Some(0.8);
    assert Prefix(three, 2) == three[..2];
    assert three[..2] == [three[0], three[1]];
    forall c | c in three[..2] ensures c.document == 10 {}
    assert three[0] in three[..2];
    assert (set c | c in three[..2] :: c.document) == {10};
  }

  lemma MergedTwo()
    ensures Merge([FIRST], 5) == [Chunk(1, 10, 0.9), Chunk(2, 20, 0.8).(rank := 2)]
  {
    GatherTwo();
    var a, b := EntryOf("initial_dense", Chunk(1, 10, 0.9)), EntryOf("initial_dense", Chunk(2, 20, 0.8));
    assert [a, b][1..] == [b] && [b][1..] == [];
    assert Ranked([b]) == [b];
    assert Ranked([a, b]) == [a, b];
  }

  lemma MergedThree()
    ensures Merge([FIRST, SECOND], 5) ==
            [Chunk(1, 10, 0.9), Chunk(3, 10, 0.85).(rank := 2), Chunk(2, 20, 0.8).(rank := 3)]
  {
    GatherThree();
    var a, b := EntryOf("initial_dense", Chunk(1, 10, 0.9)), EntryOf("initial_dense", Chunk(2, 20, 0.8));
    var c := EntryOf("fallback_hybrid", Chunk(3, 10, 0.85));
    assert [a, b, c][1..] == [b, c] && [b, c][1..] == [c] && [c][1..] == [];
    assert Ranked([c]) == [c];
    assert Insert(b, [c]) == [c] + Insert(b, []);
    assert Ranked([b, c]) == [c, b];
    assert Ranked([a, b, c]) == [a, c, b];
  }
}

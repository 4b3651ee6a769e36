/**
  Whether the last sufficiency decision of a run is about the candidates the run returns. The
  first decision is taken on the list as retrieved (`execute` in agentic.py), later ones on the
  merged list, and it is always a merged list that is returned.
 */
module FinalDecision {
  import opened Text
  import opened Sets
  import opened CandidateMerge
  import opened Sufficiency
  import opened AgenticLoop

  // ---- the place of a chunk

  /** The chunks of a score table that come before one of its chunks. */
  ghost function Outranking(best: map<int, real>, id: int): set<int>
    requires id in best
  {
    set j | j in best && Better((j, best[j]), (id, best[id]))
  }

  /** The position of a listed chunk is the number of chunks that come before it. */
  lemma PositionIsRank(best: map<int, real>, limit: nat, top: seq<(int, real)>, k: nat)
    requires IsTop(best, limit, top) && k < |top|
    ensures top[k].0 in best && |Outranking(best, top[k].0)| == k
  {
    var front, id := top[..k], top[k].0;
    ListedCount(best, front);
    forall i | 0 <= i < |top| ensures Better(top[i], top[k]) <==> i < k {
      if i > k {
        assert Better(top[k], top[i]);
      }
    }
    forall j ensures j in Outranking(best, id) <==> j in ListedIds(front) {
      if j in best && Better((j, best[j]), top[k]) {
        BetterIsListed(best, limit, top, k, j);
        var i :| 0 <= i < |top| && top[i].0 == j;
        assert Better(top[i], top[k]);
        assert front[i] == top[i];
      }
      if Listed(j, front) {
        var i :| 0 <= i < |front| && front[i].0 == j;
        assert front[i] == top[i] && Better(top[i], top[k]);
      }
    }
    assert Outranking(best, id) == ListedIds(front);
  }

  /** A chunk with fewer than `limit` others before it is listed. */
  lemma BestAreListed(best: map<int, real>, limit: nat, top: seq<(int, real)>, id: int) returns (k: nat)
    requires IsTop(best, limit, top) && id in best && |Outranking(best, id)| < limit
    ensures k < |top| && top[k].0 == id
  {
    if !Listed(id, top) {
      if |top| < limit {
        AllListed(best, limit, top, id);
      } else {
        ListedCount(best, top);
        forall j | j in ListedIds(top) ensures j in Outranking(best, id) {
          var i :| 0 <= i < |top| && top[i].0 == j;
          assert Better(top[i], (id, best[id]));
        }
        SubsetSize(ListedIds(top), Outranking(best, id));
      }
    }
    k :| 0 <= k < |top| && top[k].0 == id;
  }

  // ---- the condition on the retrieved list

  function ScoresOf(cs: seq<Candidate>): map<int, real> {
    Best(SeenIn(Batch("", cs)))
  }

  function ChunkIdsOf(cs: seq<Candidate>): set<int> {
    set c | c in cs :: c.id
  }

  /** The candidate's chunk is one of the `n` best. */
  ghost predicate AmongBest(cs: seq<Candidate>, c: Candidate, n: nat) {
    c in cs && c.id in ScoresOf(cs) && |Outranking(ScoresOf(cs), c.id)| < n
  }

  ghost predicate TwoDocumentsAmongBest(cs: seq<Candidate>, n: nat) {
    exists a, b :: AmongBest(cs, a, n) && AmongBest(cs, b, n) && a.document != b.document
  }

  /** A chunk belongs to one document. */
  ghost predicate OneDocumentPerChunk(cs: seq<Candidate>) {
    forall a, b :: a in cs && b in cs && a.id == b.id ==> a.document == b.document
  }

  lemma ScoresCoverIds(cs: seq<Candidate>)
    ensures ScoresOf(cs).Keys == ChunkIdsOf(cs) && |ScoresOf(cs)| == |ChunkIdsOf(cs)|
  {
    hide Best;
    var seen := SeenIn(Batch("", cs));
    BestIsBest(seen);
    forall c | c in cs ensures c.id in ScoresOf(cs) {
      var i :| 0 <= i < |cs| && cs[i] == c;
      assert seen[i] in seen;
    }
    forall id | id in ScoresOf(cs) ensures id in ChunkIdsOf(cs) {
      var s :| s in seen && Keyed(s.candidate) == (id, ScoresOf(cs)[id]);
      SeenIsCandidate(Batch("", cs), s);
    }
    assert |ScoresOf(cs)| == |ScoresOf(cs).Keys|;
  }

  /** The list has a candidate of the same chunk and document. */
  ghost predicate Knows(cs: seq<Candidate>, c: Candidate) {
    exists d :: d in cs && d.id == c.id && d.document == c.document
  }

  /** The merge of one attempt lists its best chunks, each of its document. */
  lemma MergedOne(cs: seq<Candidate>, source: string, topK: nat)
    ensures IsTop(ScoresOf(cs), topK, Keys(Merge([Batch(source, cs)], topK)))
    ensures forall i :: 0 <= i < |Merge([Batch(source, cs)], topK)| ==> Knows(cs, Merge([Batch(source, cs)], topK)[i])
  {
    hide Merge, Best, AllSeen;
    var b, merged := Batch(source, cs), Merge([Batch(source, cs)], topK);
    MergeIsTop([b], topK);
    AllSeenOne(b);
    SameScores(cs, source);
    forall i | 0 <= i < |merged| ensures Knows(cs, merged[i]) {
      var s := MergedWasReturned([b], topK, i);
      SeenIsCandidate(b, s);
    }
  }

  lemma SameScores(cs: seq<Candidate>, source: string)
    ensures Best(SeenIn(Batch(source, cs))) == ScoresOf(cs)
  {
    hide Best;
    var a, b := SeenIn(Batch(source, cs)), SeenIn(Batch("", cs));
    assert Pairs(a) == Pairs(b) by {
      forall p ensures p in Pairs(a) <==> p in Pairs(b) {
        if p in Pairs(a) {
          var s :| s in a && Keyed(s.candidate) == p;
          var i :| 0 <= i < |a| && a[i] == s;
          assert b[i] in b && Keyed(b[i].candidate) == p;
        }
        if p in Pairs(b) {
          var s :| s in b && Keyed(s.candidate) == p;
          var i :| 0 <= i < |b| && b[i] == s;
          assert a[i] in a && Keyed(a[i].candidate) == p;
        }
      }
    }
    SamePairsSameBest(a, b);
  }

  function Lesser(a: nat, b: nat): nat {
    if a < b then a else b
  }

  /** The documents of the first merged candidates are those of the best chunks retrieved. */
  lemma DiversityOfBest(cs: seq<Candidate>, source: string, topK: nat, n: nat)
    requires OneDocumentPerChunk(cs) && n <= |Merge([Batch(source, cs)], topK)|
    ensures Diversity(Prefix(Merge([Batch(source, cs)], topK), n)) >= 2 <==> TwoDocumentsAmongBest(cs, n)
  {
    hide Merge, ScoresOf, AmongBest;
    var merged := Merge([Batch(source, cs)], topK);
    var first := Prefix(merged, n);
    assert |first| == n && forall i :: 0 <= i < n ==> first[i] == merged[i];
    var documents := set c | c in first :: c.document;
    if Diversity(first) >= 2 {
      var i, j := TwoDiffer(first);
      var a := BestAt(cs, source, topK, i, n);
      var b := BestAt(cs, source, topK, j, n);
    }
    if TwoDocumentsAmongBest(cs, n) {
      var a, b :| AmongBest(cs, a, n) && AmongBest(cs, b, n) && a.document != b.document;
      var i := PlaceOf(cs, source, topK, n, a);
      var j := PlaceOf(cs, source, topK, n, b);
      assert first[i] in first && first[j] in first;
      assert {a.document, b.document} <= documents;
      SubsetSize({a.document, b.document}, documents);
    }
  }

  /** Two of the candidates have different documents. */
  lemma TwoDiffer(cs: seq<Candidate>) returns (i: nat, j: nat)
    requires Diversity(cs) >= 2
    ensures i < |cs| && j < |cs| && cs[i].document != cs[j].document
  {
    var documents := set c | c in cs :: c.document;
    assert cs != [];
    if forall c :: c in cs ==> c.document == cs[0].document {
      assert documents <= {cs[0].document};
      SubsetSize(documents, {cs[0].document});
    }
    var c :| c in cs && c.document != cs[0].document;
    i := 0;
    j :| 0 <= j < |cs| && cs[j] == c;
  }

  lemma BestAt(cs: seq<Candidate>, source: string, topK: nat, i: nat, n: nat) returns (c: Candidate)
    requires i < n <= |Merge([Batch(source, cs)], topK)|
    ensures AmongBest(cs, c, n) && c.document == Merge([Batch(source, cs)], topK)[i].document
  {
    hide Merge, ScoresOf;
    var merged := Merge([Batch(source, cs)], topK);
    MergedOne(cs, source, topK);
    PositionIsRank(ScoresOf(cs), topK, Keys(merged), i);
    assert Knows(cs, merged[i]);
    c :| c in cs && c.id == merged[i].id && c.document == merged[i].document;
  }

  lemma PlaceOf(cs: seq<Candidate>, source: string, topK: nat, n: nat, c: Candidate) returns (i: nat)
    requires OneDocumentPerChunk(cs) && n <= |Merge([Batch(source, cs)], topK)| && AmongBest(cs, c, n)
    ensures i < n && Merge([Batch(source, cs)], topK)[i].document == c.document
  {
    hide Merge, ScoresOf;
    var merged := Merge([Batch(source, cs)], topK);
    MergedOne(cs, source, topK);
    i := BestAreListed(ScoresOf(cs), topK, Keys(merged), c.id);
    PositionIsRank(ScoresOf(cs), topK, Keys(merged), i);
    assert Knows(cs, merged[i]);
    var d :| d in cs && d.id == merged[i].id && d.document == merged[i].document;
  }

  /**
    When the list as retrieved was sufficient, the merged list is too exactly when dropping
    repeats and cutting at `topK` leaves enough candidates, enough of them are selected and,
    for a comparison, the selected ones come from two documents.
   */
  lemma FirstDecisionStands(cs: seq<Candidate>, source: string, topK: nat, rerankTopN: nat, comparison: bool,
                            limits: Limits)
    requires Decide(cs, SelectedCount(cs, rerankTopN), comparison, limits).sufficient
    requires comparison ==> OneDocumentPerChunk(cs)
    ensures var m := Lesser(topK, |ChunkIdsOf(cs)|);
      var n := Lesser(rerankTopN, m);
      DecideMerged([Batch(source, cs)], topK, rerankTopN, comparison, limits).sufficient <==>
        m >= 1 && m >= limits.minCandidates && n >= limits.minSelected &&
        (comparison ==> n >= 2 && TwoDocumentsAmongBest(cs, n))
  {
    var merged := Merge([Batch(source, cs)], topK);
    var m := Lesser(topK, |ChunkIdsOf(cs)|);
    var n := Lesser(rerankTopN, m);
    MergedOne(cs, source, topK);
    ScoresCoverIds(cs);
    assert |merged| == |Keys(merged)| == m;
    assert SelectedCount(merged, rerankTopN) == n;
    if comparison {
      DiversityOfBest(cs, source, topK, n);
    }
    TopScoreExists(merged);
    if m >= 1 {
      TopScoreKept(cs, source, topK);
    }
    hide Merge, ScoresOf, TopScore, Diversity, TwoDocumentsAmongBest, SufficiencyScore, OneDocumentPerChunk, IsTop,
        ChunkIdsOf;
  }

  /** Merging keeps the highest score. */
  lemma TopScoreKept(cs: seq<Candidate>, source: string, topK: nat)
    requires Merge([Batch(source, cs)], topK) != []
    ensures TopScore(Merge([Batch(source, cs)], topK)) == TopScore(cs)
  {
    hide Merge, Best, TopScore;
    var merged, seen := Merge([Batch(source, cs)], topK), SeenIn(Batch("", cs));
    var best, top := ScoresOf(cs), Keys(Merge([Batch(source, cs)], topK));
    MergedOne(cs, source, topK);
    MergedTopScore([Batch(source, cs)], topK);
    BestIsBest(seen);
    var s :| s in seen && Keyed(s.candidate) == (top[0].0, best[top[0].0]);
    SeenIsCandidate(Batch("", cs), s);
    forall c | c in cs ensures c.score <= top[0].1 {
      var i :| 0 <= i < |cs| && cs[i] == c;
      assert seen[i] in seen;
      FirstIsHighest(best, topK, top, c.id);
    }
    HighestIsTop(cs, s.candidate);
  }

  lemma FirstIsHighest(best: map<int, real>, limit: nat, top: seq<(int, real)>, id: int)
    requires IsTop(best, limit, top) && top != [] && id in best
    ensures best[id] <= top[0].1
  {
    if Listed(id, top) {
      var i :| 0 <= i < |top| && top[i].0 == id;
      assert i > 0 ==> Better(top[0], top[i]);
    }
  }

  lemma {:induction false} HighestIsTop(cs: seq<Candidate>, c: Candidate)
    requires c in cs && forall d :: d in cs ==> d.score <= c.score
    ensures TopScore(cs) == Some(c.score)
  {
    var rest := cs[1..];
    assert cs == [cs[0]] + rest;
    if c in rest {
      HighestIsTop(rest, c);
    } else {
      TopScoreAtMost(rest, c.score);
    }
  }

  lemma {:induction false} TopScoreAtMost(cs: seq<Candidate>, score: real)
    requires forall d :: d in cs ==> d.score <= score
    ensures TopScore(cs).Some? ==> TopScore(cs).value <= score
  {
    if cs != [] {
      var rest := cs[1..];
      assert cs == [cs[0]] + rest;
      TopScoreAtMost(rest, score);
    }
  }

  // ---- runs

  /** The decision about the candidates a run returns. */
  function DecisionOn(r: Result, request: Request, limits: Limits): Decision {
    Decide(r.finalCandidates, SelectedCount(r.finalCandidates, request.rerankTopN), request.comparison, limits)
  }

  /**
    After a fallback, the last decision is about the candidates returned. A run that stops
    after a sufficient first attempt returns sufficient candidates exactly under the condition
    of `FirstDecisionStands`.
   */
  lemma LastDecisionIsFinal(settings: Settings, planner: Option<Planner>, retrieve: Retriever, request: Request)
    ensures var r := Run(settings, planner, retrieve, request);
      && |r.attempts| == |r.decisions| >= 1
      && (|r.attempts| >= 2 ==> r.decisions[|r.decisions| - 1] == DecisionOn(r, request, settings.limits))
      && (|r.attempts| == 1 && r.decisions[0].sufficient &&
          (request.comparison ==> OneDocumentPerChunk(r.attempts[0].candidates)) ==>
            var cs := r.attempts[0].candidates;
            var m := Lesser(request.topK, |ChunkIdsOf(cs)|);
            var n := Lesser(request.rerankTopN, m);
            (DecisionOn(r, request, settings.limits).sufficient <==>
              m >= 1 && m >= settings.limits.minCandidates && n >= settings.limits.minSelected &&
              (request.comparison ==> n >= 2 && TwoDocumentsAmongBest(cs, n))))
  {
    RunIsSafe(settings, planner, retrieve, request);
    hide Run, Merge, Decide, TwoDocumentsAmongBest, OneDocumentPerChunk, ChunkIdsOf, FallbackRequested, OneReason,
        WithinBudget;
    var r := Run(settings, planner, retrieve, request);
    var n := |r.attempts| - 1;
    assert r.attempts[..n + 1] == r.attempts;
    if n == 0 {
      var first := r.attempts[0];
      assert Batches(r.attempts) == [Batch(first.source, first.candidates)];
      if r.decisions[0].sufficient && (request.comparison ==> OneDocumentPerChunk(first.candidates)) {
        FirstDecisionStands(first.candidates, first.source, request.topK, request.rerankTopN, request.comparison,
                            settings.limits);
      }
    }
  }

  /** It can fail: one chunk retrieved twice counts as two candidates, but only once when merged. */
  lemma FirstDecisionCanFall()
    ensures var cs := [Chunk(1, 10, 0.9), Chunk(1, 10, 0.9)];
      var limits := Limits(2, 1, 0.5);
      && Decide(cs, SelectedCount(cs, 2), false, limits).sufficient
      && !DecideMerged([Batch("initial_dense", cs)], 5, 2, false, limits).sufficient
  {
    var c := Chunk(1, 10, 0.9);
    var cs, limits := [c, c], Limits(2, 1, 0.5);
    assert TopScore(cs[1..]) == Some(0.9) && TopScore(cs) == Some(0.9);
    hide DecideMerged, SufficiencyScore;
    assert ChunkIdsOf(cs) == {1};
    FirstDecisionStands(cs, "initial_dense", 5, 2, false, limits);
  }
}

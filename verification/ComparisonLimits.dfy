/**
  For comparisons, further retrieval can take sufficient context away. This says for exactly
  which settings it can.
 */
module ComparisonLimits {
  import opened Sets
  import opened CandidateMerge
  import opened Sufficiency

  /** `n` chunks with consecutive ids and one score: the first of one document, the rest of another. */
  function Crowd(base: nat, n: nat, first: int, rest: int, score: real): (r: seq<Candidate>)
    ensures |r| == n
    ensures forall i :: 0 <= i < n ==> r[i] == Chunk(base + i, if i == 0 then first else rest, score)
  {
    seq(n, i requires 0 <= i < n => Chunk(base + i, if i == 0 then first else rest, score))
  }

  ghost predicate Returned(seen: seq<Seen>, c: Candidate) {
    exists s :: s in seen && s.candidate == c
  }

  /** The crowd was returned, and all other candidates have other ids and lower scores. */
  ghost predicate Outscores(seen: seq<Seen>, base: nat, crowd: seq<Candidate>, score: real) {
    && (forall i :: 0 <= i < |crowd| ==> Returned(seen, crowd[i]))
    && (forall s :: s in seen ==> s.candidate in crowd || Outdone(s.candidate, base, |crowd|, score))
  }

  ghost predicate Outdone(c: Candidate, base: nat, n: nat, score: real) {
    c.score < score && !(base <= c.id < base + n)
  }

  function CrowdKeys(base: nat, n: nat, score: real): (r: seq<(int, real)>)
    ensures |r| == n
    ensures forall i :: 0 <= i < n ==> r[i] == (base + i, score)
  {
    seq(n, i requires 0 <= i < n => (base + i, score))
  }

  lemma CrowdMember(base: nat, n: nat, first: int, rest: int, score: real, c: Candidate)
    requires c in Crowd(base, n, first, rest, score)
    ensures base <= c.id < base + n && c == Crowd(base, n, first, rest, score)[c.id - base]
  {
    var crowd := Crowd(base, n, first, rest, score);
    var k :| 0 <= k < n && crowd[k] == c;
  }

  /** The score table has the crowd at its score and everything else below it. */
  lemma CrowdIsBest(seen: seq<Seen>, base: nat, n: nat, first: int, rest: int, score: real, id: int)
    requires Outscores(seen, base, Crowd(base, n, first, rest, score), score)
    ensures base <= id < base + n ==> id in Best(seen) && Best(seen)[id] == score
    ensures id in Best(seen) && !(base <= id < base + n) ==> Best(seen)[id] < score
  {
    hide Best;
    var crowd, best := Crowd(base, n, first, rest, score), Best(seen);
    BestIsBest(seen);
    if base <= id < base + n {
      assert Returned(seen, crowd[id - base]);
      var s :| s in seen && s.candidate == crowd[id - base];
      assert s.candidate.id == id;
    }
    if id in best {
      var t :| t in seen && Keyed(t.candidate) == (id, best[id]);
      if t.candidate in crowd {
        CrowdMember(base, n, first, rest, score, t.candidate);
      }
    }
  }

  lemma CrowdKeysAre(best: map<int, real>, base: nat, n: nat, score: real)
    requires forall id :: base <= id < base + n ==> id in best && best[id] == score
    ensures var keys := CrowdKeys(base, n, score);
      && (forall i :: 0 <= i < n ==> keys[i].0 in best && best[keys[i].0] == keys[i].1)
      && (forall i, j :: 0 <= i < j < n ==> Better(keys[i], keys[j]))
      && (forall id :: base <= id < base + n ==> Listed(id, keys))
  {
    var keys := CrowdKeys(base, n, score);
    forall id | base <= id < base + n ensures Listed(id, keys) {
      assert keys[id - base].0 == id;
    }
  }

  lemma CrowdIsTop(seen: seq<Seen>, base: nat, n: nat, first: int, rest: int, score: real)
    requires Outscores(seen, base, Crowd(base, n, first, rest, score), score)
    ensures IsTop(Best(seen), n, CrowdKeys(base, n, score))
  {
    var best, keys := Best(seen), CrowdKeys(base, n, score);
    forall id: int
      ensures base <= id < base + n ==> id in best && best[id] == score
      ensures id in best && !(base <= id < base + n) ==> best[id] < score
    {
      CrowdIsBest(seen, base, n, first, rest, score, id);
    }
    hide Best, Outscores;
    CrowdKeysAre(best, base, n, score);
    ManyKeys(best, keys);
    forall id, i | id in best && !Listed(id, keys) && 0 <= i < n ensures Better(keys[i], (id, best[id])) {
      assert best[id] < score;
    }
    hide Better, CrowdKeys, Listed;
  }

  lemma ManyKeys(best: map<int, real>, keys: seq<(int, real)>)
    requires forall i :: 0 <= i < |keys| ==> keys[i].0 in best && best[keys[i].0] == keys[i].1
    requires forall i, j :: 0 <= i < j < |keys| ==> Better(keys[i], keys[j])
    ensures |keys| <= |best|
  {
    ListedCount(best, keys);
    forall id | id in ListedIds(keys) ensures id in best.Keys {
      assert Listed(id, keys);
    }
    SubsetSize(ListedIds(keys), best.Keys);
    assert |best| == |best.Keys|;
  }

  /** A crowd that outscores the rest fills the merge on its own. */
  lemma CrowdFillsMerge(batches: seq<Batch>, base: nat, n: nat, first: int, rest: int, score: real)
    requires Outscores(AllSeen(batches), base, Crowd(base, n, first, rest, score), score)
    ensures var merged := Merge(batches, n);
      && |merged| == n
      && forall i :: 0 <= i < n ==> merged[i].score == score && merged[i].document == if i == 0 then first else rest
  {
    hide Merge, Best, AllSeen;
    var crowd, merged, keys := Crowd(base, n, first, rest, score), Merge(batches, n), CrowdKeys(base, n, score);
    MergeIsTop(batches, n);
    CrowdIsTop(AllSeen(batches), base, n, first, rest, score);
    TopUnique(Best(AllSeen(batches)), n, Keys(merged), keys);
    hide IsTop;
    forall i | 0 <= i < n ensures merged[i].score == score && merged[i].document == if i == 0 then first else rest {
      assert Keys(merged)[i] == keys[i];
      var s := MergedWasReturned(batches, n, i);
      assert s.candidate.id == base + i && !Outdone(s.candidate, base, n, score);
      CrowdMember(base, n, first, rest, score, s.candidate);
    }
  }

  // ---- the two attempts

  const SPREAD_SCORE: real := 1.0
  const CROWDED_SCORE: real := 2.0

  /** Chunks of two documents, just good enough. */
  function Spread(topK: nat, limits: Limits): Batch {
    Batch("initial_dense", Crowd(1, topK, 10, 20, limits.threshold + SPREAD_SCORE))
  }

  /** As many better chunks of one document. */
  function Crowded(topK: nat, limits: Limits): Batch {
    Batch("fallback_hybrid", Crowd(topK + 1, topK, 10, 10, limits.threshold + CROWDED_SCORE))
  }

  lemma BatchIsReturned(b: Batch, seen: seq<Seen>)
    requires forall s :: s in SeenIn(b) ==> s in seen
    ensures forall i :: 0 <= i < |b.candidates| ==> Returned(seen, b.candidates[i])
  {
    forall i | 0 <= i < |b.candidates| ensures Returned(seen, b.candidates[i]) {
      assert SeenIn(b)[i] in SeenIn(b);
    }
  }

  lemma SpreadMerged(topK: nat, limits: Limits)
    ensures var merged := Merge([Spread(topK, limits)], topK);
      && |merged| == topK
      && forall i :: 0 <= i < topK ==>
           merged[i].score == limits.threshold + SPREAD_SCORE && merged[i].document == if i == 0 then 10 else 20
  {
    var b, score := Spread(topK, limits), limits.threshold + SPREAD_SCORE;
    AllSeenOne(b);
    hide Merge, AllSeen, SeenIn, Crowd;
    BatchIsReturned(b, AllSeen([b]));
    forall s | s in AllSeen([b]) ensures s.candidate in b.candidates {
      SeenIsCandidate(b, s);
    }
    CrowdFillsMerge([b], 1, topK, 10, 20, score);
  }

  lemma CrowdedMerged(topK: nat, limits: Limits)
    ensures var merged := Merge([Spread(topK, limits)] + [Crowded(topK, limits)], topK);
      |merged| == topK && forall i :: 0 <= i < topK ==> merged[i].document == 10
  {
    var a, b, score := Spread(topK, limits), Crowded(topK, limits), limits.threshold + CROWDED_SCORE;
    assert [a] + [b] == [a, b];
    AllSeenPair(a, b);
    hide Merge, AllSeen, SeenIn, Crowd;
    BatchIsReturned(b, AllSeen([a, b]));
    forall s | s in AllSeen([a, b]) ensures s.candidate in b.candidates || Outdone(s.candidate, topK + 1, topK, score) {
      if s in SeenIn(b) {
        SeenIsCandidate(b, s);
      } else {
        SeenIsCandidate(a, s);
        CrowdMember(1, topK, 10, 20, limits.threshold + SPREAD_SCORE, s.candidate);
        assert s.candidate.score == limits.threshold + SPREAD_SCORE;
      }
    }
    CrowdFillsMerge([a, b], topK + 1, topK, 10, 10, score);
  }

  // ---- the exact condition

  /** Context that suffices for a comparison still suffices after this attempt. */
  ghost predicate Stays(batches: seq<Batch>, more: Batch, topK: nat, rerankTopN: nat, limits: Limits) {
    DecideMerged(batches, topK, rerankTopN, true, limits).sufficient ==>
      DecideMerged(batches + [more], topK, rerankTopN, true, limits).sufficient
  }

  /** No merged list is long enough to suffice for a comparison. */
  predicate NeverEnough(topK: nat, rerankTopN: nat, limits: Limits) {
    || topK < 2 || rerankTopN < 2
    || limits.minCandidates > topK
    || limits.minSelected > (if topK < rerankTopN then topK else rerankTopN)
  }

  lemma NeverSufficient(batches: seq<Batch>, topK: nat, rerankTopN: nat, limits: Limits)
    requires NeverEnough(topK, rerankTopN, limits)
    ensures !DecideMerged(batches, topK, rerankTopN, true, limits).sufficient
  {
    MergeIsTop(batches, topK);
    hide Merge, TopScore, Diversity, Best;
    assert |Merge(batches, topK)| == |Keys(Merge(batches, topK))| <= topK;
  }

  lemma SpreadSuffices(topK: nat, rerankTopN: nat, limits: Limits)
    requires !NeverEnough(topK, rerankTopN, limits)
    ensures DecideMerged([Spread(topK, limits)], topK, rerankTopN, true, limits).sufficient
  {
    SpreadMerged(topK, limits);
    hide Merge, Spread, SufficiencyScore;
    var merged := Merge([Spread(topK, limits)], topK);
    var selected := Prefix(merged, SelectedCount(merged, rerankTopN));
    var documents := set c | c in selected :: c.document;
    assert selected[0] in selected && selected[1] in selected;
    assert {10, 20} <= documents;
    SubsetSize({10, 20}, documents);
    TopScoreAtLeast(merged, 0);
  }

  lemma {:induction false} TopScoreAtLeast(candidates: seq<Candidate>, i: nat)
    requires i < |candidates|
    ensures TopScore(candidates).Some? && TopScore(candidates).value >= candidates[i].score
  {
    if i > 0 {
      TopScoreAtLeast(candidates[1..], i - 1);
    }
  }

  lemma CrowdedDoesNot(topK: nat, rerankTopN: nat, limits: Limits)
    ensures !DecideMerged([Spread(topK, limits)] + [Crowded(topK, limits)], topK, rerankTopN, true, limits).sufficient
  {
    CrowdedMerged(topK, limits);
    hide Merge, Spread, Crowded, SufficiencyScore, TopScore;
    var merged := Merge([Spread(topK, limits)] + [Crowded(topK, limits)], topK);
    var documents := set c | c in Prefix(merged, SelectedCount(merged, rerankTopN)) :: c.document;
    assert documents <= {10};
    SubsetSize(documents, {10});
  }

  /**
    For a comparison, sufficient context survives every further attempt if and only if the
    settings let no context suffice in the first place.
   */
  lemma ComparisonStaysSufficient(topK: nat, rerankTopN: nat, limits: Limits)
    ensures (forall batches, more :: Stays(batches, more, topK, rerankTopN, limits)) <==>
            topK < 2 || rerankTopN < 2 || limits.minCandidates > topK ||
            limits.minSelected > (if topK < rerankTopN then topK else rerankTopN)
  {
    hide DecideMerged;
    if NeverEnough(topK, rerankTopN, limits) {
      forall batches, more ensures Stays(batches, more, topK, rerankTopN, limits) {
        NeverSufficient(batches, topK, rerankTopN, limits);
      }
    } else {
      SpreadSuffices(topK, rerankTopN, limits);
      CrowdedDoesNot(topK, rerankTopN, limits);
      assert !Stays([Spread(topK, limits)], Crowded(topK, limits), topK, rerankTopN, limits);
    }
  }
}
